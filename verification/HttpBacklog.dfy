/**
 How much of a stream a connection has to hold: the bytes since the last message that
 completed. A connection of any length needs room for one message and one chunk.
 */
module HttpBacklog {
  import opened Bytes
  import opened StreamBuffers
  import opened HttpParser
  import opened HttpPrinter
  import opened HttpPipeline

  /** Of the bytes held, those since the last message that completes. */
  function Since(x: Point, held: Octets): Octets
    decreases |x.u|, if x.p.phase == READY then 0 else 1
  {
    var y := Feed(x);
    if y.p.phase != DONE then held
    else
      ReadyTakesBytes(x);
      Since(Next(y), y.u)
  }

  /** Each chunk fits beside the bytes held when it arrives. */
  predicate ChunksFit(limit: nat, x: Point, held: Octets, chunks: seq<Octets>)
    decreases |chunks|
  {
    chunks == [] ||
    (Admits(limit, |held|, |chunks[0]|) &&
     var y := x.More(chunks[0]);
     ChunksFit(limit, Pump(y).x, Since(y, held + chunks[0]), chunks[1..]))
  }

  lemma SinceByFeed(x: Point, y: Point, held: Octets)
    requires Feed(x) == Feed(y)
    ensures Since(x, held) == Since(y, held)
  {
    ReadyTakesBytes(x);
    ReadyTakesBytes(y);
  }

  lemma SinceOpen(x: Point, held: Octets)
    requires Feed(x).p.phase != DONE
    ensures Since(x, held) == held
  {
  }

  lemma SinceDone(x: Point, held: Octets)
    requires Feed(x).p.phase == DONE
    ensures Since(x, held) == Since(Next(Feed(x)), Feed(x).u)
  {
    ReadyTakesBytes(x);
  }

  lemma NothingCompletes(p: Parser)
    requires Blank(p)
    ensures Feed(Point(p, [])) == Point(p, [])
  {
    assert Find([], CRLF) < 0;
  }

  predicate Printable(ms: seq<Msg>, phrases: Phrases, request: bool) {
    forall i :: 0 <= i < |ms| ==> Good(ms[i], phrases) && ms[i].start.Request? == request
  }

  /** No message completes before its last byte. */
  lemma PrefixWaits(p: Parser, m: Msg, phrases: Phrases, a: Octets, b: Octets)
    requires Blank(p) && Good(m, phrases) && p.start.Request? == m.start.Request?
    requires a + b == Print(m, phrases) && b != []
    ensures Feed(Point(p, a)).p.phase != DONE
  {
    hide Feed, Print, Legible, CanPrint;
    FeedResume(Point(p, a), b);
    assert Print(m, phrases) + [] == a + b;
    ReadBack(p, m, phrases, []);
    if Feed(Point(p, a)).p.phase == DONE {
      DoneStays(Feed(Point(p, a)).More(b));
      assert false;
    }
  }

  /** Bytes `a` of printed messages, of which `b` are still to come: what is held after
      them begins a message that has not completed. */
  lemma {:induction false} SinceIsOpen(p: Parser, ms: seq<Msg>, phrases: Phrases, a: Octets, b: Octets)
      returns (q: Parser, more: seq<Msg>)
    requires Blank(p) && Printable(ms, phrases, p.start.Request?) && a + b == PrintAll(ms, phrases)
    ensures Blank(q) && q.start.Request? == p.start.Request?
    ensures Printable(more, phrases, p.start.Request?)
    ensures forall m :: m in more ==> m in ms
    ensures
      var held := Since(Point(p, a), a);
      && held + b == PrintAll(more, phrases)
      && Pump(Point(p, a)).x == Feed(Point(q, held)) && Feed(Point(q, held)).p.phase != DONE
    decreases |ms|
  {
    hide Legible, CanPrint, Print, PrintAll, Feed, Since, Pump;
    var x := Point(p, a);
    if Feed(x).p.phase != DONE {
      q, more := p, ms;
      PumpWait(x);
      SinceOpen(x, a);
    } else {
      var n := OneIsWhole(p, ms, phrases, a, b);
      var t := a[n..];
      PumpDone(x, Feed(x));
      SinceDone(x, a);
      q, more := SinceIsOpen(Fresh(p.start.Request?), ms[1..], phrases, t, b);
    }
  }

  lemma SplitFront(a: Octets, b: Octets, e: Octets, rest: Octets)
    requires a + b == e + rest
    ensures |a| < |e| ==> a + b[..|e| - |a|] == e
    ensures |a| >= |e| ==> a == e + a[|e|..] && a[|e|..] + b == rest
  {
    if |a| < |e| {
      assert e == (e + rest)[..|e|];
    } else {
      assert e == (e + rest)[..|e|] == (a + b)[..|e|] == a[..|e|];
      assert rest == (e + rest)[|e|..] == (a + b)[|e|..];
    }
  }

  /** If a message completes, its printed form is in `a` and what follows it is left. */
  lemma OneIsWhole(p: Parser, ms: seq<Msg>, phrases: Phrases, a: Octets, b: Octets) returns (n: nat)
    requires Blank(p) && Printable(ms, phrases, p.start.Request?) && a + b == PrintAll(ms, phrases)
    requires Feed(Point(p, a)).p.phase == DONE
    ensures ms != [] && n <= |a| && Next(Feed(Point(p, a))) == Point(Fresh(p.start.Request?), a[n..])
    ensures Feed(Point(p, a)).u == a[n..] && a[n..] + b == PrintAll(ms[1..], phrases)
  {
    hide Feed, Legible, CanPrint, Print;
    n := if ms == [] then 0 else |Print(ms[0], phrases)|;
    if ms == [] {
      assert a == [];
      NothingCompletes(p);
    } else {
      var e := Print(ms[0], phrases);
      SplitFront(a, b, e, PrintAll(ms[1..], phrases));
      if |a| < n {
        PrefixWaits(p, ms[0], phrases, a, b[..n - |a|]);
      }
      ReadBack(p, ms[0], phrases, a[n..]);
    }
  }

  /** What is held begins a message that has not completed, so it is shorter than it. */
  lemma HeldIsSmall(q: Parser, held: Octets, b: Octets, ms: seq<Msg>, phrases: Phrases, largest: nat)
    requires Blank(q) && Printable(ms, phrases, q.start.Request?) && held + b == PrintAll(ms, phrases)
    requires Feed(Point(q, held)).p.phase != DONE
    requires forall m :: m in ms ==> |Print(m, phrases)| <= largest
    ensures |held| <= largest
  {
    hide Feed, Legible, CanPrint, Print;
    if ms != [] && |held| > |Print(ms[0], phrases)| {
      var e := Print(ms[0], phrases);
      assert (held + b)[..|e|] == held[..|e|] == e;
      assert held == e + held[|e|..];
      ReadBack(q, ms[0], phrases, held[|e|..]);
      assert false;
    }
  }

  /** Room for the largest message and the largest chunk is enough, however many there are. */
  lemma {:induction false} SmallFits(limit: nat, p: Parser, held: Octets, ms: seq<Msg>, phrases: Phrases,
                                     chunks: seq<Octets>, largest: nat, chunk: nat)
    requires Blank(p) && Printable(ms, phrases, p.start.Request?) && held + Flat(chunks) == PrintAll(ms, phrases)
    requires Feed(Point(p, held)).p.phase != DONE
    requires forall m :: m in ms ==> |Print(m, phrases)| <= largest
    requires forall c :: c in chunks ==> |c| <= chunk
    requires Admits(limit, largest, chunk)
    ensures ChunksFit(limit, Feed(Point(p, held)), held, chunks)
    decreases |chunks|
  {
    hide Feed, Legible, CanPrint, Print, PrintAll, Since;
    if chunks != [] {
      var c, b := chunks[0], Flat(chunks[1..]);
      HeldIsSmall(p, held, Flat(chunks), ms, phrases, largest);
      SumAssociates(held, c, b);
      var x := Feed(Point(p, held));
      FeedResume(Point(p, held), c);
      var q, more := SinceIsOpen(p, ms, phrases, held + c, b);
      PumpByFeed(Point(p, held + c), x.More(c));
      SinceByFeed(Point(p, held + c), x.More(c), held + c);
      assert c in chunks && forall d :: d in chunks[1..] ==> d in chunks;
      SmallFits(limit, q, Since(Point(p, held + c), held + c), more, phrases, chunks[1..], largest, chunk);
    }
  }
}
