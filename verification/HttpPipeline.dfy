/**
 A connection that keeps parsing messages from one byte stream, resetting the
 parser after each: neither the cut of the stream into chunks nor the messages
 sent back to back on it can be told apart from one message at a time.
 */
module HttpPipeline {
  import opened Bytes
  import opened HttpText
  import opened HttpParser
  import opened HttpPrinter

  /** "GET", "HTTP/1.1", "OK" */
  const GET: Octets := [71, 69, 84]
  const HTTP_1_1: Octets := [72, 84, 84, 80, 47, 49, 46, 49]
  const OK: Octets := [79, 75]

  /** What `Reset` leaves. */
  function Fresh(request: bool): Parser {
    Parser(READY, if request then Request(GET, [], HTTP_1_1) else Response(HTTP_1_1, 200, OK), [], 0, None)
  }

  /** A new message object. A new response has no phrase yet. */
  function New(request: bool): Parser {
    if request then Fresh(true) else Fresh(false).(start := Response(HTTP_1_1, 200, []))
  }

  /** The message a completed parser holds. */
  function Held(p: Parser): Msg {
    Msg(p.start, p.headers, if p.body.Some? then p.body.value else [])
  }

  datatype Pumped = Pumped(msgs: seq<Msg>, x: Point)

  /** Parse until no message completes any more, resetting after each one. */
  function Pump(x: Point): (r: Pumped)
    decreases |x.u|, if x.p.phase == READY then 0 else 1
  {
    var y := Feed(x);
    if y.p.phase != DONE then Pumped([], y)
    else
      ReadyTakesBytes(x);
      var rest := Pump(Point(Fresh(y.p.start.Request?), y.u));
      Pumped([Held(y.p)] + rest.msgs, rest.x)
  }

  /** A message that starts and completes takes at least its first line. */
  lemma ReadyTakesBytes(x: Point)
    ensures x.p.phase == READY && Feed(x).p.phase == DONE ==> |Feed(x).u| < |x.u|
  {
  }

  /** Chunks arriving one after the other. */
  function PumpChunks(x: Point, chunks: seq<Octets>): (r: Pumped)
    decreases |chunks|
  {
    if chunks == [] then Pumped([], x)
    else
      var a := Pump(x.More(chunks[0]));
      Then(a, PumpChunks(a.x, chunks[1..]))
  }

  function Flat(chunks: seq<Octets>): Octets {
    if chunks == [] then [] else chunks[0] + Flat(chunks[1..])
  }

  /** First the messages of `r`, then those of `s`. */
  function Then(r: Pumped, s: Pumped): Pumped {
    Pumped(r.msgs + s.msgs, s.x)
  }

  lemma PumpByFeed(x: Point, y: Point)
    requires Feed(x) == Feed(y)
    ensures Pump(x) == Pump(y)
  {
    ReadyTakesBytes(x);
    ReadyTakesBytes(y);
  }

  function Next(y: Point): Point {
    Point(Fresh(y.p.start.Request?), y.u)
  }

  lemma PumpDone(x: Point, y: Point)
    requires Feed(x) == y && y.p.phase == DONE
    ensures Pump(x) == Then(Pumped([Held(y.p)], y), Pump(Next(y)))
  {
    ReadyTakesBytes(x);
  }

  lemma PumpWait(x: Point)
    requires Feed(x).p.phase != DONE
    ensures Pump(x) == Pumped([], Feed(x))
  {
  }

  lemma DoneStays(y: Point)
    requires y.p.phase == DONE
    ensures Feed(y) == y
  {
  }

  lemma ThenThen(m: seq<Msg>, y: Point, z: Point, p: Pumped, q: Pumped)
    ensures Then(Pumped(m, y), Then(p, q)) == Then(Then(Pumped(m, z), p), q)
  {
    assert m + (p.msgs + q.msgs) == m + p.msgs + q.msgs;
  }

  lemma {:induction false} PumpResume(x: Point, b: Octets)
    ensures Pump(x.More(b)) == Then(Pump(x), Pump(Pump(x).x.More(b)))
    decreases |x.u|, if x.p.phase == READY then 0 else 1
  {
    FeedResume(x, b);
    var y := Feed(x);
    if y.p.phase != DONE {
      PumpWait(x);
      PumpByFeed(x.More(b), y.More(b));
      var r := Pump(y.More(b));
      assert Then(Pumped([], y), r) == r;
    } else {
      ReadyTakesBytes(x);
      PumpResume(Next(y), b);
      PumpResumeDone(x, y, b);
    }
  }

  lemma PumpResumeDone(x: Point, y: Point, b: Octets)
    requires Feed(x) == y && y.p.phase == DONE
    requires Feed(x.More(b)) == Feed(y.More(b))
    requires Pump(Next(y).More(b)) == Then(Pump(Next(y)), Pump(Pump(Next(y)).x.More(b)))
    ensures Pump(x.More(b)) == Then(Pump(x), Pump(Pump(x).x.More(b)))
  {
    var p := Pump(Next(y));
    DoneStays(y.More(b));
    PumpDone(x, y);
    PumpDone(x.More(b), y.More(b));
    ThenThen([Held(y.p)], y.More(b), y, p, Pump(p.x.More(b)));
  }

  /** Chunk independence of the connection: any chunks give the messages, the
      parser state and the leftover bytes of their concatenation. */
  lemma {:induction false} ChunkIndependence(x: Point, chunks: seq<Octets>)
    requires chunks != []
    ensures PumpChunks(x, chunks) == Pump(x.More(Flat(chunks)))
    decreases |chunks|
  {
    var y := x.More(chunks[0]);
    var a := Pump(y);
    SumAssociates(x.u, chunks[0], Flat(chunks[1..]));
    if |chunks| == 1 {
      assert Flat(chunks[1..]) == [] && y.More([]) == y;
    } else {
      ChunkIndependence(a.x, chunks[1..]);
      PumpResume(y, Flat(chunks[1..]));
    }
  }

  function PrintAll(ms: seq<Msg>, phrases: Phrases): Octets {
    if ms == [] then [] else Print(ms[0], phrases) + PrintAll(ms[1..], phrases)
  }

  function NamedAll(ms: seq<Msg>, phrases: Phrases): (r: seq<Msg>)
    ensures |r| == |ms| && forall i :: 0 <= i < |ms| ==> r[i] == Named(ms[i], phrases)
  {
    if ms == [] then [] else [Named(ms[0], phrases)] + NamedAll(ms[1..], phrases)
  }

  /** The parser that waits after `ms`, from `p`. */
  function Waiting(p: Parser, ms: seq<Msg>): Parser {
    if ms == [] then p else Fresh(p.start.Request?)
  }

  lemma {:induction false} BackToBack(p: Parser, ms: seq<Msg>, phrases: Phrases)
    requires Blank(p)
    requires forall i :: 0 <= i < |ms| ==> Good(ms[i], phrases) && ms[i].start.Request? == p.start.Request?
    ensures Pump(Point(p, PrintAll(ms, phrases))) == Pumped(NamedAll(ms, phrases), Point(Waiting(p, ms), []))
    decreases |ms|
  {
    if ms == [] {
      assert Find([], CRLF) < 0;
    } else {
      var t := PrintAll(ms[1..], phrases);
      ReadBack(p, ms[0], phrases, t);
      var m := Named(ms[0], phrases);
      assert Feed(Point(p, PrintAll(ms, phrases))) == Point(Completed(m), t);
      assert Held(Completed(m)) == m;
      BackToBack(Fresh(p.start.Request?), ms[1..], phrases);
    }
  }

  lemma NothingPrinted(ms: seq<Msg>, phrases: Phrases)
    ensures PrintAll(ms, phrases) == [] ==> ms == []
  {
    if ms != [] {
      assert |Print(ms[0], phrases)| >= 2;
    }
  }

  /** Messages printed back to back and cut into any chunks come out as those
      messages, in order, with nothing left over. */
  lemma Pipelining(p: Parser, ms: seq<Msg>, phrases: Phrases, chunks: seq<Octets>)
    requires Blank(p)
    requires forall i :: 0 <= i < |ms| ==> Good(ms[i], phrases) && ms[i].start.Request? == p.start.Request?
    requires Flat(chunks) == PrintAll(ms, phrases)
    ensures PumpChunks(Point(p, []), chunks) == Pumped(NamedAll(ms, phrases), Point(Waiting(p, ms), []))
  {
    if chunks == [] {
      NothingPrinted(ms, phrases);
    } else {
      ChunkIndependence(Point(p, []), chunks);
      assert [] + Flat(chunks) == Flat(chunks);
      BackToBack(p, ms, phrases);
    }
  }

  // ------------------------------------------------------- what the parser yields

  /** What the headers and the body of a parser always satisfy. */
  predicate Sound(p: Parser) {
    && (forall i :: 0 <= i < |p.headers| ==> GoodHeader(p.headers[i]))
    && DistinctKeys(p.headers)
    && (p.phase in {BODY, DONE} ==> p.bodyLen == ContentLength(p.headers))
    && (p.phase in {READY, HEADER, BODY} ==> p.body == None)
    && (p.phase == DONE ==> ContentLength(p.headers) == |Held(p).body|)
  }

  lemma PrefixOneLine(a: Octets, b: Octets)
    requires OneLine(a + b)
    ensures OneLine(a)
  {
    if Find(a, CRLF) >= 0 {
      FindStable(a, b, CRLF);
    }
  }

  lemma SuffixOneLine(a: Octets, b: Octets)
    requires OneLine(a + b)
    ensures OneLine(b)
  {
    var n := Find(b, CRLF);
    if n >= 0 {
      FindOccurs(b, CRLF);
      assert (a + b)[|a| + n..|a| + n + 2] == b[n..n + 2];
      FindIsFirst(a + b, CRLF, |a| + n);
    }
  }

  lemma PairAt(s: Octets, i: nat)
    requires i + 2 <= |s|
    ensures s[i..i + 2] == CRLF <==> s[i] == CR && s[i + 1] == LF
  {
    assert s[i..i + 2] == [s[i], s[i + 1]];
  }

  lemma JoinOneLine(a: Octets, c: Byte, b: Octets)
    requires OneLine(a) && OneLine(b) && c !in CRLF
    ensures OneLine(a + [c] + b)
  {
    var s := a + [c] + b;
    if Find(s, CRLF) >= 0 {
      var i: nat := Find(s, CRLF);
      FindOccurs(s, CRLF);
      PairAt(s, i);
      if i + 1 < |a| {
        assert a[i] == s[i] && a[i + 1] == s[i + 1];
        PairAt(a, i);
        FindIsFirst(a, CRLF, i);
      } else if i > |a| {
        var k := i - |a| - 1;
        assert b[k] == s[i] && b[k + 1] == s[i + 1];
        PairAt(b, k);
        FindIsFirst(b, CRLF, k);
      }
    }
  }

  lemma LineIsOneLine(u: Octets)
    requires Find(u, CRLF) >= 0
    ensures OneLine(u[..Find(u, CRLF)])
  {
    var n := Find(u, CRLF);
    assert u[..n] + u[n..] == u;
    if Find(u[..n], CRLF) >= 0 {
      FindStable(u[..n], u[n..], CRLF);
    }
  }

  lemma CStringOneLine(s: Octets)
    requires OneLine(s)
    ensures OneLine(CString(s)) && 0 !in CString(s)
    ensures forall c :: c in CString(s) ==> c in s
  {
    var n := FindByte(s, 0);
    FindByteFirst(s, 0);
    if n >= 0 {
      assert s[..n] + s[n..] == s;
      PrefixOneLine(s[..n], s[n..]);
    }
  }

  function FindKey(hs: seq<Header>, key: Octets): (r: int)
    ensures -1 <= r < |hs|
    ensures r >= 0 ==> hs[r].key == key
    ensures r < 0 ==> forall i :: 0 <= i < |hs| ==> hs[i].key != key
  {
    if hs == [] then -1
    else if hs[0].key == key then 0
    else
      var r := FindKey(hs[1..], key);
      if r < 0 then -1 else r + 1
  }

  lemma UpdateBehind(hs: seq<Header>, i: nat, h: Header)
    requires i + 1 < |hs|
    ensures [hs[0]] + hs[1..][i := h] == hs[i + 1 := h]
  {
  }

  /** Setting a header changes one place or appends. */
  lemma {:induction false} SetHeaderShape(hs: seq<Header>, h: Header)
    ensures
      var i := FindKey(hs, h.key);
      SetHeader(hs, h.key, h.value) == if i < 0 then hs + [h] else hs[i := h]
  {
    if hs == [] {
    } else if hs[0].key == h.key {
      assert [h] + hs[1..] == hs[0 := h];
    } else {
      SetHeaderShape(hs[1..], h);
      var i := FindKey(hs[1..], h.key);
      if i < 0 {
        assert [hs[0]] + (hs[1..] + [h]) == hs + [h];
      } else {
        UpdateBehind(hs, i, h);
      }
    }
  }

  lemma SetHeaderKeeps(hs: seq<Header>, h: Header)
    requires DistinctKeys(hs) && GoodHeader(h)
    requires forall i :: 0 <= i < |hs| ==> GoodHeader(hs[i])
    ensures
      var r := SetHeader(hs, h.key, h.value);
      DistinctKeys(r) && forall i :: 0 <= i < |r| ==> GoodHeader(r[i])
  {
    SetHeaderShape(hs, h);
    var r, k := SetHeader(hs, h.key, h.value), FindKey(hs, h.key);
    hide SetHeader, FindKey, GoodHeader;
    assert forall i :: 0 <= i < |r| ==> r[i] == if i == k || i == |hs| then h else hs[i];
  }

  lemma CutAt(s: Octets, i: nat)
    requires i <= |s|
    ensures s == s[..i] + s[i..]
  {
  }

  lemma HeaderLineSound(p: Parser, line: Octets)
    requires Sound(p) && p.phase == HEADER && OneLine(line)
    ensures Sound(HeaderLine(p, line))
  {
    var c := FindByte(line, COLON);
    FindByteFirst(line, COLON);
    if c >= 0 {
      var key, value := line[..c], line[c + 1..];
      CutAt(line, c);
      CutAt(line, c + 1);
      PrefixOneLine(key, line[c..]);
      SuffixOneLine(line[..c + 1], value);
      CStringOneLine(key);
      CStringOneLine(value);
      JoinOneLine(CString(key), COLON, CString(value));
      assert COLON !in key;
      SetHeaderKeeps(p.headers, Header(CString(key), CString(value)));
    }
  }

  lemma {:induction false} HeaderStageSound(x: Point)
    requires Sound(x.p)
    ensures Sound(HeaderStage(x).p)
    decreases |x.u|
  {
    var n := Find(x.u, CRLF);
    if x.p.phase == HEADER && n > 0 {
      LineIsOneLine(x.u);
      HeaderLineSound(x.p, x.u[..n]);
      var (more, y) := HeaderTurn(x);
      if more {
        HeaderStageSound(y);
      }
    }
  }

  /** Whatever bytes arrive, a completed message has distinct, printable headers
      and a body as long as its Content-Length. */
  lemma FeedSound(x: Point)
    requires Sound(x.p)
    ensures Sound(Feed(x).p)
  {
    HeaderStageSound(StartStage(x));
  }

  // ------------------------------------------------------------------ reprinting

  /** What the first line of a parser always satisfies. */
  predicate StartSound(s: Start) {
    match s
    case Request(verb, url, version) =>
      verb != [] && version != [] && NoSpace(verb) && NoSpace(url) && NoSpace(version)
    case Response(version, _, phrase) => SP !in version && OneLine(version) && OneLine(phrase)
  }

  lemma RequestLineSound(was: Start, line: Octets)
    requires was.Request? && StartSound(was)
    ensures StartSound(ParseRequestLine(was, line))
  {
    ExtractedIsWord(line);
    if Extract(line).Some? {
      var l1 := Extract(line).value.1;
      ExtractedIsWord(l1);
      if Extract(l1).Some? {
        ExtractedIsWord(Extract(l1).value.1);
      }
    }
  }

  lemma ResponseLineSound(was: Start, line: Octets)
    requires was.Response? && StartSound(was) && OneLine(line)
    ensures StartSound(ParseResponseLine(was, line))
  {
    hide OneLine, FindByte, ParseInt;
    var i := FindByte(line, SP);
    FindByteFirst(line, SP);
    if i >= 0 {
      assert line == line[..i] + line[i..] && line == line[..i + 1] + line[i + 1..];
      PrefixOneLine(line[..i], line[i..]);
      SuffixOneLine(line[..i + 1], line[i + 1..]);
      var rest := line[i + 1..];
      var j := FindByte(rest, SP);
      if j >= 0 {
        assert rest == rest[..j + 1] + rest[j + 1..];
        SuffixOneLine(rest[..j + 1], rest[j + 1..]);
      }
    }
  }

  lemma FeedStartSound(x: Point)
    requires StartSound(x.p.start)
    ensures StartSound(Feed(x).p.start)
    ensures Feed(x).p.start == StartStage(x).p.start
  {
    if x.p.phase == READY && Find(x.u, CRLF) >= 0 {
      LineIsOneLine(x.u);
      var line := x.u[..Find(x.u, CRLF)];
      if x.p.start.Request? {
        RequestLineSound(x.p.start, line);
      } else {
        ResponseLineSound(x.p.start, line);
      }
    }
  }

  /** A request with a URL; a response with a phrase of one line, of its own or in the table;
      and no empty key. */
  predicate Reprintable(m: Msg, phrases: Phrases) {
    && (match m.start
        case Request(_, url, _) => url != []
        case Response(_, code, phrase) => phrase != [] || (code in phrases && OneLine(phrases[code])))
    && forall i :: 0 <= i < |m.headers| ==> m.headers[i].key != []
  }

  /** The first line, if it is printed, is read back. */
  predicate ReadsBack(s: Start, phrases: Phrases) {
    match s
    case Request(_, url, _) => url != []
    case Response(_, code, phrase) => phrase != [] || code !in phrases || OneLine(phrases[code])
  }

  /** The part of a status line before its phrase. */
  lemma FrontIsOneLine(version: Octets, code: int)
    requires OneLine(version)
    ensures OneLine(version + [SP] + PrintInt(code))
  {
    PrintIntRoundTrip(code);
    NoReturnIsOneLine(PrintInt(code));
    JoinOneLine(version, SP, PrintInt(code));
  }

  lemma GoodIffReadsBack(s: Start, phrases: Phrases)
    requires StartSound(s)
    ensures GoodStart(s, phrases) <==> ReadsBack(s, phrases)
  {
    if s.Response? {
      var front, phrase := s.version + [SP] + PrintInt(s.code), Phrase(s, phrases);
      FrontIsOneLine(s.version, s.code);
      if OneLine(phrase) {
        JoinOneLine(front, SP, phrase);
      }
      if OneLine(PrintStart(s, phrases)) {
        SuffixOneLine(front + [SP], phrase);
      }
    }
  }

  /** A request without a URL: its version is read as the URL. */
  lemma NoUrlMisread(was: Start, verb: Octets, version: Octets)
    requires was.Request? && StartSound(Request(verb, [], version))
    ensures OneLine(verb + [SP] + [] + [SP] + version)
    ensures ParseStart(was, verb + [SP] + [] + [SP] + version) == was.(verb := verb, url := version)
  {
    var line := verb + [SP] + [] + [SP] + version;
    assert forall i :: 0 <= i < |line| ==> line[i] in verb || line[i] in version || line[i] == SP;
    NoReturnIsOneLine(line);
    var l2 := [SP] + version;
    assert line == verb + ([SP] + l2);
    ExtractWord(verb, [SP] + l2);
    ExtractWord(version, []);
    assert version + [] == version && l2 + [] == l2 && ([SP] + l2)[1..] == l2;
  }

  /** A phrase of several lines is cut at its first break. */
  lemma LongPhraseMisread(was: Start, version: Octets, code: int, phrase: Octets, v: Octets)
    requires was.Response? && SP !in version && OneLine(version) && !OneLine(phrase)
    ensures
      var u := version + [SP] + PrintInt(code) + [SP] + phrase + CRLF + v;
      && Find(u, CRLF) >= 0
      && ParseStart(was, u[..Find(u, CRLF)]) == Response(version, code, phrase[..Find(phrase, CRLF)])
  {
    var front, k := version + [SP] + PrintInt(code), Find(phrase, CRLF);
    var cut, more := phrase[..k], phrase[k + 2..] + CRLF + v;
    FindOccurs(phrase, CRLF);
    LineIsOneLine(phrase);
    FrontIsOneLine(version, code);
    hide OneLine, PrintInt, ParseResponseLine, Find;
    JoinOneLine(front, SP, cut);
    var line := front + [SP] + cut;
    CutPhrase(front + [SP], phrase, k, v);
    LineEnds(line, more);
    ResponseRoundTrip(was, version, code, cut);
    assert (line + CRLF + more)[..|line|] == line;
  }

  lemma CutPhrase(front: Octets, phrase: Octets, k: nat, v: Octets)
    requires k + 2 <= |phrase| && phrase[k..k + 2] == CRLF
    ensures front + phrase + CRLF + v == front + phrase[..k] + CRLF + (phrase[k + 2..] + CRLF + v)
  {
    assert phrase == phrase[..k] + CRLF + phrase[k + 2..];
  }

  lemma ReparseFails(p: Parser, m: Msg, phrases: Phrases, t: Octets)
    requires Blank(p) && p.start.Request? == m.start.Request? && StartSound(m.start)
    requires !ReadsBack(m.start, phrases)
    ensures StartStage(Point(p, Print(m, phrases) + t)).p.start != Named(m, phrases).start
  {
    var v := PrintHeaders(m.headers) + CRLF + (m.body + t);
    PrintSplits(m, phrases, t);
    match m.start
    case Request(verb, url, version) =>
      NoUrlMisread(p.start, verb, version);
      var line := PrintStart(m.start, phrases);
      LineEnds(line, v);
      assert (line + CRLF + v)[..|line|] == line;
    case Response(version, code, _) =>
      LongPhraseMisread(p.start, version, code, phrases[code], v);
  }

  /** A parser that the source can have before a message. */
  predicate Ready(p: Parser) {
    Blank(p) && StartSound(p.start)
  }

  /** What is printed for a message, if anything, is parsed into it, followed by `t`. */
  predicate Reparses(p: Parser, m: Msg, phrases: Phrases, t: Octets) {
    var e := PrintOf(m, phrases);
    e.Some? && Feed(Point(p, e.value + t)) == Point(Completed(Named(m, phrases)), t)
  }

  lemma CompletedIsLegible(p: Parser, u: Octets, phrases: Phrases)
    requires Ready(p) && Feed(Point(p, u)).p.phase == DONE
    ensures
      var m := Held(Feed(Point(p, u)).p);
      && StartSound(m.start) && m.start.Request? == p.start.Request?
      && (Legible(m, phrases) <==> ReadsBack(m.start, phrases))
      && (CanPrint(m, phrases) <==>
            HasPhrase(m.start, phrases) && forall i :: 0 <= i < |m.headers| ==> m.headers[i].key != [])
  {
    hide Feed, GoodStart, ReadsBack;
    var x := Point(p, u);
    FeedSound(x);
    FeedStartSound(x);
    var m := Held(Feed(x).p);
    GoodIffReadsBack(m.start, phrases);
    forall i | 0 <= i < |m.headers| && m.headers[i].key != []
      ensures PrintableKey(m.headers[i].key)
    {
      assert GoodHeader(m.headers[i]);
    }
  }

  /** Any message the parser completes, printed and parsed again before any following bytes,
      comes back, with the phrase that was printed for it, exactly when a request has a URL, a
      response has a phrase of one line, and no key is empty. Parsers new and reset will do. */
  lemma ReparseLaw(p: Parser, q: Parser, u: Octets, phrases: Phrases, t: Octets)
    requires Ready(p) && Blank(q) && q.start.Request? == p.start.Request?
    ensures
      var y := Feed(Point(p, u));
      y.p.phase == DONE ==>
        (Reparses(q, Held(y.p), phrases, t) <==> Reprintable(Held(y.p), phrases))
  {
    hide Feed, StartStage, Print, Legible, CanPrint;
    var y := Feed(Point(p, u));
    if y.p.phase == DONE {
      var m := Held(y.p);
      CompletedIsLegible(p, u, phrases);
      if ReadsBack(m.start, phrases) {
        ReadBack(q, m, phrases, t);
      } else {
        ReparseFails(q, m, phrases, t);
        FeedKeepsStart(Point(q, Print(m, phrases) + t));
      }
    }
  }

  predicate IsText(s: Octets, t: string) {
    |s| == |t| && forall i :: 0 <= i < |s| ==> (s[i] as char) == t[i]
  }

  /** The defaults of the source, in letters. */
  lemma Defaults()
    ensures IsText(CONTENT_LENGTH, "Content-Length") && IsText(CRLF, "\r\n")
    ensures IsText(New(true).start.verb, "GET") && New(true).start.url == []
    ensures IsText(New(true).start.version, "HTTP/1.1") && IsText(New(false).start.version, "HTTP/1.1")
    ensures New(false).start.code == 200 && New(false).start.phrase == []
    ensures IsText(Fresh(false).start.phrase, "OK") && Fresh(false).start.code == 200
    ensures Fresh(true) == New(true) && Blank(New(true)) && Blank(New(false)) && Blank(Fresh(false))
  {
  }

  /** An empty first line is a first line that changes nothing. */
  lemma EmptyFirstLine(p: Parser, v: Octets)
    requires p.phase == READY
    ensures StartStage(Point(p, CRLF + v)) == Point(p.(phase := HEADER), v)
  {
    assert [] + CRLF + v == CRLF + v && (CRLF + v)[2..] == v;
    LineEnds([], v);
  }

  lemma FeedKeepsStart(x: Point)
    ensures Feed(x).p.start == StartStage(x).p.start
  {
  }

  lemma NewIsReady(request: bool)
    ensures Ready(New(request)) && Ready(Fresh(request))
  {
    NoReturnIsOneLine(HTTP_1_1);
    NoReturnIsOneLine(OK);
  }

  /** "Content-Length:0" */
  const NO_BODY: Header := Header(CONTENT_LENGTH, [ZERO])

  lemma NoBodyIsGood()
    ensures GoodHeader(NO_BODY) && ContentLength([NO_BODY]) == 0
  {
    NoReturnIsOneLine(CONTENT_LENGTH + [COLON] + [ZERO]);
    PrintIntRoundTrip(0);
    assert PrintInt(0) == [ZERO];
    assert GetHeader([NO_BODY], CONTENT_LENGTH) == Some([ZERO]);
  }

  /** A status line without phrase, and a code the table does not know: it is accepted and
      cannot be printed. */
  lemma UnknownCode(code: int, phrases: Phrases)
    requires code !in phrases
    ensures
      var u := HTTP_1_1 + [SP] + PrintInt(code) + [SP] + CRLF + PrintHeader(NO_BODY) + CRLF;
      var y := Feed(Point(New(false), u));
      && y.p.phase == DONE && y.u == [] && y.p.start == Response(HTTP_1_1, code, [])
      && PrintOf(Held(y.p), phrases) == None
  {
    hide Feed;
    var m := Msg(Response(HTTP_1_1, code, []), [NO_BODY], []);
    var front := HTTP_1_1 + [SP] + PrintInt(code);
    NoBodyIsGood();
    NoReturnIsOneLine(HTTP_1_1);
    FrontIsOneLine(HTTP_1_1, code);
    JoinOneLine(front, SP, []);
    ReadBack(New(false), m, map[], []);
    assert PrintStart(m.start, map[]) == front + [SP];
    assert PrintHeaders(m.headers) == PrintHeader(NO_BODY);
    assert Print(m, map[]) + [] == front + [SP] + CRLF + PrintHeader(NO_BODY) + CRLF;
  }

  lemma TwoHeaders(url: Octets, h: Header, phrases: Phrases)
    ensures
      var m := Msg(Request(GET, url, HTTP_1_1), [h, NO_BODY], []);
      && Print(m, phrases) + [] ==
         GET + [SP] + url + [SP] + HTTP_1_1 + CRLF + PrintHeader(h) + PrintHeader(NO_BODY) + CRLF
      && (h.key != CONTENT_LENGTH ==> ContentLength(m.headers) == ContentLength([NO_BODY]))
  {
    hide PrintHeader;
    var hs := [h, NO_BODY];
    var one := [NO_BODY];
    assert one[1..] == [] && PrintHeaders(one) == PrintHeader(NO_BODY) + PrintHeaders([]);
    assert hs[1..] == one && PrintHeaders(hs) == PrintHeader(h) + PrintHeaders(one);
  }

  /** A header line without a key: it is accepted and cannot be printed. */
  lemma EmptyKey(url: Octets, value: Octets, phrases: Phrases)
    requires url != [] && NoSpace(url) && OneLine([COLON] + value) && 0 !in value
    ensures
      var u := GET + [SP] + url + [SP] + HTTP_1_1 + CRLF + PrintHeader(Header([], value)) + PrintHeader(NO_BODY) + CRLF;
      var y := Feed(Point(New(true), u));
      && y.p.phase == DONE && y.u == [] && y.p.headers == [Header([], value), NO_BODY]
      && PrintOf(Held(y.p), phrases) == None
  {
    hide Feed, Print, PrintHeader, ContentLength;
    var h := Header([], value);
    var m := Msg(Request(GET, url, HTTP_1_1), [h, NO_BODY], []);
    NoBodyIsGood();
    TwoHeaders(url, h, phrases);
    assert [] + [COLON] + value == [COLON] + value;
    ReadBack(New(true), m, phrases, []);
    assert m.headers[0] == h;
  }
}
