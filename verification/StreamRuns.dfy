/**
 A `StreamBuffer` behaves like a plain bounded byte stream in every interleaving
 of its operations: growth, reclaiming and cursor resets cannot be observed.
 */
module StreamRuns {
  import opened Bytes
  import opened StreamBuffers

  datatype Op =
    | Write(p: Octets)
    | Reserve(n: nat)
    | Read(n: nat)
    | Flush
    | FlushN(n: nat)
    | Clear
    | Peek(at: nat, n: nat)
    | Update(at: nat, p: Octets)

  datatype Out =
    | Flag(ok: bool)
    | Got(ok: bool, data: Octets)
    | Left(count: int)

  /** The reference: the bytes held, how many of them were read, and the bound. */
  datatype Stream = Stream(live: Octets, pos: nat, limit: nat) {
    predicate Valid() {
      pos <= |live| && Admits(limit, |live|, 0)
    }
  }

  function Step(s: Stream, op: Op): (r: (Stream, Out))
    requires s.Valid()
    ensures r.0.Valid() && r.0.limit == s.limit
  {
    match op
    case Write(p) =>
      if Admits(s.limit, |s.live|, |p|) then (s.(live := s.live + p), Flag(true)) else (s, Flag(false))
    case Reserve(n) =>
      (s, Flag(Admits(s.limit, |s.live|, n)))
    case Read(n) =>
      if n <= |s.live| - s.pos then (s.(pos := s.pos + n), Got(true, s.live[s.pos..s.pos + n]))
      else (s, Got(false, []))
    case Flush =>
      (s.(live := s.live[s.pos..], pos := 0), Left(|s.live| - s.pos))
    case FlushN(n) =>
      if n > |s.live| then (s, Left(-1))
      else (s.(live := s.live[n..], pos := if n <= s.pos then s.pos - n else 0), Left(|s.live| - n))
    case Clear =>
      (s.(live := [], pos := 0), Flag(true))
    case Peek(at, n) =>
      if n == 0 then (s, Got(true, []))
      else if at + n <= |s.live| then (s, Got(true, s.live[at..at + n]))
      else (s, Got(false, []))
    case Update(at, p) =>
      if p == [] then (s, Flag(true))
      else if at + |p| <= |s.live| then (s.(live := Overwrite(s.live, at, p)), Flag(true))
      else (s, Flag(false))
  }

  ghost function Run(s: Stream, ops: seq<Op>): (r: (Stream, seq<Out>))
    requires s.Valid()
    ensures r.0.Valid() && r.0.limit == s.limit && |r.1| == |ops|
    decreases |ops|
  {
    if ops == [] then (s, [])
    else
      var (t, o) := Step(s, ops[0]);
      var (u, outs) := Run(t, ops[1..]);
      (u, [o] + outs)
  }

  /** What a client can tell about a buffer. */
  ghost function View(b: StreamBuffer): (s: Stream)
    requires b.Valid()
    reads b
    ensures s.Valid()
  {
    Stream(b.Live(), b.Pos(), b.limit)
  }

  /** One operation on the buffer is that operation on the stream. */
  method Perform(b: StreamBuffer, op: Op) returns (o: Out)
    requires b.Valid()
    modifies b`bytes, b`opos, b`rpos, b`wpos
    ensures b.Valid() && (View(b), o) == Step(old(View(b)), op)
    ensures old(b.opos) == 0 && (op.Write? || op.Reserve? || op.Read? || op.Peek?) ==> b.opos == 0
  {
    if op.Flush? || op.FlushN? || op.Clear? {
      o := Discard(b, op);
    } else if op.Peek? || op.Update? {
      o := Access(b, op);
    } else if op.Read? {
      o := Take(b, op.n);
    } else {
      o := Fill(b, op);
    }
  }

  method Fill(b: StreamBuffer, op: Op) returns (o: Out)
    requires b.Valid() && (op.Write? || op.Reserve?)
    modifies b`bytes, b`opos, b`rpos, b`wpos
    ensures b.Valid() && (View(b), o) == Step(old(View(b)), op)
    ensures old(b.opos) == 0 ==> b.opos == 0
  {
    var ok;
    if op.Write? {
      var at;
      ok, at := b.Write(op.p);
    } else {
      ok := b.Reserve(op.n);
    }
    o := Flag(ok);
  }

  method Take(b: StreamBuffer, n: nat) returns (o: Out)
    requires b.Valid()
    modifies b`rpos
    ensures b.Valid() && (View(b), o) == Step(old(View(b)), Op.Read(n))
  {
    b.UnreadIsTail();
    if n <= b.wpos - b.rpos {
      b.UnreadSlice(n);
    }
    var ok, p := b.Read(n);
    o := Got(ok, p);
  }

  method Discard(b: StreamBuffer, op: Op) returns (o: Out)
    requires b.Valid() && (op.Flush? || op.FlushN? || op.Clear?)
    modifies b`opos, b`rpos, b`wpos
    ensures b.Valid() && (View(b), o) == Step(old(View(b)), op)
  {
    match op
    case Flush =>
      var left := b.Flush();
      o := Left(left);
    case FlushN(n) =>
      var left := b.FlushN(n);
      o := Left(left);
    case Clear =>
      b.Clear();
      o := Flag(true);
  }

  method Access(b: StreamBuffer, op: Op) returns (o: Out)
    requires b.Valid() && (op.Peek? || op.Update?)
    modifies b`bytes
    ensures b.Valid() && (View(b), o) == Step(old(View(b)), op)
  {
    match op
    case Peek(at, n) =>
      var ok, p := b.Peek(at, n);
      o := Got(ok, p);
    case Update(at, p) =>
      var ok := b.Update(at, p);
      o := Flag(ok);
  }

  /** Every run on the buffer gives the outputs of the same run on the stream. */
  method PerformAll(b: StreamBuffer, ops: seq<Op>) returns (outs: seq<Out>)
    requires b.Valid()
    modifies b`bytes, b`opos, b`rpos, b`wpos
    ensures b.Valid() && (View(b), outs) == Run(old(View(b)), ops)
    ensures old(b.opos) == 0 && Appending(ops) ==> b.opos == 0
  {
    hide Step;
    outs := [];
    for i := 0 to |ops|
      invariant b.Valid()
      invariant Run(View(b), ops[i..]).0 == Run(old(View(b)), ops).0
      invariant outs + Run(View(b), ops[i..]).1 == Run(old(View(b)), ops).1
      invariant old(b.opos) == 0 && Appending(ops) ==> b.opos == 0
    {
      assert ops[i..][1..] == ops[i + 1..];
      var o := Perform(b, ops[i]);
      outs := outs + [o];
    }
    assert ops[|ops|..] == [] && outs + [] == outs;
  }

  // --------------------------------------------------------------- conservation

  /** What one operation adds to the bytes accepted, delivered and flushed. */
  function AcceptedBy(op: Op, o: Out): Octets {
    if op.Write? && o == Flag(true) then op.p else []
  }

  function DeliveredBy(op: Op, o: Out): Octets {
    if op.Read? && o.Got? then o.data else []
  }

  function FlushedBy(s: Stream, op: Op): Octets
    requires s.Valid()
  {
    if op.Flush? then s.live[..s.pos]
    else if op.FlushN? && op.n <= |s.live| then s.live[..op.n]
    else if op.Clear? then s.live
    else []
  }

  /** The bytes flushed before they were read. */
  function SkippedBy(s: Stream, op: Op): Octets
    requires s.Valid()
  {
    var n := |FlushedBy(s, op)|;
    if n > s.pos then s.live[s.pos..n] else []
  }

  ghost function Accepted(ops: seq<Op>, outs: seq<Out>): Octets
    requires |outs| == |ops|
  {
    if ops == [] then [] else AcceptedBy(ops[0], outs[0]) + Accepted(ops[1..], outs[1..])
  }

  ghost function Delivered(ops: seq<Op>, outs: seq<Out>): Octets
    requires |outs| == |ops|
  {
    if ops == [] then [] else DeliveredBy(ops[0], outs[0]) + Delivered(ops[1..], outs[1..])
  }

  ghost function Flushed(s: Stream, ops: seq<Op>): Octets
    requires s.Valid()
    decreases |ops|
  {
    if ops == [] then [] else FlushedBy(s, ops[0]) + Flushed(Step(s, ops[0]).0, ops[1..])
  }

  /** The bytes that left the unread part, by a read or by a flush, in order. */
  ghost function Passed(s: Stream, ops: seq<Op>): Octets
    requires s.Valid()
    decreases |ops|
  {
    if ops == [] then []
    else
      var (t, o) := Step(s, ops[0]);
      DeliveredBy(ops[0], o) + SkippedBy(s, ops[0]) + Passed(t, ops[1..])
  }

  ghost predicate NothingSkipped(s: Stream, ops: seq<Op>)
    requires s.Valid()
    decreases |ops|
  {
    ops == [] || (SkippedBy(s, ops[0]) == [] && NothingSkipped(Step(s, ops[0]).0, ops[1..]))
  }

  predicate NoUpdate(ops: seq<Op>) {
    forall op :: op in ops ==> !op.Update?
  }

  /**
   Conservation. The bytes present at the start followed by those accepted are the
   bytes flushed followed by the accessible ones; and of them, the bytes read before
   the start followed by those that were delivered or flushed unread are the bytes
   flushed followed by the part of the accessible ones that was read. Nothing is lost,
   repeated, altered or reordered.
   */
  lemma {:induction false} Conservation(s: Stream, ops: seq<Op>)
    requires s.Valid() && NoUpdate(ops)
    ensures
      var (t, outs) := Run(s, ops);
      && s.live + Accepted(ops, outs) == Flushed(s, ops) + t.live
      && s.live[..s.pos] + Passed(s, ops) == Flushed(s, ops) + t.live[..t.pos]
    decreases |ops|
  {
    hide Step, FlushedBy, SkippedBy, AcceptedBy, DeliveredBy;
    if ops != [] {
      assert ops[0] in ops && forall op :: op in ops[1..] ==> op in ops;
      var (t, o) := Step(s, ops[0]);
      Conservation(t, ops[1..]);
      var (u, outs) := Run(t, ops[1..]);
      assert ([o] + outs)[1..] == outs;
      ConservationStep(s, ops[0]);
      var more := Flushed(t, ops[1..]);
      Glue(s.live, AcceptedBy(ops[0], o), Accepted(ops[1..], outs), FlushedBy(s, ops[0]), t.live, more, u.live);
      Glue(s.live[..s.pos], DeliveredBy(ops[0], o) + SkippedBy(s, ops[0]), Passed(t, ops[1..]),
           FlushedBy(s, ops[0]), t.live[..t.pos], more, u.live[..u.pos]);
    }
  }

  /** Where nothing is flushed unread, what passed is exactly what reads delivered; and only
      there. */
  lemma {:induction false} PassedIsDelivered(s: Stream, ops: seq<Op>)
    requires s.Valid()
    ensures |Delivered(ops, Run(s, ops).1)| <= |Passed(s, ops)|
    ensures Passed(s, ops) == Delivered(ops, Run(s, ops).1) <==> NothingSkipped(s, ops)
    ensures !NothingSkipped(s, ops) ==> |Delivered(ops, Run(s, ops).1)| < |Passed(s, ops)|
    decreases |ops|
  {
    hide Step, SkippedBy, DeliveredBy;
    if ops != [] {
      var (t, o) := Step(s, ops[0]);
      PassedIsDelivered(t, ops[1..]);
      var (u, outs) := Run(t, ops[1..]);
      assert ([o] + outs)[1..] == outs;
      var d := DeliveredBy(ops[0], o);
      if SkippedBy(s, ops[0]) == [] {
        assert d + [] == d;
        assert Passed(s, ops) == d + Passed(t, ops[1..]);
        assert (d + Passed(t, ops[1..]))[|d|..] == Passed(t, ops[1..]);
        assert (d + Delivered(ops[1..], outs))[|d|..] == Delivered(ops[1..], outs);
      }
    }
  }

  lemma ConservationStep(s: Stream, op: Op)
    requires s.Valid() && !op.Update?
    ensures
      var (t, o) := Step(s, op);
      && s.live + AcceptedBy(op, o) == FlushedBy(s, op) + t.live
      && s.live[..s.pos] + (DeliveredBy(op, o) + SkippedBy(s, op)) == FlushedBy(s, op) + t.live[..t.pos]
  {
    if op.Flush? || op.FlushN? || op.Clear? {
      FlushStep(s, op);
    } else if op.Read? && op.n <= |s.live| - s.pos {
      Cut(s.live, s.pos, s.pos + op.n);
    }
  }

  lemma FlushStep(s: Stream, op: Op)
    requires s.Valid() && (op.Flush? || op.FlushN? || op.Clear?)
    ensures
      var (t, o) := Step(s, op);
      && s.live == FlushedBy(s, op) + t.live
      && s.live[..s.pos] + SkippedBy(s, op) == FlushedBy(s, op) + t.live[..t.pos]
  {
    var n := |FlushedBy(s, op)|;
    assert s.live == s.live[..n] + s.live[n..];
    if n > s.pos {
      assert s.live[..n] == s.live[..s.pos] + s.live[s.pos..n];
    } else {
      assert s.live[..s.pos] == s.live[..n] + s.live[n..][..s.pos - n];
    }
  }

  lemma Cut(a: Octets, i: nat, j: nat)
    requires i <= j <= |a|
    ensures a == a[..i] + a[i..]
    ensures a[..j] == a[..i] + a[i..j] == a[..i] + a[i..][..j - i]
  {
  }

  lemma Glue(a: Octets, w: Octets, ws: Octets, f: Octets, t: Octets, fs: Octets, u: Octets)
    requires a + w == f + t && t + ws == fs + u
    ensures a + (w + ws) == f + fs + u
  {
    SumAssociates(a, w, ws);
    SumAssociates(f, t, ws);
    SumAssociates(f, fs, u);
  }

  // ----------------------------------------------------------- offset stability

  predicate Appending(ops: seq<Op>) {
    forall op :: op in ops ==> op.Write? || op.Reserve? || op.Read? || op.Peek?
  }

  /** Without a flush the accessible bytes only grow at their end. */
  lemma {:induction false} AppendingKeepsPrefix(s: Stream, ops: seq<Op>)
    requires s.Valid() && Appending(ops)
    ensures s.live <= Run(s, ops).0.live
    decreases |ops|
  {
    if ops != [] {
      assert ops[0] in ops;
      AppendingKeepsPrefix(Step(s, ops[0]).0, ops[1..]);
    }
  }

  /** In a buffer whose origin is 0, the offset returned by a write still shows
      the written bytes after any later growth and reading. */
  method WriteThenPeek(b: StreamBuffer, p: Octets, ops: seq<Op>) returns (written: bool, ok: bool, q: Octets)
    requires b.Valid() && b.opos == 0 && p != [] && Appending(ops)
    modifies b`bytes, b`opos, b`rpos, b`wpos
    ensures b.Valid() && b.opos == 0
    ensures written <==> Admits(b.limit, old(|b.Live()|), |p|)
    ensures written ==> ok && q == p
  {
    var offset;
    written, offset := b.Write(p);
    AppendingKeepsPrefix(View(b), ops);
    ghost var was := b.Live();
    var _ := PerformAll(b, ops);
    ok, q := b.Peek(offset, |p|);
    if written {
      assert was == b.Live()[..|was|];
      SliceOfSlice(b.Live(), 0, |was|, offset, offset + |p|);
    }
  }

  /** The offset returned is an index into the container while peeking counts
      from the origin: right after the write, peeking there works exactly when
      the origin is 0. */
  method WriteThenPeekAnywhere(b: StreamBuffer, p: Octets) returns (written: bool, ok: bool, q: Octets)
    requires b.Valid() && p != []
    modifies b`bytes, b`opos, b`rpos, b`wpos
    ensures b.Valid()
    ensures written ==> (ok <==> b.opos == 0) && (ok ==> q == p)
  {
    var offset;
    written, offset := b.Write(p);
    ok, q := b.Peek(offset, |p|);
  }
}
