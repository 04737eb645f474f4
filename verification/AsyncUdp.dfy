/**
 The sending side of netb/AsyncUdpSocket.cpp: a queue of datagrams that the write event
 drains. The kernel is a parameter: the results of its sends.
 */
module AsyncUdp {
  import opened Bytes
  import opened StreamBuffers
  import opened Selector
  import opened EventLoopSteps
  import opened EventLoopObject

  /** Addresses are opaque; a datagram for the connected peer has none. */
  datatype Datagram = Datagram(payload: Octets, addr: Option<int>)

  /** Datagrams handed to the kernel, waiting, and those callers were told were taken;
      write interest. */
  datatype Sender = Sender(wire: seq<Datagram>, queue: seq<Datagram>, accepted: seq<Datagram>, wants: bool)

  predicate KernelResult(r: int, d: Datagram) {
    -1 <= r <= |d.payload|
  }

  /** What leaves the host when the kernel answers `r`. */
  function Handed(d: Datagram, r: int): seq<Datagram>
    requires KernelResult(r, d)
  {
    if r < 0 || (r == 0 && d.payload != []) then [] else [d.(payload := d.payload[..r])]
  }

  /** The kernel takes the datagram or leaves it. */
  predicate AllOrNothing(r: int, d: Datagram) {
    r <= 0 || r == |d.payload|
  }

  predicate Direct(s: Sender, inLoop: bool) {
    inLoop && s.queue == []
  }

  function SendResult(s: Sender, d: Datagram, inLoop: bool, r: int): int {
    if !inLoop then |d.payload| else if s.queue == [] then r else 0
  }

  /** A datagram is queued unless the kernel took as many bytes as it has. As an unsigned
      number, -1 is more than that. */
  predicate Queues(s: Sender, d: Datagram, inLoop: bool, r: int) {
    if inLoop then 0 <= SendResult(s, d, inLoop, r) < |d.payload| else true
  }

  function SendNext(s: Sender, d: Datagram, inLoop: bool, r: int): Sender
    requires KernelResult(r, d)
  {
    var handed := if Direct(s, inLoop) then Handed(d, r) else [];
    var queues := Queues(s, d, inLoop, r);
    Sender(s.wire + handed,
           if queues then s.queue + [d] else s.queue,
           if SendResult(s, d, inLoop, r) >= 0 then s.accepted + [d] else s.accepted,
           s.wants || queues)
  }

  predicate KernelResults(rs: seq<int>, queue: seq<Datagram>) {
    |rs| == |queue| && forall i :: 0 <= i < |rs| ==> KernelResult(rs[i], queue[i])
  }

  /** The write event: send from the front until the kernel stops taking. */
  function Drained(s: Sender, rs: seq<int>): Sender
    requires KernelResults(rs, s.queue)
    decreases |rs|
  {
    if rs == [] then s.(wants := false)
    else if rs[0] <= 0 then s.(wire := s.wire + Handed(s.queue[0], rs[0]))
    else Drained(s.(wire := s.wire + Handed(s.queue[0], rs[0]), queue := s.queue[1..]), rs[1..])
  }

  /** In order, none lost or repeated, and waiting datagrams keep the write interest. */
  predicate Conserves(s: Sender) {
    s.accepted == s.wire + s.queue && (s.queue != [] ==> s.wants)
  }

  /** Sending keeps the order exactly when the kernel does not split the datagram and an
      empty one does not meet a waiting queue on the loop thread, where it is dropped. */
  lemma SendConserves(s: Sender, d: Datagram, inLoop: bool, r: int)
    requires Conserves(s) && KernelResult(r, d)
    ensures Conserves(SendNext(s, d, inLoop, r)) <==>
            !(Direct(s, inLoop) && 0 < r < |d.payload|) && !(inLoop && s.queue != [] && d.payload == [])
  {
    var t := SendNext(s, d, inLoop, r);
    if Direct(s, inLoop) && 0 < r < |d.payload| {
      assert |t.wire + t.queue| == |t.accepted| + 1;
    } else if inLoop && s.queue != [] && d.payload == [] {
      assert |t.wire + t.queue| + 1 == |t.accepted|;
    } else if Direct(s, inLoop) {
      assert s.wire + s.queue == s.wire;
      assert d.payload[..|d.payload|] == d.payload;
    } else {
      assert s.wire + [] == s.wire;
      assert s.wire + (s.queue + [d]) == (s.wire + s.queue) + [d];
    }
  }

  /** What a send tells its caller, and where the datagram goes. On another thread it is
      queued and its length returned. On the loop thread it is queued behind others and 0 is
      returned, or it goes to the kernel: one taken whole is not queued, one refused is
      dropped, and otherwise it is queued. */
  lemma SendOutcome(s: Sender, d: Datagram, inLoop: bool, r: int)
    requires Conserves(s) && KernelResult(r, d)
    ensures
      var t, sent := SendNext(s, d, inLoop, r), SendResult(s, d, inLoop, r);
      && (!inLoop ==> sent == |d.payload| && t == Sender(s.wire, s.queue + [d], s.accepted + [d], true))
      && (inLoop && s.queue != [] && d.payload != [] ==>
            sent == 0 && t == Sender(s.wire, s.queue + [d], s.accepted + [d], true))
      && (inLoop && s.queue == [] && r == |d.payload| ==>
            sent == r && t == Sender(s.wire + [d], [], s.accepted + [d], s.wants))
      && (inLoop && s.queue == [] && r < 0 ==> sent == -1 && t == s)
      && (inLoop && s.queue == [] && 0 <= r < |d.payload| ==>
            sent == r && t.queue == [d] && t.accepted == s.accepted + [d] && t.wants)
  {
    assert s.wire + [] == s.wire && d.payload[..|d.payload|] == d.payload;
  }

  /** A write event hands over the datagrams the kernel takes, up to the first it does not
      take, and leaves the others. */
  lemma {:induction false} DrainTakes(s: Sender, rs: seq<int>, k: nat)
    requires Conserves(s) && KernelResults(rs, s.queue) && k <= |rs|
    requires forall i :: 0 <= i < k ==> rs[i] == |s.queue[i].payload| > 0
    requires k < |rs| ==> rs[k] < 0
    ensures Drained(s, rs) == Sender(s.wire + s.queue[..k], s.queue[k..], s.accepted, k < |s.queue|)
    decreases |rs|
  {
    if k == 0 {
      assert s.wire + [] == s.wire && s.queue[0..] == s.queue && s.queue[..0] == [];
    } else {
      var d := s.queue[0];
      assert d.payload[..|d.payload|] == d.payload;
      var t := s.(wire := s.wire + [d], queue := s.queue[1..]);
      assert t.wire + t.queue == s.wire + s.queue;
      DrainTakes(t, rs[1..], k - 1);
      assert s.wire + [d] + s.queue[1..][..k - 1] == s.wire + s.queue[..k];
      assert s.queue[1..][k - 1..] == s.queue[k..];
    }
  }

  /** Every datagram popped was taken whole, and the one that ends the loop was not an empty
      one that the kernel took. */
  predicate WholeDrain(queue: seq<Datagram>, rs: seq<int>)
    requires KernelResults(rs, queue)
    decreases |rs|
  {
    rs == [] ||
    if rs[0] <= 0 then !(queue[0].payload == [] && rs[0] == 0)
    else rs[0] == |queue[0].payload| && WholeDrain(queue[1..], rs[1..])
  }

  lemma {:induction false} DrainExtendsWire(s: Sender, rs: seq<int>)
    requires KernelResults(rs, s.queue)
    ensures s.wire <= Drained(s, rs).wire
    decreases |rs|
  {
    if rs != [] && rs[0] > 0 {
      DrainExtendsWire(s.(wire := s.wire + Handed(s.queue[0], rs[0]), queue := s.queue[1..]), rs[1..]);
    }
  }

  lemma {:induction false} DrainMoves(s: Sender, rs: seq<int>)
    requires KernelResults(rs, s.queue)
    ensures Drained(s, rs).wire + Drained(s, rs).queue == s.wire + s.queue <==> WholeDrain(s.queue, rs)
    decreases |rs|
  {
    if rs != [] {
      var d, r := s.queue[0], rs[0];
      var t := s.(wire := s.wire + Handed(d, r), queue := s.queue[1..]);
      if r > 0 {
        assert d.payload[..|d.payload|] == d.payload;
        DrainMoves(t, rs[1..]);
        DrainExtendsWire(t, rs[1..]);
        if r == |d.payload| {
          assert t.wire + t.queue == s.wire + s.queue;
        } else {
          assert t.wire[|s.wire|] == Drained(s, rs).wire[|s.wire|] != d;
          assert (s.wire + s.queue)[|s.wire|] == d;
        }
      } else if d.payload == [] && r == 0 {
        EmptyDatagramRepeats(s, rs);
      }
    }
  }

  /** Draining keeps the order exactly when every datagram it pops was taken whole and it
      does not end at an empty datagram that the kernel took: the rest of a split datagram is
      lost, and the empty one is repeated. The write interest stays exactly while datagrams
      wait. */
  lemma DrainConserves(s: Sender, rs: seq<int>)
    requires Conserves(s) && KernelResults(rs, s.queue)
    ensures Conserves(Drained(s, rs)) <==> WholeDrain(s.queue, rs)
    ensures Drained(s, rs).accepted == s.accepted && (Drained(s, rs).wants <==> Drained(s, rs).queue != [])
  {
    DrainMoves(s, rs);
    DrainWants(s, rs);
  }

  lemma {:induction false} DrainWants(s: Sender, rs: seq<int>)
    requires KernelResults(rs, s.queue) && (s.queue != [] ==> s.wants)
    ensures Drained(s, rs).accepted == s.accepted && (Drained(s, rs).wants <==> Drained(s, rs).queue != [])
    decreases |rs|
  {
    if rs != [] && rs[0] > 0 {
      DrainWants(s.(wire := s.wire + Handed(s.queue[0], rs[0]), queue := s.queue[1..]), rs[1..]);
    }
  }

  /** A kernel that takes all or nothing drains non-empty datagrams whole. */
  lemma {:induction false} AllOrNothingIsWhole(queue: seq<Datagram>, rs: seq<int>)
    requires KernelResults(rs, queue)
    requires forall i :: 0 <= i < |rs| ==> queue[i].payload != [] && AllOrNothing(rs[i], queue[i])
    ensures WholeDrain(queue, rs)
    decreases |rs|
  {
    if rs != [] && rs[0] > 0 {
      AllOrNothingIsWhole(queue[1..], rs[1..]);
    }
  }

  /** An empty datagram at the front is handed over and stays: the kernel answers 0, which
      reads as not ready. It goes out again at every write event. */
  lemma EmptyDatagramRepeats(s: Sender, rs: seq<int>)
    requires s.queue != [] && KernelResults(rs, s.queue) && s.queue[0].payload == [] && rs[0] == 0
    ensures Drained(s, rs) == s.(wire := s.wire + [s.queue[0]])
    ensures Conserves(s) ==> !Conserves(Drained(s, rs))
  {
    assert s.queue[0].payload[..0] == s.queue[0].payload;
    assert |Drained(s, rs).wire + s.queue| == |s.wire + s.queue| + 1;
  }

  // -------------------------------------------------------------------------- runs

  datatype Op = Send(d: Datagram, inLoop: bool, r: int) | Write(rs: seq<int>)

  /** Non-empty datagrams, and a kernel that takes all or nothing. */
  predicate CanDo(s: Sender, op: Op) {
    match op
    case Send(d, _, r) => d.payload != [] && KernelResult(r, d) && AllOrNothing(r, d)
    case Write(rs) => KernelResults(rs, s.queue) && forall i :: 0 <= i < |rs| ==> AllOrNothing(rs[i], s.queue[i])
  }

  function Do(s: Sender, op: Op): Sender
    requires CanDo(s, op)
  {
    match op
    case Send(d, inLoop, r) => SendNext(s, d, inLoop, r)
    case Write(rs) => Drained(s, rs)
  }

  predicate CanDoAll(s: Sender, ops: seq<Op>)
    decreases |ops|
  {
    ops == [] || (CanDo(s, ops[0]) && CanDoAll(Do(s, ops[0]), ops[1..]))
  }

  function DoAll(s: Sender, ops: seq<Op>): Sender
    requires CanDoAll(s, ops)
    decreases |ops|
  {
    if ops == [] then s else DoAll(Do(s, ops[0]), ops[1..])
  }

  predicate NoneEmpty(queue: seq<Datagram>) {
    forall i :: 0 <= i < |queue| ==> queue[i].payload != []
  }

  lemma {:induction false} DrainedIsSuffix(s: Sender, rs: seq<int>)
    requires KernelResults(rs, s.queue) && NoneEmpty(s.queue)
    ensures NoneEmpty(Drained(s, rs).queue)
    decreases |rs|
  {
    if rs != [] && rs[0] > 0 {
      DrainedIsSuffix(s.(wire := s.wire + Handed(s.queue[0], rs[0]), queue := s.queue[1..]), rs[1..]);
    }
  }

  /** Over any run, the datagrams accepted are those handed to the kernel followed by those
      waiting, whole, in order and each once. */
  lemma {:induction false} DatagramOrder(s: Sender, ops: seq<Op>)
    requires Conserves(s) && NoneEmpty(s.queue) && CanDoAll(s, ops)
    ensures Conserves(DoAll(s, ops)) && NoneEmpty(DoAll(s, ops).queue)
    decreases |ops|
  {
    if ops != [] {
      match ops[0] {
        case Send(d, inLoop, r) => SendConserves(s, d, inLoop, r);
        case Write(rs) =>
          AllOrNothingIsWhole(s.queue, rs);
          DrainConserves(s, rs);
          DrainedIsSuffix(s, rs);
      }
      DatagramOrder(Do(s, ops[0]), ops[1..]);
    }
  }

  // --------------------------------------------------------------------- the object

  class AsyncUdpSocket {
    const handler: EventHandler
    var outBuffers: seq<Datagram>
    ghost var wire: seq<Datagram>
    ghost var accepted: seq<Datagram>

    ghost function View(): Sender
      reads this, handler
    {
      Sender(wire, outBuffers, accepted, HasWrite(handler.events))
    }

    constructor (handler: EventHandler)
      ensures this.handler == handler && View() == Sender([], [], [], HasWrite(handler.events))
    {
      this.handler := handler;
      outBuffers, wire, accepted := [], [], [];
    }

    /** A datagram to be queued fits a buffer of the initial size. */
    method SendTo(d: Datagram, inLoop: bool, r: int) returns (sent: int)
      requires handler.loop.Valid() && KernelResult(r, d) && (inLoop ==> !handler.detached)
      requires Queues(View(), d, inLoop, r) ==> |d.payload| <= DEFAULT_BUFFER_SIZE
      modifies this, handler`events, handler.loop`queue, handler.loop`pipe, handler.loop.selector
      ensures handler.loop.Valid()
      ensures sent == old(SendResult(View(), d, inLoop, r))
      ensures View() == old(SendNext(View(), d, inLoop, r))
    {
      if !inLoop {
        outBuffers := outBuffers + [d];
        accepted := accepted + [d];
        handler.SetWriting(true, false);
        return |d.payload|;
      }
      sent := 0;
      if outBuffers == [] {
        sent := r;
        wire := wire + Handed(d, r);
      }
      if 0 <= sent < |d.payload| {
        outBuffers := outBuffers + [d];
        handler.SetWriting(true, true);
      }
      accepted := if sent >= 0 then accepted + [d] else accepted;
    }

    /** The socket is writable; `rs[i]` is the kernel's answer for the datagram at `i`. */
    method OnWrite(rs: seq<int>)
      requires handler.loop.Valid() && KernelResults(rs, outBuffers) && !handler.detached
      modifies this, handler`events, handler.loop`queue, handler.loop`pipe, handler.loop.selector
      ensures handler.loop.Valid()
      ensures View() == old(Drained(View(), rs))
    {
      var i := 0;
      ghost var n := |outBuffers|;
      while outBuffers != []
        invariant handler.loop.Valid() && 0 <= i <= |rs| == n && |outBuffers| == n - i
        invariant KernelResults(rs[i..], outBuffers)
        invariant Drained(View(), rs[i..]) == old(Drained(View(), rs))
        invariant HasWrite(handler.events) == old(HasWrite(handler.events)) && accepted == old(accepted)
        decreases |outBuffers|
      {
        var r := rs[i];
        assert rs[i..][0] == r && rs[i..][1..] == rs[i + 1..];
        wire := wire + Handed(outBuffers[0], r);
        if r <= 0 {
          break;
        }
        outBuffers := outBuffers[1..];
        i := i + 1;
      }
      if outBuffers == [] {
        handler.SetWriting(false, true);
      }
    }
  }
}
