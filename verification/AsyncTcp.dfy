/**
 The sending side of netb/AsyncTcpSocket.cpp: bytes go to the kernel at once while the
 sending buffer has never held any, and through the buffer afterwards. The kernel is a
 parameter: the result of one `send`.
 */
module AsyncTcp {
  import opened Bytes
  import opened StreamBuffers
  import opened Selector
  import opened EventLoopSteps
  import opened EventLoopObject

  /** Bytes handed to the kernel; the accessible bytes of the sending buffer, of which `pos`
      were handed over; the bytes callers were told are accepted; write interest. */
  datatype Sender = Sender(wire: Octets, live: Octets, pos: nat, accepted: Octets, wants: bool, limit: nat)

  /** A `send` of `n` bytes fails or takes some of them. */
  predicate KernelResult(r: int, n: nat) {
    -1 <= r <= n
  }

  function Taken(p: Octets, r: int): Octets
    requires KernelResult(r, |p|)
  {
    if r <= 0 then [] else p[..r]
  }

  /** Only a loop thread with an empty buffer bypasses it. */
  predicate Direct(s: Sender, inLoop: bool) {
    inLoop && s.live == []
  }

  /** What `Send` returns. A failed direct send is not buffered: compared as an unsigned
      number, -1 is not less than the length. */
  function SendResult(s: Sender, p: Octets, inLoop: bool, r: int): int
    requires KernelResult(r, |p|)
  {
    if Direct(s, inLoop) then
      if r >= 0 && Admits(s.limit, 0, |p| - r) then |p| else r
    else
      if Admits(s.limit, |s.live|, |p|) then |p| else 0
  }

  function SendNext(s: Sender, p: Octets, inLoop: bool, r: int): Sender
    requires KernelResult(r, |p|)
  {
    if Direct(s, inLoop) then
      if r < 0 then s
      else if r == |p| then s.(wire := s.wire + p, accepted := s.accepted + p)
      else if Admits(s.limit, 0, |p| - r) then
        s.(wire := s.wire + p[..r], live := p[r..], accepted := s.accepted + p, wants := true)
      else s.(wire := s.wire + p[..r], accepted := s.accepted + p[..r])
    else if Admits(s.limit, |s.live|, |p|) then
      s.(live := s.live + p, accepted := s.accepted + p, wants := true)
    else s.(wants := s.wants || inLoop)
  }

  function WriteNext(s: Sender, r: int): Sender
    requires s.pos <= |s.live| && KernelResult(r, |s.live| - s.pos)
  {
    var taken := Taken(s.live[s.pos..], r);
    s.(wire := s.wire + taken, pos := s.pos + |taken|,
       wants := s.wants && s.pos + |taken| < |s.live|)
  }

  /** Nothing lost, repeated or reordered, and pending bytes keep the write interest. */
  predicate Conserves(s: Sender) {
    && s.pos <= |s.live|
    && s.accepted == s.wire + s.live[s.pos..]
    && (s.pos < |s.live| ==> s.wants)
    && (s.limit > 0 ==> |s.live| <= s.limit)
  }

  /** A send keeps the bytes in order, and accepts the prefix whose length it returns. */
  lemma SendConserves(s: Sender, p: Octets, inLoop: bool, r: int)
    requires Conserves(s) && KernelResult(r, |p|)
    ensures Conserves(SendNext(s, p, inLoop, r))
    ensures KernelResult(SendResult(s, p, inLoop, r), |p|)
    ensures SendNext(s, p, inLoop, r).accepted == s.accepted + Taken(p, SendResult(s, p, inLoop, r))
  {
    if Direct(s, inLoop) {
      DirectConserves(s, p, inLoop, r);
    } else {
      assert (s.live + p)[s.pos..] == s.live[s.pos..] + p;
      assert s.accepted + p == s.wire + (s.live[s.pos..] + p);
      assert s.accepted + [] == s.accepted && p[..|p|] == p;
    }
  }

  /** A send gives up exactly when it goes to the kernel directly and the kernel refuses,
      even where the buffer had room for all of it; then nothing happened. */
  lemma SendGivesUp(s: Sender, p: Octets, inLoop: bool, r: int)
    requires KernelResult(r, |p|)
    ensures SendResult(s, p, inLoop, r) < 0 <==> inLoop && s.live == [] && r < 0
    ensures SendResult(s, p, inLoop, r) < 0 ==> SendNext(s, p, inLoop, r) == s
    ensures SendResult(s, p, inLoop, r) == |p| || SendResult(s, p, inLoop, r) <= (if Direct(s, inLoop) then r else 0)
  {
  }

  /** What of `p` a send hands to the kernel itself. */
  function HandedOver(s: Sender, p: Octets, inLoop: bool, r: int): Octets
    requires KernelResult(r, |p|)
  {
    if Direct(s, inLoop) then Taken(p, r) else []
  }

  /** A send accepts everything exactly when the kernel takes it, or the buffer has room for
      what the kernel left, or for all of it where the kernel is not asked; otherwise it accepts
      what the kernel took. The kernel gets what it took, the buffer the rest of what was
      accepted, and the handler the write interest when something is buffered. */
  lemma SendAccepts(s: Sender, p: Octets, inLoop: bool, r: int)
    requires Conserves(s) && KernelResult(r, |p|)
    ensures
      var t, sent, handed := SendNext(s, p, inLoop, r), SendResult(s, p, inLoop, r), HandedOver(s, p, inLoop, r);
      && (sent == |p| <==>
            if inLoop && s.live == [] then r == |p| || (r >= 0 && (s.limit == 0 || |p| - r <= s.limit))
            else p == [] || s.limit == 0 || |s.live| + |p| <= s.limit)
      && (sent != |p| ==> sent == if inLoop && s.live == [] then r else 0)
      && t.wire == s.wire + handed
      && |handed| <= |Taken(p, sent)| && t.live == s.live + Taken(p, sent)[|handed|..]
      && (sent == |p| && |handed| < |p| ==> t.wants)
      && t.pos == s.pos && t.limit == s.limit
  {
    assert s.wire + [] == s.wire && s.live + [] == s.live && p[..|p|] == p && p[0..] == p;
    if Direct(s, inLoop) && r >= 0 {
      assert p[..r][r..] == [] && [] + p[r..] == p[r..];
    }
  }

  /** A write event hands over what the kernel takes of the unread bytes, and drops the write
      interest exactly when none is left. */
  lemma WriteHandsOver(s: Sender, r: int)
    requires Conserves(s) && KernelResult(r, |s.live| - s.pos)
    ensures
      var t := WriteNext(s, r);
      && (r > 0 ==> t.wire == s.wire + s.live[s.pos..s.pos + r] && t.pos == s.pos + r)
      && (r <= 0 ==> t.wire == s.wire && t.pos == s.pos)
      && t.live == s.live && t.limit == s.limit
      && (t.pos < |t.live| ==> t.wants) && (t.pos == |t.live| ==> !t.wants)
  {
    assert s.wire + [] == s.wire;
    if r > 0 {
      assert s.live[s.pos..][..r] == s.live[s.pos..s.pos + r];
    }
  }

  lemma DirectConserves(s: Sender, p: Octets, inLoop: bool, r: int)
    requires Conserves(s) && KernelResult(r, |p|) && Direct(s, inLoop)
    ensures Conserves(SendNext(s, p, inLoop, r))
    ensures SendNext(s, p, inLoop, r).accepted == s.accepted + Taken(p, SendResult(s, p, inLoop, r))
  {
    assert s.accepted == s.wire && s.accepted + [] == s.accepted && p[..|p|] == p;
    if r >= 0 {
      assert s.wire + p == (s.wire + p[..r]) + p[r..];
    }
  }

  lemma WriteConserves(s: Sender, r: int)
    requires Conserves(s) && KernelResult(r, |s.live| - s.pos)
    ensures Conserves(WriteNext(s, r))
    ensures WriteNext(s, r).accepted == s.accepted
  {
    var t := WriteNext(s, r);
    var rest := s.live[s.pos..];
    var taken := Taken(rest, r);
    assert rest == taken + rest[|taken|..];
    assert t.live[t.pos..] == rest[|taken|..];
  }

  // -------------------------------------------------------------------------- runs

  datatype Op = Send(p: Octets, inLoop: bool, r: int) | Write(r: int)

  predicate CanDo(s: Sender, op: Op) {
    match op
    case Send(p, _, r) => KernelResult(r, |p|)
    case Write(r) => s.pos <= |s.live| && KernelResult(r, |s.live| - s.pos)
  }

  function Do(s: Sender, op: Op): Sender
    requires CanDo(s, op)
  {
    match op
    case Send(p, inLoop, r) => SendNext(s, p, inLoop, r)
    case Write(r) => WriteNext(s, r)
  }

  predicate CanDoAll(s: Sender, ops: seq<Op>)
    decreases |ops|
  {
    ops == [] || (CanDo(s, ops[0]) && CanDoAll(Do(s, ops[0]), ops[1..]))
  }

  function DoAll(s: Sender, ops: seq<Op>): Sender
    requires CanDoAll(s, ops)
    decreases |ops|
  {
    if ops == [] then s else DoAll(Do(s, ops[0]), ops[1..])
  }

  /** Over any run of sends and write events, what was accepted is what was handed to the
      kernel followed by what the buffer still holds unread. */
  lemma {:induction false} Conservation(s: Sender, ops: seq<Op>)
    requires Conserves(s) && CanDoAll(s, ops)
    ensures Conserves(DoAll(s, ops))
    decreases |ops|
  {
    if ops != [] {
      match ops[0] {
        case Send(p, inLoop, r) => SendConserves(s, p, inLoop, r);
        case Write(r) => WriteConserves(s, r);
      }
      Conservation(Do(s, ops[0]), ops[1..]);
    }
  }

  /** Sent bytes are never flushed. So from the first byte buffered on, nothing bypasses the
      buffer, and a connection with a limit accepts at most that many bytes more, however
      many the kernel takes. */
  lemma {:induction false} BufferNeverDrains(s: Sender, ops: seq<Op>)
    requires Conserves(s) && CanDoAll(s, ops) && s.live != []
    ensures
      var t := DoAll(s, ops);
      && |t.live| - |s.live| == |t.accepted| - |s.accepted| >= 0
      && (s.limit > 0 ==> |t.accepted| <= |s.accepted| + s.limit - |s.live|)
    decreases |ops|
  {
    if ops != [] {
      match ops[0] {
        case Send(p, inLoop, r) => SendConserves(s, p, inLoop, r);
        case Write(r) => WriteConserves(s, r);
      }
      BufferNeverDrains(Do(s, ops[0]), ops[1..]);
    }
  }

  // --------------------------------------------------------------------- the object

  class AsyncTcpSocket {
    const outBuffer: StreamBuffer
    const handler: EventHandler
    ghost var wire: Octets
    ghost var accepted: Octets

    ghost predicate Valid()
      reads this, outBuffer, handler, handler.loop, handler.loop.selector
    {
      outBuffer.Valid() && handler.loop.Valid() && Conserves(View())
    }

    ghost function View(): Sender
      requires outBuffer.Valid()
      reads this, outBuffer, handler
    {
      Sender(wire, outBuffer.Live(), outBuffer.Pos(), accepted, HasWrite(handler.events), outBuffer.limit)
    }

    /** A connected socket whose handler exists. */
    constructor (handler: EventHandler)
      requires handler.loop.Valid()
      ensures Valid() && this.handler == handler && fresh(outBuffer)
      ensures View() == Sender([], [], 0, [], HasWrite(handler.events), MAX_BUFFER_SIZE)
    {
      this.handler := handler;
      outBuffer := new StreamBuffer();
      wire, accepted := [], [];
    }

    /** Hand bytes to the kernel or keep them; `r` is what the kernel would return. */
    method Send(p: Octets, inLoop: bool, r: int) returns (sent: int)
      requires Valid() && KernelResult(r, |p|) && (inLoop ==> !handler.detached)
      modifies this, outBuffer, handler`events, handler.loop`queue, handler.loop`pipe, handler.loop.selector
      ensures Valid()
      ensures sent == old(SendResult(View(), p, inLoop, r))
      ensures View() == old(SendNext(View(), p, inLoop, r))
    {
      hide Conserves;
      ghost var target := SendNext(View(), p, inLoop, r);
      SendConserves(View(), p, inLoop, r);
      if inLoop {
        sent := SendInLoop(p, r);
      } else {
        sent := SendOutside(p, r);
      }
      assert View() == target;
    }

    method SendOutside(p: Octets, ghost r: int) returns (sent: int)
      requires outBuffer.Valid() && handler.loop.Valid() && KernelResult(r, |p|)
      modifies this, outBuffer, handler`events, handler.loop`queue, handler.loop`pipe, handler.loop.selector
      ensures outBuffer.Valid() && handler.loop.Valid()
      ensures sent == old(SendResult(View(), p, false, r))
      ensures View() == old(SendNext(View(), p, false, r))
    {
      var ok, _ := outBuffer.Write(p);
      if !ok {
        return 0;
      }
      handler.SetWriting(true, false);
      accepted := accepted + p;
      sent := |p|;
    }

    method SendInLoop(p: Octets, r: int) returns (sent: int)
      requires outBuffer.Valid() && handler.loop.Valid() && KernelResult(r, |p|) && !handler.detached
      modifies this, outBuffer, handler`events, handler.loop`queue, handler.loop`pipe, handler.loop.selector
      ensures outBuffer.Valid() && handler.loop.Valid()
      ensures sent == old(SendResult(View(), p, true, r))
      ensures View() == old(SendNext(View(), p, true, r))
    {
      hide EventLoop.Valid, EventLoop.View;
      assert Taken(p, |p|) == p && forall w: Octets :: w + [] == w;
      sent := 0;
      if outBuffer.opos == outBuffer.wpos {
        sent := r;
        wire := wire + Taken(p, r);
      }
      sent := KeepRest(p, sent);
      if outBuffer.opos != outBuffer.wpos {
        handler.SetWriting(true, true);
      }
      accepted := accepted + Taken(p, sent);
    }

    /** Buffer what is left of `p` after `sent` bytes, all or nothing. */
    method KeepRest(p: Octets, sent: int) returns (total: int)
      requires outBuffer.Valid() && KernelResult(sent, |p|)
      modifies outBuffer
      ensures outBuffer.Valid() && outBuffer.limit == old(outBuffer.limit) && outBuffer.Pos() == old(outBuffer.Pos())
      ensures
        var keep := 0 <= sent < |p| && Admits(outBuffer.limit, |old(outBuffer.Live())|, |p| - sent);
        && total == (if keep then |p| else sent)
        && outBuffer.Live() == if keep then old(outBuffer.Live()) + p[sent..] else old(outBuffer.Live())
    {
      total := sent;
      if 0 <= sent < |p| {
        var ok, _ := outBuffer.Write(p[sent..]);
        if ok {
          total := |p|;
        }
      }
    }

    /** The socket is writable. */
    method OnWrite(r: int)
      requires Valid() && KernelResult(r, |outBuffer.Unread()|) && !handler.detached
      modifies this, outBuffer, handler`events, handler.loop`queue, handler.loop`pipe, handler.loop.selector
      ensures Valid()
      ensures View() == old(WriteNext(View(), r))
    {
      hide Conserves;
      outBuffer.UnreadIsTail();
      assert outBuffer.Pos() <= |outBuffer.Live()|;
      ghost var target := WriteNext(View(), r);
      WriteConserves(View(), r);
      if outBuffer.wpos - outBuffer.rpos > 0 {
        if r > 0 {
          var _, p := outBuffer.Read(r);
          wire := wire + p;
        }
      }
      if outBuffer.wpos - outBuffer.rpos == 0 {
        handler.SetWriting(false, true);
      }
      assert View() == target;
    }
  }
}
