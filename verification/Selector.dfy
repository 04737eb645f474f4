/**
 The selector of netb/SocketSelector.cpp: a max-heap of sockets and three bit
 sets that together represent a map from socket to interesting events.
 */
module Selector {

  const EVENT_READ: int := 1
  const EVENT_WRITE: int := 2
  const EVENT_EXCEPT: int := 4

  /** A combination of the three event bits. */
  type Events = x: int | 0 <= x < 8

  predicate HasRead(e: Events) { e % 2 == 1 }
  predicate HasWrite(e: Events) { e / 2 % 2 == 1 }
  predicate HasExcept(e: Events) { e / 4 % 2 == 1 }

  /** Every bit of `e` is one of `f`. */
  predicate Among(e: Events, f: Events) {
    (HasRead(e) ==> HasRead(f)) && (HasWrite(e) ==> HasWrite(f)) && (HasExcept(e) ==> HasExcept(f))
  }

  function Join(r: bool, w: bool, x: bool): Events {
    (if r then EVENT_READ else 0) + (if w then EVENT_WRITE else 0) + (if x then EVENT_EXCEPT else 0)
  }

  lemma JoinParts(e: Events)
    ensures Join(HasRead(e), HasWrite(e), HasExcept(e)) == e
  {
  }

  lemma PartsJoined(r: bool, w: bool, x: bool)
    ensures HasRead(Join(r, w, x)) == r && HasWrite(Join(r, w, x)) == w && HasExcept(Join(r, w, x)) == x
  {
  }

  /** Each constant is its own bit and no other. */
  lemma BitsApart()
    ensures HasRead(EVENT_READ) && !HasWrite(EVENT_READ) && !HasExcept(EVENT_READ)
    ensures !HasRead(EVENT_WRITE) && HasWrite(EVENT_WRITE) && !HasExcept(EVENT_WRITE)
    ensures !HasRead(EVENT_EXCEPT) && !HasWrite(EVENT_EXCEPT) && HasExcept(EVENT_EXCEPT)
  {
  }

  // ---------------------------------------------------------------------- heap

  /** Node `i` is at least as large as its children. */
  predicate HeapAt(h: seq<int>, i: nat)
    requires i < |h|
  {
    (2 * i + 1 < |h| ==> h[i] >= h[2 * i + 1]) && (2 * i + 2 < |h| ==> h[i] >= h[2 * i + 2])
  }

  predicate HeapFrom(h: seq<int>, k: nat) {
    forall i :: k <= i < |h| ==> HeapAt(h, i)
  }

  predicate IsHeap(h: seq<int>) {
    HeapFrom(h, 0)
  }

  /** The front of a heap is its maximum. */
  lemma {:induction false} FrontIsMax(h: seq<int>, i: nat)
    requires IsHeap(h) && i < |h|
    ensures h[0] >= h[i]
    decreases i
  {
    if i > 0 {
      var parent := (i - 1) / 2;
      FrontIsMax(h, parent);
      assert HeapAt(h, parent);
    }
  }

  function Swap(h: seq<int>, i: nat, j: nat): (r: seq<int>)
    requires i < |h| && j < |h|
    ensures |r| == |h|
  {
    h[i := h[j]][j := h[i]]
  }

  lemma SwapPermutes(h: seq<int>, i: nat, j: nat)
    requires i < |h| && j < |h|
    ensures multiset(Swap(h, i, j)) == multiset(h)
  {
  }

  /** Whatever stands above node `i` is at least as large as the children of `i`. */
  predicate Above(h: seq<int>, k: nat, i: nat) {
    forall p :: k <= p < i < |h| && (2 * p + 1 == i || 2 * p + 2 == i) ==>
      (2 * i + 1 < |h| ==> h[p] >= h[2 * i + 1]) && (2 * i + 2 < |h| ==> h[p] >= h[2 * i + 2])
  }

  /** The subtree from `k` is a heap but for node `i`, which may be too small. */
  predicate HeapBut(h: seq<int>, k: nat, i: nat) {
    forall j :: k <= j < |h| && j != i ==> HeapAt(h, j)
  }

  /** Swapping a small node with its larger child moves the gap to that child. */
  lemma SwapSinks(h: seq<int>, k: nat, i: nat, c: nat)
    requires k <= i < c < |h| && HeapBut(h, k, i) && Above(h, k, i)
    requires c == 2 * i + 1 || c == 2 * i + 2
    requires h[c] >= h[2 * i + 1] && (2 * i + 2 < |h| ==> h[c] >= h[2 * i + 2]) && h[i] < h[c]
    ensures HeapBut(Swap(h, i, c), k, c) && Above(Swap(h, i, c), k, c)
  {
    var r := Swap(h, i, c);
    assert HeapAt(h, c);
    forall j | k <= j < |r| && j != c
      ensures HeapAt(r, j)
    {
      if j != i {
        assert HeapAt(h, j);
      }
    }
  }

  /** Let the value at `k` sink until its subtree is a heap. */
  method SiftDown(h0: seq<int>, k: nat) returns (h: seq<int>)
    requires k < |h0| && HeapFrom(h0, k + 1)
    ensures HeapFrom(h, k) && |h| == |h0| && multiset(h) == multiset(h0)
    ensures forall j :: 0 <= j < k ==> h[j] == h0[j]
  {
    h := h0;
    var i := k;
    while 2 * i + 1 < |h|
      invariant k <= i < |h| == |h0|
      invariant HeapBut(h, k, i) && Above(h, k, i)
      invariant multiset(h) == multiset(h0)
      invariant forall j :: 0 <= j < k ==> h[j] == h0[j]
      decreases |h| - i
    {
      var c := if 2 * i + 2 < |h| && h[2 * i + 2] > h[2 * i + 1] then 2 * i + 2 else 2 * i + 1;
      if h[i] >= h[c] {
        assert HeapAt(h, i);
        return;
      }
      SwapPermutes(h, i, c);
      ghost var was := h;
      h := Swap(h, i, c);
      SwapSinks(was, k, i, c);
      i := c;
    }
    assert HeapAt(h, i);
  }

  /** `make_heap`: the same values as a heap. */
  method MakeHeap(s: seq<int>) returns (h: seq<int>)
    ensures IsHeap(h) && multiset(h) == multiset(s)
  {
    h := s;
    var k: nat := |s|;
    while k > 0
      invariant 0 <= k <= |h| == |s| && HeapFrom(h, k) && multiset(h) == multiset(s)
    {
      k := k - 1;
      h := SiftDown(h, k);
    }
  }

  // ------------------------------------------------------------------ the object

  datatype SocketEvents = SocketEvents(fd: int, events: Events)

  predicate Distinct(s: seq<int>) {
    forall i, j :: 0 <= i < j < |s| ==> s[i] != s[j]
  }

  lemma DistinctOnce(s: seq<int>)
    ensures Distinct(s) <==> forall x :: multiset(s)[x] <= 1
  {
    if Distinct(s) {
      forall x
        ensures multiset(s)[x] <= 1
      {
        CountOnce(s, x);
      }
    } else {
      var i, j :| 0 <= i < j < |s| && s[i] == s[j];
      assert s == s[..j] + [s[j]] + s[j + 1..];
      assert s[i] in s[..j];
      assert multiset(s) == multiset(s[..j]) + multiset{s[j]} + multiset(s[j + 1..]);
      assert multiset(s)[s[j]] > 1;
    }
  }

  lemma {:induction false} CountOnce(s: seq<int>, x: int)
    requires Distinct(s)
    ensures multiset(s)[x] <= 1
    decreases |s|
  {
    if s != [] {
      assert s == [s[0]] + s[1..];
      CountOnce(s[1..], x);
      if s[0] == x && x in s[1..] {
        assert false;
      }
    }
  }

  lemma SameElements(s: seq<int>, t: seq<int>)
    requires multiset(s) == multiset(t)
    ensures forall x :: x in s <==> x in t
    ensures Distinct(s) <==> Distinct(t)
  {
    DistinctOnce(s);
    DistinctOnce(t);
    forall x
      ensures x in s <==> x in t
    {
      assert x in s <==> x in multiset(s);
      assert x in t <==> x in multiset(t);
    }
  }

  class SocketSelector {
    var sockets: seq<int>
    var readSet: set<int>
    var writeSet: set<int>
    var exceptSet: set<int>

    /** No duplicates, a heap, and exactly the sockets with a bit set. */
    ghost predicate Valid()
      reads this
    {
      && Distinct(sockets) && IsHeap(sockets)
      && forall fd :: fd in sockets <==> fd in readSet || fd in writeSet || fd in exceptSet
    }

    ghost function Bits(fd: int): Events
      reads this
    {
      Join(fd in readSet, fd in writeSet, fd in exceptSet)
    }

    /** The map the selector stands for. */
    ghost function Interest(): map<int, Events>
      reads this
    {
      map fd | fd in sockets :: Bits(fd)
    }

    /** The map says of a socket what the sets say of it. */
    lemma InterestIs(fd: int)
      requires Valid()
      ensures fd in Interest() <==> fd in readSet || fd in writeSet || fd in exceptSet
      ensures fd in Interest() ==>
                && (HasRead(Interest()[fd]) <==> fd in readSet)
                && (HasWrite(Interest()[fd]) <==> fd in writeSet)
                && (HasExcept(Interest()[fd]) <==> fd in exceptSet)
    {
      PartsJoined(fd in readSet, fd in writeSet, fd in exceptSet);
    }

    constructor ()
      ensures Valid() && Interest() == map[] && readSet == {} && writeSet == {} && exceptSet == {}
    {
      sockets := [];
      readSet, writeSet, exceptSet := {}, {}, {};
    }

    /** Ask for the events of a socket, and for no others of it: the sets that `select` is
        given hold it for exactly these bits, and the other sockets as before. */
    method Set(fd: int, events: Events)
      requires Valid()
      modifies this
      ensures Valid()
      ensures readSet == if HasRead(events) then old(readSet) + {fd} else old(readSet) - {fd}
      ensures writeSet == if HasWrite(events) then old(writeSet) + {fd} else old(writeSet) - {fd}
      ensures exceptSet == if HasExcept(events) then old(exceptSet) + {fd} else old(exceptSet) - {fd}
      ensures Interest() == if events == 0 then old(Interest()) - {fd} else old(Interest())[fd := events]
    {
      hide Distinct, IsHeap;
      JoinParts(events);
      if events == 0 {
        Remove(fd);
        return;
      }
      Insert(fd);
      readSet := if HasRead(events) then readSet + {fd} else readSet - {fd};
      writeSet := if HasWrite(events) then writeSet + {fd} else writeSet - {fd};
      exceptSet := if HasExcept(events) then exceptSet + {fd} else exceptSet - {fd};
    }

    /** Have the socket in the heap. */
    method Insert(fd: int)
      requires Distinct(sockets) && IsHeap(sockets)
      modifies this`sockets
      ensures Distinct(sockets) && IsHeap(sockets)
      ensures forall x :: x in sockets <==> x in old(sockets) || x == fd
    {
      var i := 0;
      while i < |sockets| && sockets[i] != fd
        invariant i <= |sockets|
        invariant forall j :: 0 <= j < i ==> sockets[j] != fd
      {
        i := i + 1;
      }
      if i == |sockets| {
        var pushed := sockets + [fd];
        assert forall x :: x in pushed <==> x in sockets || x == fd;
        sockets := MakeHeap(pushed);
        SameElements(sockets, pushed);
      }
    }

    method Remove(fd: int)
      requires Valid()
      modifies this
      ensures Valid() && Interest() == old(Interest()) - {fd}
      ensures readSet == old(readSet) - {fd} && writeSet == old(writeSet) - {fd} && exceptSet == old(exceptSet) - {fd}
    {
      var i := 0;
      while i < |sockets|
        invariant i <= |sockets| && sockets == old(sockets)
        invariant forall j :: 0 <= j < i ==> sockets[j] != fd
      {
        if sockets[i] == fd {
          var erased := sockets[..i] + sockets[i + 1..];
          EraseOne(sockets, i);
          sockets := MakeHeap(erased);
          SameElements(sockets, erased);
          break;
        }
        i := i + 1;
      }
      readSet, writeSet, exceptSet := readSet - {fd}, writeSet - {fd}, exceptSet - {fd};
    }

    static lemma EraseOne(s: seq<int>, i: nat)
      requires i < |s| && Distinct(s)
      ensures
        var t := s[..i] + s[i + 1..];
        Distinct(t) && forall x :: x in t <==> x in s && x != s[i]
    {
      var t := s[..i] + s[i + 1..];
      forall x
        ensures x in t <==> x in s && x != s[i]
      {
        if x in s && x != s[i] {
          var j :| 0 <= j < |s| && s[j] == x;
          assert t[if j < i then j else j - 1] == x;
        }
      }
    }

    /** The first argument of `select`: one more than every socket of interest. */
    method Nfds() returns (n: int)
      requires Valid()
      ensures forall fd :: fd in Interest() ==> fd < n
      ensures if Interest() == map[] then n == 1 else (n - 1) in Interest()
    {
      n := if sockets == [] then 1 else sockets[0] + 1;
      assert sockets != [] ==> sockets[0] in Interest();
      forall fd | fd in Interest()
        ensures fd < n
      {
        var i :| 0 <= i < |sockets| && sockets[i] == fd;
        FrontIsMax(sockets, i);
      }
    }

    /** Collect what `select` reported: every active socket once, with exactly its
        active events. */
    method Collect(activeRead: set<int>, activeWrite: set<int>, activeExcept: set<int>)
        returns (active: seq<SocketEvents>)
      requires Valid() && activeRead <= readSet && activeWrite <= writeSet && activeExcept <= exceptSet
      ensures forall i, j :: 0 <= i < j < |active| ==> active[i].fd != active[j].fd
      ensures forall a :: a in active <==>
                a.events != 0 && a.events == Join(a.fd in activeRead, a.fd in activeWrite, a.fd in activeExcept)
      ensures forall a :: a in active ==>
                && (HasRead(a.events) <==> a.fd in activeRead)
                && (HasWrite(a.events) <==> a.fd in activeWrite)
                && (HasExcept(a.events) <==> a.fd in activeExcept)
      ensures forall a :: a in active ==> a.fd in Interest() && Among(a.events, Interest()[a.fd])
      ensures activeRead == readSet && activeWrite == writeSet && activeExcept == exceptSet ==>
                forall a: SocketEvents :: a in active <==> a.fd in Interest() && Interest()[a.fd] == a.events
    {
      active := [];
      var i := 0;
      while i < |sockets|
        invariant i <= |sockets|
        invariant forall j, k :: 0 <= j < k < |active| ==> active[j].fd != active[k].fd
        invariant forall a :: a in active ==> a.fd in sockets[..i]
        invariant forall a :: a in active ==>
                    a.events != 0 && a.events == Join(a.fd in activeRead, a.fd in activeWrite, a.fd in activeExcept)
        invariant forall k :: 0 <= k < i ==>
                    var e := Join(sockets[k] in activeRead, sockets[k] in activeWrite, sockets[k] in activeExcept);
                    e != 0 ==> SocketEvents(sockets[k], e) in active
      {
        var fd := sockets[i];
        var events := Join(fd in activeRead, fd in activeWrite, fd in activeExcept);
        assert sockets[..i + 1] == sockets[..i] + [fd];
        if events != 0 {
          assert fd !in sockets[..i];
          active := active + [SocketEvents(fd, events)];
        }
        i := i + 1;
      }
      forall a: SocketEvents |
          a.events != 0 && a.events == Join(a.fd in activeRead, a.fd in activeWrite, a.fd in activeExcept)
        ensures a in active
      {
        assert a.fd in sockets;
        var k :| 0 <= k < |sockets| && sockets[k] == a.fd;
      }
      forall a | a in active
        ensures
          && (HasRead(a.events) <==> a.fd in activeRead)
          && (HasWrite(a.events) <==> a.fd in activeWrite)
          && (HasExcept(a.events) <==> a.fd in activeExcept)
        ensures a.fd in Interest() && Among(a.events, Interest()[a.fd])
      {
        PartsJoined(a.fd in activeRead, a.fd in activeWrite, a.fd in activeExcept);
        InterestIs(a.fd);
      }
    }
  }
}
