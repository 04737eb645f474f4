/**
 The byte buffer of netb/StreamBuffer.hpp and netb/StreamBuffer.cpp.

 The vector `_bytes` is the field `bytes`; `opos <= rpos <= wpos` are its three
 cursors.  A client sees `Live()` (what was written and not flushed), of which
 the first `Pos()` bytes have been read.
 */
module StreamBuffers {
  import opened Bytes

  const DEFAULT_BUFFER_SIZE: nat := 4096
  const MAX_BUFFER_SIZE: nat := 1024 * 1024

  /** `std::rotate` of the first `last` elements so that element `mid` comes first. */
  function Rotate(s: Octets, mid: nat, last: nat): Octets
    requires mid <= last <= |s|
  {
    s[mid..last] + s[..mid] + s[last..]
  }

  /** `vector::resize`: cut the tail or append zero bytes. */
  function Resize(s: Octets, n: nat): (r: Octets)
    ensures |r| == n
    ensures forall i :: 0 <= i < n && i < |s| ==> r[i] == s[i]
  {
    if n <= |s| then s[..n] else s + seq(n - |s|, _ => 0)
  }

  /** `memcpy` of `p` to index `at`. */
  function Overwrite(s: Octets, at: nat, p: Octets): (r: Octets)
    requires at + |p| <= |s|
    ensures |r| == |s|
  {
    s[..at] + p + s[at + |p|..]
  }

  lemma OverwriteAppends(s: Octets, from: nat, at: nat, p: Octets)
    requires from <= at && at + |p| <= |s|
    ensures Overwrite(s, at, p)[from..at + |p|] == s[from..at] + p
  {
  }

  lemma OverwriteInside(s: Octets, from: nat, to: nat, at: nat, p: Octets)
    requires from <= to <= |s| && at + |p| <= to - from
    ensures Overwrite(s, from + at, p)[from..to] == Overwrite(s[from..to], at, p)
  {
    hide Overwrite;
    var r, t := Overwrite(s, from + at, p)[from..to], Overwrite(s[from..to], at, p);
    assert |r| == |t| == to - from;
    forall i | 0 <= i < |r|
      ensures r[i] == t[i]
    {
      OverwriteAt(s, from + at, p, from + i);
      OverwriteAt(s[from..to], at, p, i);
    }
  }

  lemma OverwriteAt(s: Octets, at: nat, p: Octets, i: nat)
    requires at + |p| <= |s| && i < |s|
    ensures Overwrite(s, at, p)[i] == if at <= i < at + |p| then p[i - at] else s[i]
  {
  }

  /** Admission under the memory bound; a limit of 0 means no bound. */
  predicate Admits(limit: nat, live: nat, n: nat) {
    limit == 0 || live + n <= limit
  }

  /** Where the accessible bytes start after `n` more were written: at the front when the
      limit made the buffer move them there. */
  function OriginAfter(limit: nat, opos: nat, wpos: nat, n: int): nat {
    if limit > 0 && wpos + n > limit then 0 else opos
  }

  class StreamBuffer {
    var bytes: Octets
    var limit: nat
    var opos: nat
    var rpos: nat
    var wpos: nat

    ghost predicate Valid()
      reads this
    {
      && opos <= rpos <= wpos <= |bytes|
      && (limit > 0 ==> |bytes| <= limit)
    }

    /** The accessible bytes. */
    ghost function Live(): Octets
      requires Valid()
      reads this
    {
      bytes[opos..wpos]
    }

    /** How many accessible bytes were read already. */
    ghost function Pos(): nat
      requires Valid()
      reads this
    {
      rpos - opos
    }

    /** The accessible bytes not read yet. */
    ghost function Unread(): Octets
      requires Valid()
      reads this
    {
      bytes[rpos..wpos]
    }

    /** The unread bytes are the accessible ones without those read. */
    lemma UnreadIsTail()
      requires Valid()
      ensures Unread() == Live()[Pos()..]
      ensures |Live()| == Pos() + |Unread()|
    {
    }

    lemma UnreadSlice(n: nat)
      requires Valid() && n <= |Unread()|
      ensures Unread()[..n] == Live()[Pos()..Pos() + n]
    {
      SliceOfSlice(bytes, rpos, wpos, 0, n);
      SliceOfSlice(bytes, opos, wpos, Pos(), Pos() + n);
    }

    constructor (init: nat := DEFAULT_BUFFER_SIZE, limit: nat := MAX_BUFFER_SIZE)
      requires limit >= init
      ensures Valid() && Live() == [] && Pos() == 0 && opos == 0
      ensures this.limit == limit && |bytes| == init
    {
      bytes := seq(init, _ => 0);
      this.limit := limit;
      opos, rpos, wpos := 0, 0, 0;
    }

    constructor Filled(p: Octets, init: nat := DEFAULT_BUFFER_SIZE, limit: nat := MAX_BUFFER_SIZE)
      requires limit >= init >= |p|
      ensures Valid() && Live() == p && Pos() == 0 && opos == 0
      ensures this.limit == limit && |bytes| == init
    {
      bytes := p + seq(init - |p|, _ => 0);
      this.limit := limit;
      opos, rpos, wpos := 0, 0, |p|;
    }

    method Clear()
      requires Valid()
      modifies this`opos, this`rpos, this`wpos
      ensures Valid() && Live() == [] && Pos() == 0 && opos == 0
    {
      opos, rpos, wpos := 0, 0, 0;
    }

    method Flush() returns (left: nat)
      requires Valid()
      modifies this`opos, this`rpos, this`wpos
      ensures Valid()
      ensures Live() == old(Unread()) == Unread() && Pos() == 0
      ensures Live() == old(Live())[old(Pos())..]
      ensures left == |Live()|
      ensures old(opos) == 0 && old(rpos) == 0 ==> opos == 0
    {
      UnreadIsTail();
      opos := rpos;
      if opos == wpos {
        opos, rpos, wpos := 0, 0, 0;
      }
      left := wpos - opos;
    }

    /** `Flush(n)`: drop the first `n` accessible bytes, whether read or not. The
        read cursor moves along when it would fall behind; the source leaves it, see
        `CodedFlushIsRight`. */
    method FlushN(n: nat) returns (left: int)
      requires Valid()
      modifies this`opos, this`rpos, this`wpos
      ensures Valid()
      ensures n > old(|Live()|) ==> left == -1 && unchanged(this)
      ensures n <= old(|Live()|) ==>
                left == old(|Live()|) - n && Live() == old(Live())[n..]
                && Pos() == if n <= old(Pos()) then old(Pos()) - n else 0
    {
      if n > wpos - opos {
        return -1;
      }
      opos := opos + n;
      if rpos < opos {
        rpos := opos;
      }
      if opos == wpos {
        opos, rpos, wpos := 0, 0, 0;
      }
      left := wpos - opos;
    }

    /** Move the accessible bytes to the front of the container.  The third
        argument of the rotation is the correction: the source stops at
        `_wpos - _opos`; see `CodedReclaimKeepsLive`. */
    method Reclaim()
      requires Valid()
      modifies this`bytes, this`opos, this`rpos, this`wpos
      ensures Valid() && Live() == old(Live()) && Pos() == old(Pos())
      ensures opos == 0 && |bytes| == old(|bytes|)
    {
      bytes := Rotate(bytes, opos, wpos);
      wpos := wpos - opos;
      rpos := rpos - opos;
      opos := 0;
    }

    /** Make room for `n` bytes: granted exactly when the accessible bytes and
        the new ones stay within the limit. */
    method Reserve(n: nat) returns (ok: bool)
      requires Valid()
      modifies this`bytes, this`opos, this`rpos, this`wpos
      ensures Valid() && Live() == old(Live()) && Pos() == old(Pos()) && Unread() == old(Unread())
      ensures ok <==> Admits(limit, |Live()|, n)
      ensures ok ==> |bytes| - wpos >= n
      ensures !ok ==> unchanged(this)
      ensures ok ==> opos == OriginAfter(limit, old(opos), old(wpos), n)
    {
      if n == 0 || |bytes| - wpos >= n {
        return true;
      }
      if limit > 0 {
        if wpos - opos + n > limit {
          return false;
        }
        if wpos + n > limit {
          Reclaim();
        }
      }
      UnreadIsTail();
      bytes := Resize(bytes, wpos + n);
      UnreadIsTail();
      ok := |bytes| - wpos >= n;
    }

    /** `Write(n, offset)`: move the write cursor over bytes put there from outside. */
    method Advance(n: nat) returns (ok: bool, offset: nat)
      requires Valid()
      modifies this`wpos
      ensures Valid() && ok == (old(wpos) + n <= |bytes|)
      ensures ok ==> wpos == old(wpos) + n && offset == old(wpos)
      ensures !ok ==> wpos == old(wpos)
    {
      if wpos + n > |bytes| {
        return false, 0;
      }
      offset := wpos;
      wpos := wpos + n;
      ok := true;
    }

    /** Append `p`; the offset is the container index of its first byte. */
    method Write(p: Octets) returns (ok: bool, offset: nat)
      requires Valid()
      modifies this`bytes, this`opos, this`rpos, this`wpos
      ensures Valid() && Pos() == old(Pos())
      ensures ok <==> Admits(limit, |old(Live())|, |p|)
      ensures Live() == if ok then old(Live()) + p else old(Live())
      ensures ok ==> offset == opos + |old(Live())|
      ensures opos == OriginAfter(limit, old(opos), old(wpos), |Live()| - |old(Live())|)
      ensures Unread() == if ok then old(Unread()) + p else old(Unread())
    {
      offset := 0;
      ok := Reserve(|p|);
      if ok {
        offset := Append(p);
      }
    }

    /** `memcpy` behind the last byte written, where there is room, and the cursor over it. */
    method Append(p: Octets) returns (offset: nat)
      requires Valid() && wpos + |p| <= |bytes|
      modifies this`bytes, this`wpos
      ensures Valid() && |bytes| == old(|bytes|) && wpos == old(wpos) + |p| && offset == old(wpos)
      ensures Live() == old(Live()) + p && Unread() == old(Unread()) + p
    {
      hide Overwrite;
      OverwriteAppends(bytes, opos, wpos, p);
      OverwriteAppends(bytes, rpos, wpos, p);
      bytes := Overwrite(bytes, wpos, p);
      var _, at := Advance(|p|);
      offset := at;
    }

    /** Take the next `n` unread bytes, all or none. */
    method Read(n: nat) returns (ok: bool, p: Octets)
      requires Valid()
      modifies this`rpos
      ensures Valid() && Live() == old(Live())
      ensures ok <==> n <= |old(Unread())|
      ensures ok ==> p == old(Unread())[..n] && Unread() == old(Unread())[n..] && Pos() == old(Pos()) + n
      ensures !ok ==> p == [] && rpos == old(rpos)
    {
      if wpos - rpos < n {
        return false, [];
      }
      p := bytes[rpos..rpos + n];
      SliceOfSlice(bytes, rpos, wpos, 0, n);
      SliceOfSlice(bytes, rpos, wpos, n, wpos - rpos);
      rpos := rpos + n;
      ok := true;
    }

    /** Look at `n` bytes, `offset` after the first accessible one. */
    method Peek(offset: nat, n: nat) returns (ok: bool, p: Octets)
      requires Valid()
      ensures ok <==> n == 0 || offset + n <= |Live()|
      ensures ok && n > 0 ==> p == Live()[offset..offset + n]
      ensures !ok || n == 0 ==> p == []
    {
      var peekable := if offset > wpos - opos then 0 else wpos - opos - offset;
      if peekable < n {
        return false, [];
      }
      p := if n == 0 then [] else bytes[opos + offset..opos + offset + n];
      if n > 0 {
        SliceOfSlice(bytes, opos, wpos, offset, offset + n);
      }
      ok := true;
    }

    /** Overwrite `|p|` bytes, `offset` after the first accessible one. */
    method Update(offset: nat, p: Octets) returns (ok: bool)
      requires Valid()
      modifies this`bytes
      ensures Valid() && Pos() == old(Pos())
      ensures ok <==> p == [] || offset + |p| <= |old(Live())|
      ensures Live() == if ok && p != [] then Overwrite(old(Live()), offset, p) else old(Live())
    {
      var peekable := if offset > wpos - opos then 0 else wpos - opos - offset;
      if peekable < |p| {
        return false;
      }
      hide Overwrite;
      if p != [] {
        OverwriteInside(bytes, opos, wpos, offset, p);
        bytes := Overwrite(bytes, opos + offset, p);
      }
      ok := true;
    }

    /** The copy constructor: flushed bytes are dropped, reading starts over. */
    constructor Copy(b: StreamBuffer)
      requires b.Valid()
      ensures Valid() && Live() == b.Live() && Pos() == 0 && opos == 0 && limit == b.limit
    {
      var live := b.bytes[b.opos..b.wpos];
      bytes := live + seq(|b.bytes| - b.wpos, _ => 0);
      limit := b.limit;
      opos, rpos, wpos := 0, 0, |live|;
    }

    /** Assignment: flushed bytes are dropped, the read position is kept.  The
        copy starts at `b._opos`; see `CodedAssignCopiesLive`. */
    method Assign(b: StreamBuffer)
      requires Valid() && b.Valid() && b != this
      modifies this
      ensures Valid() && Live() == b.Live() && Pos() == b.Pos() && opos == 0 && limit == b.limit
    {
      bytes := Resize(bytes, |b.bytes| - b.opos);
      bytes := Overwrite(bytes, 0, b.bytes[b.opos..b.wpos]);
      limit := b.limit;
      opos := 0;
      rpos := b.rpos - b.opos;
      wpos := b.wpos - b.opos;
    }
  }

  // ------------------------------------------------- the lines as the source has them

  /** `Reclaim` as written rotates only up to `_wpos - _opos`; the call has no
      meaning when that end lies before the middle. */
  function CodedReclaim(bytes: Octets, opos: nat, wpos: nat): Option<Octets>
    requires opos <= wpos <= |bytes|
  {
    if opos <= wpos - opos then Some(Rotate(bytes, opos, wpos - opos)) else None
  }

  /** The written line keeps the accessible bytes exactly when the flushed bytes
      happen to equal the last ones written; so always when nothing was flushed. */
  lemma CodedReclaimKeepsLive(bytes: Octets, opos: nat, wpos: nat)
    requires opos <= wpos <= |bytes|
    ensures
      var r := CodedReclaim(bytes, opos, wpos);
      (r.Some? && r.value[..wpos - opos] == bytes[opos..wpos])
      <==> (2 * opos <= wpos && bytes[..opos] == bytes[wpos - opos..wpos])
  {
    if 2 * opos <= wpos {
      var n := wpos - opos;
      var r := Rotate(bytes, opos, n);
      assert r[..n] == bytes[opos..n] + bytes[..opos];
      assert bytes[opos..wpos] == bytes[opos..n] + bytes[n..wpos];
      assert r[..n][n - opos..] == bytes[..opos];
      assert bytes[opos..wpos][n - opos..] == bytes[n..wpos];
    }
  }

  lemma CodedReclaimLosesBytes()
    ensures CodedReclaim([1, 2, 3], 1, 3) == Some([2, 1, 3])
    ensures [2, 1, 3][..2] != [1, 2, 3][1..3]
  {
    assert Rotate([1, 2, 3], 1, 2) == [2, 1, 3];
    assert [1, 2, 3][1..3][1] == 3 && [2, 1, 3][..2][1] == 1;
  }

  /** Assignment as written copies from `_opos` of the target, not of the source
      `b`; the copy is defined only inside the container of `b`. */
  function CodedAssign(opos: nat, b: Octets, bopos: nat, bwpos: nat): Option<Octets>
    requires bopos <= bwpos <= |b|
  {
    if opos + (bwpos - bopos) <= |b| then Some(b[opos..opos + (bwpos - bopos)]) else None
  }

  /** It copies the right bytes whatever the container holds exactly when both origins
      are equal. */
  lemma CodedAssignCopiesLive(opos: nat, size: nat, bopos: nat, bwpos: nat)
    requires bopos < bwpos <= size
    ensures (forall b: Octets | |b| == size :: CodedAssign(opos, b, bopos, bwpos) == Some(b[bopos..bwpos]))
            <==> opos == bopos
  {
    var n := bwpos - bopos;
    if opos != bopos {
      var b: Octets := seq(size, i => if i == bopos then 1 else 0);
      assert b[bopos..bwpos][0] == 1;
      if opos + n <= size {
        assert b[opos..opos + n][0] == 0;
      }
      assert CodedAssign(opos, b, bopos, bwpos) != Some(b[bopos..bwpos]);
    }
  }

  datatype Cursors = Cursors(opos: nat, rpos: nat, wpos: nat)

  /** `Flush(n)` as written moves only the origin. */
  function CodedFlush(c: Cursors, n: nat): Cursors
    requires c.opos <= c.rpos <= c.wpos
  {
    if n > c.wpos - c.opos then c
    else if c.opos + n == c.wpos then Cursors(0, 0, 0)
    else c.(opos := c.opos + n)
  }

  /** The cursors stay in order exactly when the bytes dropped were read, or all are
      dropped, or the request is refused. */
  lemma CodedFlushIsRight(c: Cursors, n: nat)
    requires c.opos <= c.rpos <= c.wpos
    ensures
      var d := CodedFlush(c, n);
      d.opos <= d.rpos <= d.wpos <==> n <= c.rpos - c.opos || n >= c.wpos - c.opos
  {
  }
}
