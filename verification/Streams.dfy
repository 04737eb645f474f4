/**
 The typed views of a `StreamBuffer`: StreamReader, StreamWriter, RandomReader
 and RandomWriter.  All multi-octet integers are in network order.
 */
module Streams {
  import opened Bytes
  import opened StreamBuffers

  // ------------------------------------------------------------------ reader

  method ReadU8(b: StreamBuffer) returns (ok: bool, v: Byte)
    requires b.Valid()
    modifies b`rpos
    ensures b.Valid() && b.Live() == old(b.Live())
    ensures ok <==> old(b.Pos()) + 1 <= |b.Live()|
    ensures ok ==> v == b.Live()[old(b.Pos())] && b.Pos() == old(b.Pos()) + 1
    ensures !ok ==> b.Pos() == old(b.Pos())
  {
    var p;
    ok, p := ReadString(b, 1);
    v := if ok then p[0] else 0;
  }

  method ReadU16(b: StreamBuffer) returns (ok: bool, v: U16)
    requires b.Valid()
    modifies b`rpos
    ensures b.Valid() && b.Live() == old(b.Live())
    ensures ok <==> old(b.Pos()) + 2 <= |b.Live()|
    ensures ok ==> v == GetU16(b.Live()[old(b.Pos())..old(b.Pos()) + 2]) && b.Pos() == old(b.Pos()) + 2
    ensures !ok ==> b.Pos() == old(b.Pos())
  {
    var p;
    ok, p := ReadString(b, 2);
    v := if ok then GetU16(p) else 0;
  }

  method ReadU32(b: StreamBuffer) returns (ok: bool, v: U32)
    requires b.Valid()
    modifies b`rpos
    ensures b.Valid() && b.Live() == old(b.Live())
    ensures ok <==> old(b.Pos()) + 4 <= |b.Live()|
    ensures ok ==> v == GetU32(b.Live()[old(b.Pos())..old(b.Pos()) + 4]) && b.Pos() == old(b.Pos()) + 4
    ensures !ok ==> b.Pos() == old(b.Pos())
  {
    var p;
    ok, p := ReadString(b, 4);
    v := if ok then GetU32(p) else 0;
  }

  method ReadString(b: StreamBuffer, n: nat) returns (ok: bool, s: Octets)
    requires b.Valid()
    modifies b`rpos
    ensures b.Valid() && b.Live() == old(b.Live())
    ensures ok <==> old(b.Pos()) + n <= |b.Live()|
    ensures ok ==> s == b.Live()[old(b.Pos())..old(b.Pos()) + n] && b.Pos() == old(b.Pos()) + n
    ensures !ok ==> b.Pos() == old(b.Pos())
  {
    b.UnreadIsTail();
    if n <= b.wpos - b.rpos {
      b.UnreadSlice(n);
    }
    ok, s := b.Read(n);
  }

  /** Read up to the delimiter string and past it, all or nothing.  The source
      differs on the search and on the delimiter; see `CodedReadLine`. */
  method ReadUntil(b: StreamBuffer, delim: Octets) returns (ok: bool, s: Octets)
    requires b.Valid() && delim != []
    modifies b`rpos
    ensures b.Valid() && b.Live() == old(b.Live())
    ensures ok <==> Find(old(b.Unread()), delim) >= 0
    ensures ok ==>
              var n := Find(old(b.Unread()), delim);
              s == old(b.Unread())[..n] && b.Unread() == old(b.Unread())[n + |delim|..]
    ensures !ok ==> b.rpos == old(b.rpos) && b.Unread() == old(b.Unread())
  {
    var u := b.bytes[b.rpos..b.wpos];
    var n := Find(u, delim);
    if n < 0 {
      return false, [];
    }
    ok, s := b.Read(n);
    var _, _ := b.Read(|delim|);
  }

  // ------------------------------------------------------------------ writer

  method WriteU8(b: StreamBuffer, v: Byte) returns (ok: bool, offset: nat)
    requires b.Valid()
    modifies b`bytes, b`opos, b`rpos, b`wpos
    ensures b.Valid() && b.Pos() == old(b.Pos())
    ensures ok <==> Admits(b.limit, |old(b.Live())|, 1)
    ensures b.Live() == if ok then old(b.Live()) + [v] else old(b.Live())
    ensures ok ==> offset == b.opos + |old(b.Live())|
    ensures b.opos == OriginAfter(b.limit, old(b.opos), old(b.wpos), |b.Live()| - |old(b.Live())|)
  {
    ok, offset := b.Write([v]);
  }

  method WriteU16(b: StreamBuffer, v: U16) returns (ok: bool, offset: nat)
    requires b.Valid()
    modifies b`bytes, b`opos, b`rpos, b`wpos
    ensures b.Valid() && b.Pos() == old(b.Pos())
    ensures ok <==> Admits(b.limit, |old(b.Live())|, 2)
    ensures b.Live() == if ok then old(b.Live()) + PutU16(v) else old(b.Live())
    ensures ok ==> offset == b.opos + |old(b.Live())|
    ensures b.opos == OriginAfter(b.limit, old(b.opos), old(b.wpos), |b.Live()| - |old(b.Live())|)
  {
    ok, offset := b.Write(PutU16(v));
  }

  /** The unsigned 32-bit write, with all four octets; see `CodedPutU32`. */
  method WriteU32(b: StreamBuffer, v: U32) returns (ok: bool, offset: nat)
    requires b.Valid()
    modifies b`bytes, b`opos, b`rpos, b`wpos
    ensures b.Valid() && b.Pos() == old(b.Pos())
    ensures ok <==> Admits(b.limit, |old(b.Live())|, 4)
    ensures b.Live() == if ok then old(b.Live()) + PutU32(v) else old(b.Live())
    ensures ok ==> offset == b.opos + |old(b.Live())|
    ensures b.opos == OriginAfter(b.limit, old(b.opos), old(b.wpos), |b.Live()| - |old(b.Live())|)
  {
    ok, offset := b.Write(PutU32(v));
  }

  // ----------------------------------------------------------- random access

  method PeekU8(b: StreamBuffer, offset: nat) returns (ok: bool, v: Byte)
    requires b.Valid()
    ensures ok <==> offset < |b.Live()|
    ensures ok ==> v == b.Live()[offset]
  {
    var p;
    ok, p := b.Peek(offset, 1);
    v := if ok then p[0] else 0;
  }

  method PeekString(b: StreamBuffer, offset: nat, n: nat) returns (ok: bool, s: Octets)
    requires b.Valid()
    ensures ok <==> offset + n <= |b.Live()|
    ensures ok ==> s == b.Live()[offset..offset + n]
  {
    if offset + n > b.wpos - b.opos {
      return false, [];
    }
    ok, s := b.Peek(offset, n);
  }

  method UpdateU16(b: StreamBuffer, offset: nat, v: U16) returns (ok: bool)
    requires b.Valid()
    modifies b`bytes
    ensures b.Valid() && b.Pos() == old(b.Pos())
    ensures ok <==> offset + 2 <= |old(b.Live())|
    ensures b.Live() == if ok then Overwrite(old(b.Live()), offset, PutU16(v)) else old(b.Live())
  {
    ok := b.Update(offset, PutU16(v));
  }

  // ------------------------------------------------- the lines as the source has them

  /** The unsigned 32-bit write keeps a 16-bit variable, so on a little-endian
      machine only the two most significant octets reach the buffer. */
  function CodedPutU32(v: U32): Octets {
    PutU32(v)[..2]
  }

  /** The written line never puts what a reader of 32 bits needs. */
  lemma CodedPutU32IsShort(v: U32)
    ensures |CodedPutU32(v)| == 2 && CodedPutU32(v) != PutU32(v)
    ensures GetU16(CodedPutU32(v)) == v / 0x1_0000
  {
    assert CodedPutU32(v) == PutU16(v / 0x1_0000);
  }

  /** `find_first_of`: the first byte that is CR or LF, or -1. */
  function FindAny(s: Octets): (r: int)
    ensures -1 <= r < |s|
  {
    if s == [] then -1
    else if s[0] in CRLF then 0
    else
      var r := FindAny(s[1..]);
      if r < 0 then -1 else r + 1
  }

  lemma {:induction false} FindAnyFirst(s: Octets, i: nat)
    requires i < |s| && s[i] in CRLF
    ensures 0 <= FindAny(s) <= i
  {
    if s[0] !in CRLF {
      FindAnyFirst(s[1..], i - 1);
    }
  }

  /** What a line read reports and how many bytes it takes. */
  datatype LineRead = LineRead(ok: bool, text: Octets, taken: nat)

  /** `String(s, "\r\n")` as written: it stops at either byte of the delimiter,
      leaves the delimiter after an empty line, and after taking a line fails when
      fewer than two bytes follow. */
  function CodedReadLine(u: Octets): LineRead {
    if |u| < 2 then LineRead(false, [], 0)
    else
      var n := FindAny(u);
      if n < 0 then LineRead(false, [], 0)
      else if n == 0 then LineRead(true, [], 0)
      else if n + 2 <= |u| then LineRead(true, u[..n], n + 2)
      else LineRead(false, [], n)
  }

  /** The line read that `ReadUntil` performs. */
  function ReadLine(u: Octets): LineRead {
    var n := Find(u, CRLF);
    if n < 0 then LineRead(false, [], 0) else LineRead(true, u[..n], n + 2)
  }

  /** Too little has arrived for a delimiter, or none of it has, or a line ends at it. */
  predicate CleanBreak(u: Octets) {
    var n := FindAny(u);
    |u| < 2 || n < 0 || (0 < n && n + 2 <= |u| && u[n..n + 2] == CRLF)
  }

  /** The written code reads a line properly exactly when fewer than two bytes are unread, or
      no byte of a delimiter has arrived, or the first one starts a whole delimiter after a
      non-empty line. */
  lemma CodedReadLineIsRight(u: Octets)
    ensures CodedReadLine(u) == ReadLine(u) <==> CleanBreak(u)
  {
    var n := FindAny(u);
    FindAnyBeforeFind(u);
    if n >= 0 && |u| >= 2 {
      if n + 2 <= |u| && u[n..n + 2] == CRLF {
        FindIsFirst(u, CRLF, n);
      } else {
        LaterBreak(u);
      }
    }
  }

  lemma LaterBreak(u: Octets)
    requires |u| >= 2 && FindAny(u) >= 0 && !(FindAny(u) + 2 <= |u| && u[FindAny(u)..FindAny(u) + 2] == CRLF)
    ensures CodedReadLine(u) != ReadLine(u)
  {
    FindAnyBeforeFind(u);
    if Find(u, CRLF) >= 0 {
      FindOccurs(u, CRLF);
    }
  }

  lemma FindAnyBeforeFind(u: Octets)
    ensures Find(u, CRLF) >= 0 ==> 0 <= FindAny(u) <= Find(u, CRLF)
  {
    var m := Find(u, CRLF);
    if m >= 0 {
      FindOccurs(u, CRLF);
      assert u[m] == u[m..m + 2][0] == CR;
      FindAnyFirst(u, m);
    }
  }

  /** The blank line that ends an HTTP header is left in the buffer, and a line
      whose delimiter is still arriving is lost. */
  lemma CodedReadLineFails()
    ensures CodedReadLine([CR, LF]) == LineRead(true, [], 0) && ReadLine([CR, LF]) == LineRead(true, [], 2)
    ensures CodedReadLine([65, CR]) == LineRead(false, [], 1) && ReadLine([65, CR]) == LineRead(false, [], 0)
  {
    assert FindAny([CR, LF]) == 0;
    assert [65, CR][1..] == [CR];
    assert FindAny([CR]) == 0 && FindAny([65, CR]) == 1;
    assert [CR, LF][..2] == CRLF;
    assert [65, CR][..2] != CRLF;
  }
}
