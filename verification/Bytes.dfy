/** Octets, octet strings, network-order integers and substring search. */
module Bytes {

  type Byte = x: int | 0 <= x < 256
  type Octets = seq<Byte>
  type U16 = x: int | 0 <= x < 0x1_0000
  type U32 = x: int | 0 <= x < 0x1_0000_0000

  datatype Option<+T> = None | Some(value: T)

  const CR: Byte := 13
  const LF: Byte := 10
  const CRLF: Octets := [CR, LF]

  // ---------------------------------------------------------------- integers

  function PutU16(v: U16): (s: Octets)
    ensures |s| == 2
  {
    [v / 256, v % 256]
  }

  function GetU16(s: Octets): U16
    requires |s| == 2
  {
    (s[0] as int) * 256 + s[1]
  }

  function PutU32(v: U32): (s: Octets)
    ensures |s| == 4
  {
    PutU16(v / 0x1_0000) + PutU16(v % 0x1_0000)
  }

  function GetU32(s: Octets): U32
    requires |s| == 4
  {
    (GetU16(s[..2]) as int) * 0x1_0000 + GetU16(s[2..])
  }

  /** Most significant octet first. */
  lemma NetworkOrder(a: Byte, b: Byte, c: Byte, d: Byte)
    ensures PutU16((a as int) * 256 + b) == [a, b] && GetU16([a, b]) == (a as int) * 256 + b
    ensures PutU32((((a as int) * 256 + b) * 256 + c) * 256 + d) == [a, b, c, d]
    ensures GetU32([a, b, c, d]) == (((a as int) * 256 + b) * 256 + c) * 256 + d
  {
    assert [a, b, c, d][..2] == [a, b] && [a, b, c, d][2..] == [c, d];
  }

  lemma GetPutU16(v: U16)
    ensures GetU16(PutU16(v)) == v
  {
  }

  lemma GetPutU32(v: U32)
    ensures GetU32(PutU32(v)) == v
  {
    assert PutU32(v)[..2] == PutU16(v / 0x1_0000) && PutU32(v)[2..] == PutU16(v % 0x1_0000);
    GetPutU16(v / 0x1_0000);
    GetPutU16(v % 0x1_0000);
  }

  // ------------------------------------------------------------------ slices

  lemma SliceOfSlice(s: Octets, a: nat, b: nat, c: nat, d: nat)
    requires a <= b <= |s| && c <= d <= b - a
    ensures s[a..b][c..d] == s[a + c..a + d]
    ensures s[a..b][c..] == s[a + c..b]
  {
    var t := s[a..b];
    forall i | 0 <= i < d - c
      ensures t[c..d][i] == s[a + c..a + d][i]
    {
      assert t[c..d][i] == t[c + i];
    }
  }

  lemma PrefixOfSum(a: Octets, b: Octets)
    ensures a <= a + b
  {
  }

  lemma PrefixTransitive(a: Octets, b: Octets, c: Octets)
    requires a <= b <= c
    ensures a <= c
  {
  }

  lemma SumAssociates(a: Octets, b: Octets, c: Octets)
    ensures a + b + c == a + (b + c)
  {
  }

  // ------------------------------------------------------------------ search

  /** The first place where `d` occurs in `s`, or -1. */
  function Find(s: Octets, d: Octets): (r: int)
    requires |d| > 0
    ensures -1 <= r
    ensures r >= 0 ==> r + |d| <= |s|
  {
    if |s| < |d| then -1
    else if s[..|d|] == d then 0
    else
      var r := Find(s[1..], d);
      if r < 0 then -1 else r + 1
  }

  lemma {:induction false} FindOccurs(s: Octets, d: Octets)
    requires |d| > 0 && Find(s, d) >= 0
    ensures s[Find(s, d)..Find(s, d) + |d|] == d
  {
    if s[..|d|] != d {
      var r := Find(s[1..], d);
      FindOccurs(s[1..], d);
      assert s[1..][r..r + |d|] == s[r + 1..r + 1 + |d|];
    }
  }

  /** `Find` returns the leftmost occurrence, and -1 only when there is none. */
  lemma {:induction false} FindIsFirst(s: Octets, d: Octets, i: nat)
    requires |d| > 0 && i + |d| <= |s| && s[i..i + |d|] == d
    ensures 0 <= Find(s, d) <= i
  {
    if s[..|d|] != d {
      assert i > 0;
      assert s[1..][i - 1..i - 1 + |d|] == s[i..i + |d|];
      FindIsFirst(s[1..], d, i - 1);
    }
  }

  /** An occurrence already found is not disturbed by bytes that arrive later. */
  lemma {:induction false} FindStable(a: Octets, b: Octets, d: Octets)
    requires |d| > 0 && Find(a, d) >= 0
    ensures Find(a + b, d) == Find(a, d)
  {
    assert (a + b)[..|d|] == a[..|d|];
    if a[..|d|] != d {
      assert (a + b)[1..] == a[1..] + b;
      FindStable(a[1..], b, d);
    }
  }
}
