/** The text handling that HttpMessage borrows from the C++ library: whitespace
    separated extraction, decimal numbers, C strings. */
module HttpText {
  import opened Bytes

  const SP: Byte := 32
  const COLON: Byte := 58
  const PLUS: Byte := 43
  const MINUS: Byte := 45
  const ZERO: Byte := 48

  predicate IsSpace(c: Byte) {
    c == SP || 9 <= c <= 13
  }

  predicate IsDigit(c: Byte) {
    ZERO <= c <= 57
  }

  predicate NoSpace(s: Octets) {
    forall i :: 0 <= i < |s| ==> !IsSpace(s[i])
  }

  /** The first place of byte `c`, or -1. */
  function FindByte(s: Octets, c: Byte): (r: int)
    ensures -1 <= r < |s|
  {
    if s == [] then -1
    else if s[0] == c then 0
    else
      var r := FindByte(s[1..], c);
      if r < 0 then -1 else r + 1
  }

  /** It is an occurrence, and there is none before it. */
  lemma {:induction false} FindByteFirst(s: Octets, c: Byte)
    ensures
      var r := FindByte(s, c);
      if r < 0 then c !in s else s[r] == c && c !in s[..r]
  {
    if s != [] && s[0] != c {
      FindByteFirst(s[1..], c);
      var r := FindByte(s, c);
      assert s == [s[0]] + s[1..];
      if r > 0 {
        assert s[..r] == [s[0]] + s[1..][..r - 1];
      }
    }
  }

  lemma {:induction false} FindByteIs(s: Octets, c: Byte, t: Octets)
    requires c !in s
    ensures FindByte(s + [c] + t, c) == |s|
    decreases |s|
  {
    var u := s + [c] + t;
    if s != [] {
      assert u[0] == s[0] && s[0] in s;
      assert u[1..] == s[1..] + [c] + t;
      FindByteIs(s[1..], c, t);
    }
  }

  /** A `std::string` handed over as `const char*` ends at its first zero byte. */
  function CString(s: Octets): Octets {
    var n := FindByte(s, 0);
    if n < 0 then s else s[..n]
  }

  // -------------------------------------------------------------- extraction

  function SkipSpace(s: Octets): (r: Octets)
    ensures |r| <= |s|
    ensures r != [] ==> !IsSpace(r[0])
  {
    if s != [] && IsSpace(s[0]) then SkipSpace(s[1..]) else s
  }

  /** Length of the run of non-space bytes at the front. */
  function WordLength(s: Octets): (n: nat)
    ensures n <= |s|
  {
    if s != [] && !IsSpace(s[0]) then 1 + WordLength(s[1..]) else 0
  }

  /** `iss >> word`: the word and what is left, or nothing at the end of input. */
  function Extract(s: Octets): Option<(Octets, Octets)> {
    var t := SkipSpace(s);
    if t == [] then None else Some((t[..WordLength(t)], t[WordLength(t)..]))
  }

  lemma {:induction false} WordLengthIs(w: Octets, t: Octets)
    requires NoSpace(w) && (t == [] || IsSpace(t[0]))
    ensures WordLength(w + t) == |w|
  {
    if w != [] {
      assert (w + t)[1..] == w[1..] + t;
      WordLengthIs(w[1..], t);
    } else {
      assert w + t == t;
    }
  }

  lemma {:induction false} RunIsWord(s: Octets)
    ensures NoSpace(s[..WordLength(s)])
  {
    if s != [] && !IsSpace(s[0]) {
      RunIsWord(s[1..]);
      assert s[..WordLength(s)] == [s[0]] + s[1..][..WordLength(s[1..])];
    }
  }

  /** Only words are extracted. */
  lemma ExtractedIsWord(s: Octets)
    ensures Extract(s).Some? ==> Extract(s).value.0 != [] && NoSpace(Extract(s).value.0)
  {
    RunIsWord(SkipSpace(s));
  }

  /** A word followed by a space (or by nothing) is extracted whole. */
  lemma ExtractWord(w: Octets, t: Octets)
    requires w != [] && NoSpace(w) && (t == [] || IsSpace(t[0]))
    ensures Extract(w + t) == Some((w, t))
    ensures Extract([SP] + w + t) == Some((w, t))
  {
    WordLengthIs(w, t);
    assert !IsSpace((w + t)[0]);
    assert SkipSpace(w + t) == w + t;
    assert ([SP] + w + t)[1..] == w + t;
    assert SkipSpace([SP] + w + t) == w + t;
    assert (w + t)[..|w|] == w && (w + t)[|w|..] == t;
  }

  // ----------------------------------------------------------------- decimals

  /** The value of the run of digits at the front, continuing from `acc`. */
  function DigitsValue(s: Octets, acc: nat): nat {
    if s != [] && IsDigit(s[0]) then DigitsValue(s[1..], acc * 10 + (s[0] - ZERO)) else acc
  }

  /** Optional space, optional sign, digits; 0 when there are no digits. */
  function ParseInt(s: Octets): int {
    var t := SkipSpace(s);
    if t != [] && t[0] == MINUS then -(DigitsValue(t[1..], 0) as int)
    else if t != [] && t[0] == PLUS then DigitsValue(t[1..], 0)
    else DigitsValue(t, 0)
  }

  const LONG_MAX: int := 0x7FFF_FFFF_FFFF_FFFF
  const LONG_MIN: int := -LONG_MAX - 1

  /** `iss >> v` for a 64-bit `long`: out of range values stop at the bounds. */
  function ParseLong(s: Octets): int {
    var v := ParseInt(s);
    if v > LONG_MAX then LONG_MAX else if v < LONG_MIN then LONG_MIN else v
  }

  /** The conversion of a `long` to `size_t`. */
  function ToSize(v: int): (n: nat)
    requires LONG_MIN <= v <= LONG_MAX
  {
    if v < 0 then v + 0x1_0000_0000_0000_0000 else v
  }

  function Digits(n: nat): (s: Octets)
    ensures s != [] && forall i :: 0 <= i < |s| ==> IsDigit(s[i])
  {
    if n < 10 then [ZERO + n] else Digits(n / 10) + [ZERO + n % 10]
  }

  /** `oss << v` for an `int`. */
  function PrintInt(v: int): Octets {
    if v < 0 then [MINUS] + Digits(-v) else Digits(v)
  }

  lemma {:induction false} DigitsValueSnoc(s: Octets, d: Byte, acc: nat)
    requires forall i :: 0 <= i < |s| ==> IsDigit(s[i])
    requires IsDigit(d)
    ensures DigitsValue(s + [d], acc) == DigitsValue(s, acc) * 10 + (d - ZERO)
    decreases |s|
  {
    if s != [] {
      assert (s + [d])[1..] == s[1..] + [d];
      DigitsValueSnoc(s[1..], d, acc * 10 + (s[0] - ZERO));
    } else {
      assert DigitsValue([d][1..], acc * 10 + (d - ZERO)) == acc * 10 + (d - ZERO);
      assert s + [d] == [d];
    }
  }

  lemma {:induction false} DigitsRoundTrip(n: nat)
    ensures DigitsValue(Digits(n), 0) == n
  {
    if n >= 10 {
      DigitsRoundTrip(n / 10);
      DigitsValueSnoc(Digits(n / 10), ZERO + n % 10, 0);
    } else {
      assert DigitsValue([ZERO + n][1..], n) == n;
    }
  }

  /** Reading a printed integer gives it back. */
  lemma PrintIntRoundTrip(v: int)
    ensures ParseInt(PrintInt(v)) == v
    ensures NoSpace(PrintInt(v)) && PrintInt(v) != []
  {
    var s := PrintInt(v);
    assert !IsSpace(s[0]);
    assert SkipSpace(s) == s;
    if v < 0 {
      assert s[1..] == Digits(-v);
      DigitsRoundTrip(-v);
      assert forall i :: 0 < i < |s| ==> s[i] == Digits(-v)[i - 1];
    } else {
      DigitsRoundTrip(v);
    }
  }

  // ------------------------------------------------- text that was not printed here

  predicate AllSpace(s: Octets) {
    forall i :: 0 <= i < |s| ==> IsSpace(s[i])
  }

  /** Tab, line feed, vertical tab, form feed, carriage return and space. */
  lemma SpaceIs(c: Byte)
    ensures IsSpace(c) <==> c in [9, 10, 11, 12, 13, 32]
  {
  }

  lemma DigitIs(c: Byte)
    ensures IsDigit(c) <==> (c as char) in ['0', '1', '2', '3', '4', '5', '6', '7', '8', '9']
    ensures SP as char == ' ' && COLON as char == ':' && ZERO as char == '0'
    ensures PLUS as char == '+' && MINUS as char == '-'
  {
  }

  lemma {:induction false} SpaceSkipped(w: Octets, s: Octets)
    requires AllSpace(w) && (s == [] || !IsSpace(s[0]))
    ensures SkipSpace(w + s) == s
  {
    if w == [] {
      assert w + s == s;
    } else {
      assert (w + s)[1..] == w[1..] + s;
      SpaceSkipped(w[1..], s);
    }
  }

  /** Any space in front of a word is skipped. */
  lemma ExtractBehindSpace(w: Octets, word: Octets, t: Octets)
    requires AllSpace(w) && word != [] && NoSpace(word) && (t == [] || IsSpace(t[0]))
    ensures Extract(w + (word + t)) == Some((word, t))
  {
    SpaceSkipped(w, word + t);
    SpaceSkipped([], word + t);
    assert [] + (word + t) == word + t;
    ExtractWord(word, t);
  }

  /** Where there is only space there is no word. */
  lemma ExtractNothing(w: Octets)
    requires AllSpace(w)
    ensures Extract(w) == None
  {
    SpaceSkipped(w, []);
    assert w + [] == w;
  }

  lemma {:induction false} DigitsStop(s: Octets, t: Octets, acc: nat)
    requires forall i :: 0 <= i < |s| ==> IsDigit(s[i])
    requires t == [] || !IsDigit(t[0])
    ensures DigitsValue(s + t, acc) == DigitsValue(s, acc)
    decreases |s|
  {
    if s == [] {
      assert s + t == t;
    } else {
      assert (s + t)[1..] == s[1..] + t;
      DigitsStop(s[1..], t, acc * 10 + (s[0] - ZERO));
    }
  }

  lemma SignedDigits(sign: Byte, n: nat, t: Octets)
    requires (sign == PLUS || sign == MINUS) && (t == [] || !IsDigit(t[0]))
    ensures ParseInt([sign] + (Digits(n) + t)) == if sign == MINUS then -(n as int) else n
  {
    hide Digits;
    var s := [sign] + (Digits(n) + t);
    DigitsRoundTrip(n);
    DigitsStop(Digits(n), t, 0);
    SpaceSkipped([], s);
    assert [] + s == s && s[1..] == Digits(n) + t;
  }

  lemma PlainDigits(n: nat, t: Octets)
    requires t == [] || !IsDigit(t[0])
    ensures ParseInt(Digits(n) + t) == n
  {
    hide Digits;
    var s := Digits(n) + t;
    DigitsRoundTrip(n);
    DigitsStop(Digits(n), t, 0);
    SpaceSkipped([], s);
    assert [] + s == s && s[0] == Digits(n)[0];
  }

  lemma ParseBehindSpace(w: Octets, s: Octets)
    requires AllSpace(w) && s != [] && !IsSpace(s[0])
    ensures ParseInt(w + s) == ParseInt(s)
  {
    SpaceSkipped(w, s);
    SpaceSkipped([], s);
    assert [] + s == s;
  }

  /** A number is read behind any space, with any sign, up to what is no digit. */
  lemma ParseIntReads(w: Octets, v: int, t: Octets)
    requires AllSpace(w) && (t == [] || !IsDigit(t[0]))
    ensures ParseInt(w + (PrintInt(v) + t)) == v
    ensures v >= 0 ==> ParseInt(w + ([PLUS] + (Digits(v) + t))) == v
  {
    hide Digits, ParseInt, SkipSpace;
    if v < 0 {
      assert PrintInt(v) + t == [MINUS] + (Digits(-v) + t);
      SignedDigits(MINUS, -v, t);
      ParseBehindSpace(w, [MINUS] + (Digits(-v) + t));
    } else {
      PlainDigits(v, t);
      assert (Digits(v) + t)[0] == Digits(v)[0];
      ParseBehindSpace(w, Digits(v) + t);
      SignedDigits(PLUS, v, t);
      ParseBehindSpace(w, [PLUS] + (Digits(v) + t));
    }
  }

  /** Text that starts with no number reads as 0. */
  lemma ParseIntOfNone(w: Octets, s: Octets)
    requires AllSpace(w) && (s == [] || (!IsSpace(s[0]) && !IsDigit(s[0]) && s[0] != MINUS && s[0] != PLUS))
    ensures ParseInt(w + s) == 0
  {
    SpaceSkipped(w, s);
  }

  lemma CStringIs(s: Octets, t: Octets)
    requires 0 !in s
    ensures CString(s + [0] + t) == s && CString(s) == s
  {
    FindByteIs(s, 0, t);
    FindByteFirst(s, 0);
  }
}
