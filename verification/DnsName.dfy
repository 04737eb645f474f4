/**
 Domain names of netb/DnsRecord.cpp: text form, wire form, and the compression
 pointers of section 4.1.4 of RFC 1035.
 */
module DnsNames {
  import opened Bytes

  type Name = seq<Octets>

  const DOT: Byte := 46
  const LABEL_MAX: nat := 63
  const TEXT_MAX: nat := 256

  // ------------------------------------------------------------------- octets

  /** `m` holds `e` from `pos` on. */
  predicate Has(m: Octets, pos: nat, e: Octets)
    decreases |e|
  {
    if e == [] then pos <= |m| else pos < |m| && m[pos] == e[0] && Has(m, pos + 1, e[1..])
  }

  lemma {:induction false} HasSlice(m: Octets, pos: nat, e: Octets)
    ensures Has(m, pos, e) <==> pos + |e| <= |m| && m[pos..pos + |e|] == e
    decreases |e|
  {
    if e != [] {
      HasSlice(m, pos + 1, e[1..]);
      if pos + |e| <= |m| {
        assert m[pos..pos + |e|] == [m[pos]] + m[pos + 1..pos + |e|];
        assert e == [e[0]] + e[1..];
      }
    }
  }

  lemma {:induction false} HasSplit(m: Octets, pos: nat, a: Octets, b: Octets)
    ensures Has(m, pos, a + b) <==> Has(m, pos, a) && Has(m, pos + |a|, b)
    decreases |a|
  {
    if a == [] {
      assert a + b == b;
      HasSlice(m, pos, b);
    } else {
      assert (a + b)[1..] == a[1..] + b;
      HasSplit(m, pos + 1, a[1..], b);
    }
  }

  lemma HasOctet(m: Octets, pos: nat, x: Byte)
    ensures Has(m, pos, [x]) <==> pos < |m| && m[pos] == x
  {
    HasSlice(m, pos, [x]);
  }

  lemma HasWhole(pre: Octets, e: Octets, post: Octets)
    ensures Has(pre + e + post, |pre|, e)
  {
    HasSlice(pre + e + post, |pre|, e);
  }

  /** What reading at a position gives, and where it stops. */
  datatype Read<+T> = Refused | Got(value: T, end: nat)

  // ----------------------------------------------------------------- wire form

  /** Labels stored at `off`, ended by the zero octet; a pointer is refused. */
  function Labels(m: Octets, off: nat): (r: Read<Name>)
    ensures r.Got? ==> off < r.end <= |m|
    decreases |m| - off
  {
    if off >= |m| then Refused
    else
      var len := m[off];
      if len == 0 then Got([], off + 1)
      else if len > LABEL_MAX || off + 1 + len > |m| then Refused
      else
        match Labels(m, off + 1 + len)
        case Refused => Refused
        case Got(ls, end) => Got([m[off + 1..off + 1 + len]] + ls, end)
  }

  /** The 14-bit offset of a pointer; the source's line yields `CodedOffset`. */
  function PointerOffset(hi: Byte, lo: Byte): nat {
    hi % 64 * 256 + lo
  }

  /** The name read at `pos`, and where reading stops. */
  function DecodeName(m: Octets, pos: nat): (r: Read<Name>)
    ensures r.Got? ==> pos < r.end <= |m|
    decreases |m| - pos
  {
    if pos >= |m| then Refused
    else
      var len := m[pos];
      if len == 0 then Got([], pos + 1)
      else if len > LABEL_MAX then
        if pos + 2 > |m| then Refused
        else
          match Labels(m, PointerOffset(len, m[pos + 1]))
          case Refused => Refused
          case Got(ls, _) => Got(ls, pos + 2)
      else if pos + 1 + len > |m| then Refused
      else
        match DecodeName(m, pos + 1 + len)
        case Refused => Refused
        case Got(ls, end) => Got([m[pos + 1..pos + 1 + len]] + ls, end)
  }

  predicate IsLabel(l: Octets) {
    1 <= |l| <= LABEL_MAX
  }

  predicate AllLabels(ls: Name) {
    forall l :: l in ls ==> IsLabel(l)
  }

  /** Each label behind its length. */
  function EncodeLabels(ls: Name): Octets {
    if ls == [] then [] else [|ls[0]| % 256] + ls[0] + EncodeLabels(ls[1..])
  }

  /** Packing skips an empty label and a label that is a single dot. */
  predicate Packed(l: Octets) {
    l != [] && l != [DOT]
  }

  function Kept(ls: Name): Name {
    if ls == [] then []
    else if Packed(ls[0]) then [ls[0]] + Kept(ls[1..])
    else Kept(ls[1..])
  }

  function EncodeName(ls: Name): Octets {
    EncodeLabels(Kept(ls)) + [0]
  }

  // -------------------------------------------------- the grammar and the parser

  /** Labels read first go in front of what is read next. */
  function Prepend(ls: Name, r: Read<Name>): Read<Name> {
    match r
    case Refused => Refused
    case Got(more, end) => Got(ls + more, end)
  }

  lemma PrependTwice(a: Name, b: Name, r: Read<Name>)
    ensures Prepend(a, Prepend(b, r)) == Prepend(a + b, r)
  {
    if r.Got? {
      assert a + (b + r.value) == a + b + r.value;
    }
  }

  lemma EncodeFirst(l: Octets, ls: Name)
    requires IsLabel(l)
    ensures EncodeLabels([l] + ls) == [|l|] + (l + EncodeLabels(ls))
    ensures |EncodeLabels([l] + ls)| == 1 + |l| + |EncodeLabels(ls)|
  {
    assert ([l] + ls)[1..] == ls;
    SumAssociates([|l|], l, EncodeLabels(ls));
  }

  /** A label in place, then others. */
  lemma HasFirst(m: Octets, pos: nat, l: Octets, ls: Name)
    requires IsLabel(l)
    ensures Has(m, pos, EncodeLabels([l] + ls))
            <==> pos < |m| && m[pos] == |l| && Has(m, pos + 1, l) && Has(m, pos + 1 + |l|, EncodeLabels(ls))
  {
    EncodeFirst(l, ls);
    HasSplit(m, pos, [|l|], l + EncodeLabels(ls));
    HasOctet(m, pos, |l|);
    HasSplit(m, pos + 1, l, EncodeLabels(ls));
  }

  lemma DecodeLabel(m: Octets, pos: nat, l: Octets)
    requires IsLabel(l) && pos < |m| && m[pos] == |l| && Has(m, pos + 1, l)
    ensures DecodeName(m, pos) == Prepend([l], DecodeName(m, pos + 1 + |l|))
    ensures Labels(m, pos) == Prepend([l], Labels(m, pos + 1 + |l|))
  {
    HasSlice(m, pos + 1, l);
  }

  /** The first label read, the others behind it. */
  lemma SplitStretch(m: Octets, pos: nat, ls: Name) returns (l: Octets, more: Name, next: nat)
    requires ls != [] && AllLabels(ls) && Has(m, pos, EncodeLabels(ls))
    ensures ls == [l] + more && AllLabels(more) && next == pos + 1 + |l|
    ensures Has(m, next, EncodeLabels(more)) && next + |EncodeLabels(more)| == pos + |EncodeLabels(ls)|
    ensures DecodeName(m, pos) == Prepend([l], DecodeName(m, next))
    ensures Labels(m, pos) == Prepend([l], Labels(m, next))
  {
    hide DecodeName, Labels, Has, EncodeLabels;
    l, more, next := ls[0], ls[1..], pos + 1 + |ls[0]|;
    assert ls == [l] + more && l in ls;
    assert forall k :: k in more ==> k in ls;
    HasFirst(m, pos, l, more);
    EncodeFirst(l, more);
    DecodeLabel(m, pos, l);
  }

  /** Labels in place are read one by one, in the stream and at a target. */
  lemma {:induction false} DecodeLabels(m: Octets, pos: nat, ls: Name)
    requires AllLabels(ls) && Has(m, pos, EncodeLabels(ls))
    ensures DecodeName(m, pos) == Prepend(ls, DecodeName(m, pos + |EncodeLabels(ls)|))
    ensures Labels(m, pos) == Prepend(ls, Labels(m, pos + |EncodeLabels(ls)|))
    decreases |ls|
  {
    if ls == [] {
      hide DecodeName, Labels, Has, Prepend;
      PrependNothing(DecodeName(m, pos));
      PrependNothing(Labels(m, pos));
    } else {
      hide DecodeName, Labels, Has, EncodeLabels, Prepend;
      var l, more, next := SplitStretch(m, pos, ls);
      DecodeLabels(m, next, more);
      var end := pos + |EncodeLabels(ls)|;
      PrependTwice([l], more, DecodeName(m, end));
      PrependTwice([l], more, Labels(m, end));
    }
  }

  lemma PrependNothing(r: Read<Name>)
    ensures Prepend([], r) == r
  {
    if r.Got? {
      assert [] + r.value == r.value;
    }
  }

  /** The stretch of labels in front of what ends them. */
  lemma {:induction false} LabelStretch(m: Octets, pos: nat) returns (ls: Name, n: nat)
    requires DecodeName(m, pos).Got? || Labels(m, pos).Got?
    ensures AllLabels(ls) && Has(m, pos, EncodeLabels(ls)) && n == pos + |EncodeLabels(ls)|
    ensures n < |m| && (m[n] == 0 || m[n] > LABEL_MAX)
    decreases |m| - pos
  {
    var len := m[pos];
    if len == 0 || len > LABEL_MAX {
      ls, n := [], pos;
    } else {
      var l := m[pos + 1..pos + 1 + len];
      var more;
      more, n := LabelStretch(m, pos + 1 + len);
      ls := [l] + more;
      HasSlice(m, pos + 1, l);
      HasFirst(m, pos, l, more);
      EncodeFirst(l, more);
    }
  }

  /** The three forms of a name on the wire: `a` are the labels in place, `b`
      those a pointer stands for. */
  predicate Spells(m: Octets, pos: nat, a: Name, b: Name, end: nat) {
    && AllLabels(a) && AllLabels(b) && Has(m, pos, EncodeLabels(a))
    && var n := pos + |EncodeLabels(a)|;
       || (b == [] && n < |m| && m[n] == 0 && end == n + 1)
       || (n + 2 <= |m| && m[n] > LABEL_MAX && end == n + 2
           && Has(m, PointerOffset(m[n], m[n + 1]), EncodeLabels(b) + [0]))
  }

  /** Labels and the zero octet at a target. */
  lemma LabelsIff(m: Octets, off: nat, ls: Name)
    requires AllLabels(ls)
    ensures Has(m, off, EncodeLabels(ls) + [0]) ==> Labels(m, off) == Got(ls, off + |EncodeLabels(ls)| + 1)
  {
    if Has(m, off, EncodeLabels(ls) + [0]) {
      var end := off + |EncodeLabels(ls)|;
      HasSplit(m, off, EncodeLabels(ls), [0]);
      HasOctet(m, end, 0);
      DecodeLabels(m, off, ls);
      assert Labels(m, end) == Got([], end + 1) && ls + [] == ls;
    }
  }

  lemma LabelsSound(m: Octets, off: nat)
    requires Labels(m, off).Got?
    ensures
      var ls := Labels(m, off).value;
      AllLabels(ls) && Has(m, off, EncodeLabels(ls) + [0])
  {
    var ls, n := LabelStretch(m, off);
    DecodeLabels(m, off, ls);
    EndOfLabels(m, n, ls);
    HasOctet(m, n, 0);
    HasSplit(m, off, EncodeLabels(ls), [0]);
  }

  lemma EndOfLabels(m: Octets, n: nat, ls: Name)
    requires n < |m| && (m[n] == 0 || m[n] > LABEL_MAX) && Labels(m, n).Got?
    ensures m[n] == 0 && Prepend(ls, Labels(m, n)) == Got(ls, n + 1)
  {
    assert ls + [] == ls;
  }

  /** Everything spelled on the wire is read, and the end reported is right. */
  lemma DecodeComplete(m: Octets, pos: nat, a: Name, b: Name, end: nat)
    requires Spells(m, pos, a, b, end)
    ensures DecodeName(m, pos) == Got(a + b, end)
  {
    var n := pos + |EncodeLabels(a)|;
    DecodeLabels(m, pos, a);
    if m[n] > LABEL_MAX {
      LabelsIff(m, PointerOffset(m[n], m[n + 1]), b);
    }
  }

  /** Only what is spelled on the wire is read. */
  lemma DecodeSound(m: Octets, pos: nat) returns (a: Name, b: Name)
    requires DecodeName(m, pos).Got?
    ensures Spells(m, pos, a, b, DecodeName(m, pos).end)
    ensures a + b == DecodeName(m, pos).value
  {
    var n;
    a, n := LabelStretch(m, pos);
    DecodeLabels(m, pos, a);
    b := [];
    if m[n] > LABEL_MAX {
      b := DecodeName(m, n).value;
      LabelsSound(m, PointerOffset(m[n], m[n + 1]));
    }
  }

  /** A name decodes to `ls` up to `end` exactly when it is spelled that way. */
  lemma DecodeIffSpelled(m: Octets, pos: nat, ls: Name, end: nat)
    ensures DecodeName(m, pos) == Got(ls, end) <==> exists a, b :: a + b == ls && Spells(m, pos, a, b, end)
  {
    if DecodeName(m, pos) == Got(ls, end) {
      var a, b := DecodeSound(m, pos);
      assert a + b == ls && Spells(m, pos, a, b, end);
    }
    forall a, b | a + b == ls && Spells(m, pos, a, b, end)
      ensures DecodeName(m, pos) == Got(ls, end)
    {
      DecodeComplete(m, pos, a, b, end);
    }
  }

  /** How the labels at a target end: at the zero octet, at another pointer, where the
      source asserts, or at the end of the bytes. */
  datatype Stop = AtZero | AtPointer | PastEnd

  function TargetStop(m: Octets, off: nat): Stop
    decreases |m| - off
  {
    if off >= |m| then PastEnd
    else if m[off] == 0 then AtZero
    else if m[off] > LABEL_MAX then AtPointer
    else if off + 1 + m[off] > |m| then PastEnd
    else TargetStop(m, off + 1 + m[off])
  }

  lemma {:induction false} TargetStops(m: Octets, off: nat)
    ensures Labels(m, off).Got? <==> TargetStop(m, off).AtZero?
    decreases |m| - off
  {
    if off < |m| && 0 < m[off] <= LABEL_MAX && off + 1 + m[off] <= |m| {
      TargetStops(m, off + 1 + m[off]);
    }
  }

  lemma {:induction false} StopAfter(m: Octets, off: nat, ls: Name)
    requires AllLabels(ls) && Has(m, off, EncodeLabels(ls))
    ensures TargetStop(m, off) == TargetStop(m, off + |EncodeLabels(ls)|)
    decreases |ls|
  {
    if ls != [] {
      assert [ls[0]] + ls[1..] == ls;
      HasFirst(m, off, ls[0], ls[1..]);
      EncodeFirst(ls[0], ls[1..]);
      HasSlice(m, off + 1, ls[0]);
      StopAfter(m, off + 1 + |ls[0]|, ls[1..]);
    }
  }

  /** Labels at a target that run into another pointer fail the assertion, and labels that
      run out of bytes are refused. */
  lemma ChainedPointerRefused(m: Octets, off: nat, ls: Name)
    requires AllLabels(ls) && Has(m, off, EncodeLabels(ls))
    ensures
      var n := off + |EncodeLabels(ls)|;
      && (n < |m| && m[n] > LABEL_MAX ==> Labels(m, off) == Refused && TargetStop(m, off) == AtPointer)
      && (n >= |m| ==> Labels(m, off) == Refused && TargetStop(m, off) == PastEnd)
  {
    DecodeLabels(m, off, ls);
    StopAfter(m, off, ls);
  }

  // ------------------------------------------------------------------ round trip

  lemma {:induction false} KeptIs(ls: Name)
    ensures forall l :: l in Kept(ls) <==> l in ls && Packed(l)
    ensures Kept(ls) == ls <==> forall l :: l in ls ==> Packed(l)
    ensures |Kept(ls)| <= |ls|
  {
    if ls != [] {
      KeptIs(ls[1..]);
      assert ls == [ls[0]] + ls[1..];
      assert ls[0] in ls;
      if Packed(ls[0]) {
        assert Kept(ls)[1..] == Kept(ls[1..]);
      }
    }
  }

  lemma {:induction false} KeptLabels(ls: Name)
    requires forall l :: l in ls ==> |l| <= LABEL_MAX
    ensures AllLabels(Kept(ls))
  {
    if ls != [] {
      assert ls[0] in ls && forall l :: l in ls[1..] ==> l in ls;
      KeptLabels(ls[1..]);
    }
  }

  /** What unpacking yields consists of labels. */
  lemma DecodedLabels(m: Octets, pos: nat)
    requires DecodeName(m, pos).Got?
    ensures AllLabels(DecodeName(m, pos).value)
  {
    var a, b := DecodeSound(m, pos);
  }

  predicate Short(ls: Name) {
    forall l :: l in ls ==> |l| <= LABEL_MAX
  }

  /** Packing drops no label that is too long. */
  lemma ShortIffKept(ls: Name)
    ensures Short(ls) <==> Short(Kept(ls))
    ensures AllLabels(Kept(ls)) ==> Short(ls)
  {
    KeptIs(ls);
  }

  /** Packing then unpacking keeps the packed labels in order exactly when no label has more
      than 63 octets: a longer one reads as a pointer, or with its length cut to an octet. */
  lemma NameRoundTrip(m: Octets, pos: nat, ls: Name)
    requires Has(m, pos, EncodeName(ls))
    ensures DecodeName(m, pos) == Got(Kept(ls), pos + |EncodeName(ls)|) <==> Short(ls)
  {
    if Short(ls) {
      KeptLabels(ls);
      assert Kept(ls) + [] == Kept(ls);
      HasSplit(m, pos, EncodeLabels(Kept(ls)), [0]);
      HasOctet(m, pos + |EncodeLabels(Kept(ls))|, 0);
      DecodeComplete(m, pos, Kept(ls), [], pos + |EncodeName(ls)|);
    } else if DecodeName(m, pos).Got? {
      DecodedLabels(m, pos);
      ShortIffKept(ls);
    }
  }

  // ------------------------------------------------- the line as the source has it

  /** `len & 63 << 8` masks with 63 << 8, which no octet meets. */
  function CodedOffset(hi: Byte, lo: Byte): nat {
    lo
  }

  /** The written line finds exactly the targets in the first 256 octets. */
  lemma CodedOffsetIsRight(hi: Byte, lo: Byte)
    ensures CodedOffset(hi, lo) == PointerOffset(hi, lo) <==> PointerOffset(hi, lo) < 256
  {
  }

  lemma CodedOffsetFails()
    ensures CodedOffset(193, 5) == 5 && PointerOffset(193, 5) == 261
  {
  }

  // ----------------------------------------------------------------- text form

  function Lower(c: Byte): Byte {
    if 65 <= c <= 90 then c + 32 else c
  }

  function LowerAll(s: Octets): (r: Octets)
    ensures |r| == |s| && forall i :: 0 <= i < |s| ==> r[i] == Lower(s[i])
  {
    seq(|s|, i requires 0 <= i < |s| => Lower(s[i]))
  }

  /** Digits, lower-case letters, hyphen, underscore, slash and dot. */
  predicate ValidChar(c: Byte) {
    45 <= c <= 57 || 97 <= c <= 122 || c == 95
  }

  const DIGITS: string := "0123456789"
  const UPPER: string := "ABCDEFGHIJKLMNOPQRSTUVWXYZ"
  const LOWER: string := "abcdefghijklmnopqrstuvwxyz"
  const OTHERS: string := "-_/."

  /** Consecutive characters, from `first` on. */
  predicate Consecutive(s: string, first: nat) {
    forall i :: 0 <= i < |s| ==> s[i] as int == first + i
  }

  lemma AmongConsecutive(c: Byte, s: string, first: nat)
    requires Consecutive(s, first)
    ensures (c as char) in s <==> first <= c < first + |s|
  {
    if first <= c < first + |s| {
      assert s[c - first] == c as char;
    }
  }

  /** The valid characters are those of the source's list. */
  lemma ValidCharIs(c: Byte)
    ensures ValidChar(c) <==> (c as char) in DIGITS || (c as char) in LOWER || (c as char) in OTHERS
  {
    AmongConsecutive(c, DIGITS, 48);
    AmongConsecutive(c, LOWER, 97);
    assert OTHERS == ['-', '_', '/', '.'];
  }

  /** Each capital letter becomes its small one, and nothing else changes. */
  lemma LowerIs(c: Byte)
    ensures forall i :: 0 <= i < 26 && (c as char) == UPPER[i] ==> (Lower(c) as char) == LOWER[i]
    ensures (c as char) !in UPPER ==> Lower(c) == c
  {
    AmongConsecutive(c, UPPER, 65);
    assert Consecutive(LOWER, 97);
  }

  predicate ValidText(s: Octets) {
    |s| <= TEXT_MAX && forall i :: 0 <= i < |s| ==> ValidChar(Lower(s[i]))
  }

  /** The text with a dot at its end. */
  function Dotted(s: Octets): Octets
    requires s != []
  {
    if s[|s| - 1] == DOT then s else s + [DOT]
  }

  /** It has one more dot exactly when there was none at the end. */
  lemma DottedIs(s: Octets)
    requires s != []
    ensures s <= Dotted(s) && Dotted(s)[|Dotted(s)| - 1] == DOT
    ensures |Dotted(s)| == |s| + (if s[|s| - 1] as char == '.' then 0 else 1)
  {
  }

  /** `String`: every part followed by a dot. */
  function Text(parts: Name): Octets {
    if parts == [] then [] else parts[0] + [DOT] + Text(parts[1..])
  }

  lemma {:induction false} TextSnoc(parts: Name, p: Octets)
    ensures Text(parts + [p]) == Text(parts) + p + [DOT]
  {
    if parts != [] {
      assert (parts + [p])[1..] == parts[1..] + [p];
      TextSnoc(parts[1..], p);
      SumAssociates(parts[0] + [DOT], Text(parts[1..]) + p, [DOT]);
      SumAssociates(parts[0] + [DOT], Text(parts[1..]), p);
    } else {
      assert [] + [p] == [p] && Text([p][1..]) == [];
      assert Text([p]) == p + [DOT] + [] == [] + p + [DOT];
    }
  }

  predicate DotFree(parts: Name) {
    forall p :: p in parts ==> DOT !in p
  }

  /** A dot-free string does not reach past a dot. */
  lemma DotStops(x: Octets, u: Octets, y: Octets, v: Octets)
    requires DOT !in x && x + ([DOT] + u) == y + ([DOT] + v)
    ensures |x| <= |y|
  {
    assert (y + ([DOT] + v))[|y|] == DOT;
    if |y| < |x| {
      assert false;
    }
  }

  /** The text determines its dot-free parts. */
  lemma {:induction false} TextDetermines(a: Name, b: Name)
    requires DotFree(a) && DotFree(b) && Text(a) == Text(b)
    ensures a == b
  {
    if a != [] && b != [] {
      var x, y, u, v := a[0], b[0], Text(a[1..]), Text(b[1..]);
      SumAssociates(x, [DOT], u);
      SumAssociates(y, [DOT], v);
      assert x in a && y in b && x + ([DOT] + u) == y + ([DOT] + v);
      DotStops(x, u, y, v);
      DotStops(y, v, x, u);
      assert x == Text(a)[..|x|] == y;
      assert u == Text(a)[|x| + 1..] == v;
      TextDetermines(a[1..], b[1..]);
      assert a == [x] + a[1..] && b == [y] + b[1..];
    }
  }

  method NextDot(name: Octets, from: nat) returns (pos: nat)
    requires from < |name| && name[|name| - 1] == DOT
    ensures from <= pos < |name| && name[pos] == DOT && DOT !in name[from..pos]
  {
    pos := from;
    while name[pos] != DOT
      invariant from <= pos < |name|
      invariant DOT !in name[from..pos]
      decreases |name| - pos
    {
      assert name[from..pos + 1] == name[from..pos] + [name[pos]];
      pos := pos + 1;
    }
  }

  /** `FromString` on a fresh object: the parts, none of which holds a dot, spell
      the lower-cased text with a dot at its end. */
  method FromString(s: Octets) returns (ok: bool, parts: Name)
    requires s != []
    ensures ok <==> ValidText(s)
    ensures ok ==> Text(parts) == Dotted(LowerAll(s))
    ensures ok ==> DotFree(parts)
    ensures !ok ==> parts == []
  {
    parts := [];
    if |s| > TEXT_MAX {
      return false, [];
    }
    var name := LowerAll(s);
    if exists i :: 0 <= i < |name| && !ValidChar(name[i]) {
      return false, [];
    }
    name := Dotted(name);
    var opos := 0;
    while opos < |name|
      invariant opos <= |name|
      invariant Text(parts) == name[..opos]
      invariant DotFree(parts)
    {
      var pos := NextDot(name, opos);
      TextSnoc(parts, name[opos..pos]);
      assert name[..pos + 1] == name[..opos] + name[opos..pos] + [DOT];
      parts := parts + [name[opos..pos]];
      opos := pos + 1;
    }
    ok := true;
  }
}
