/**
 The serialisation code of netb/DnsRecord.cpp and netb/DnsMessage.cpp over a
 `StreamBuffer`, proved to read and write exactly the wire forms of `DnsMessages`.
 */
module DnsCodec {
  import opened Bytes
  import opened StreamBuffers
  import opened Streams
  import opened DnsNames
  import opened DnsMessages

  // ------------------------------------------------------------------- names

  lemma LabelAt(m: Octets, pos: nat)
    requires pos < |m| && 0 < m[pos] <= LABEL_MAX && pos + 1 + m[pos] <= |m|
    ensures
      var l, next := m[pos + 1..pos + 1 + m[pos]], pos + 1 + m[pos];
      DecodeName(m, pos) == Prepend([l], DecodeName(m, next)) && Labels(m, pos) == Prepend([l], Labels(m, next))
  {
  }

  /** The ways reading a name can stop. */
  lemma NameStops(m: Octets, pos: nat)
    ensures pos >= |m| ==> DecodeName(m, pos) == Refused
    ensures pos < |m| && m[pos] == 0 ==> DecodeName(m, pos) == Got([], pos + 1)
    ensures pos < |m| && 0 < m[pos] <= LABEL_MAX && pos + 1 + m[pos] > |m| ==> DecodeName(m, pos) == Refused
    ensures pos + 1 == |m| && m[pos] > LABEL_MAX ==> DecodeName(m, pos) == Refused
    ensures pos + 2 <= |m| && m[pos] > LABEL_MAX ==>
              var r := Labels(m, PointerOffset(m[pos], m[pos + 1]));
              DecodeName(m, pos) == if r.Got? then Got(r.value, pos + 2) else Refused
  {
  }

  /** A 16-bit counter of what has been read or written. */
  lemma WrapAdd(n: nat, k: nat)
    ensures (n % 0x1_0000 + k) % 0x1_0000 == (n + k) % 0x1_0000
  {
    assert n == n / 0x1_0000 * 0x1_0000 + n % 0x1_0000;
    assert n + k == (n % 0x1_0000 + k) + n / 0x1_0000 * 0x1_0000;
  }

  /** A 16-bit counter. */
  function Wrap(n: nat): U16 {
    n % 0x1_0000
  }

  lemma WrapSum(n: nat, k: nat)
    ensures Wrap((Wrap(n) as nat) + k) == Wrap(n + k) && Wrap(0) == 0
  {
  }

  method UnpackName(b: StreamBuffer) returns (ok: bool, name: Name, rlen: U16)
    requires b.Valid()
    modifies b`rpos
    ensures b.Valid() && b.Live() == old(b.Live())
    ensures ok <==> DecodeName(b.Live(), old(b.Pos())).Got?
    ensures ok ==> Got(name, b.Pos()) == DecodeName(b.Live(), old(b.Pos()))
    ensures ok ==> b.Pos() >= old(b.Pos()) && rlen == Wrap(b.Pos() - old(b.Pos()))
  {
    hide DecodeName, Labels, PointerOffset, Wrap;
    ghost var m, start := b.Live(), b.Pos();
    ghost var goal := DecodeName(m, start);
    name, rlen := [], 0;
    WrapSum(0, 0);
    var len: Byte := 0;
    PrependNothing(goal);
    while true
      invariant b.Valid() && b.Live() == m && start <= b.Pos()
      invariant goal == Prepend(name, DecodeName(m, b.Pos()))
      invariant rlen == Wrap(b.Pos() - start)
      decreases |m| - b.Pos()
    {
      ghost var pos := b.Pos();
      NameStops(m, pos);
      ok, len := ReadU8(b);
      if !ok {
        return false, [], 0;
      }
      WrapSum(pos - start, 1);
      rlen := Wrap(rlen + 1);
      if len == 0 {
        assert name + [] == name;
        return;
      }
      if len > LABEL_MAX {
        break;
      }
      var s;
      ok, s := ReadString(b, len);
      if !ok {
        return false, [], 0;
      }
      LabelAt(m, pos);
      PrependTwice(name, [s], DecodeName(m, b.Pos()));
      WrapSum(pos + 1 - start, len);
      rlen := Wrap(rlen + len);
      name := name + [s];
    }
    var tail;
    ok, tail := UnpackPointer(b, len);
    if ok {
      WrapSum(b.Pos() - 1 - start, 1);
    }
    rlen := Wrap(rlen + 1);
    name := name + tail;
  }

  /** The second octet of a pointer and the labels it stands for. */
  method UnpackPointer(b: StreamBuffer, hi: Byte) returns (ok: bool, tail: Name)
    requires b.Valid() && b.Pos() > 0 && hi == b.Live()[b.Pos() - 1] && hi > LABEL_MAX
    modifies b`rpos
    ensures b.Valid() && b.Live() == old(b.Live())
    ensures ok <==> DecodeName(b.Live(), old(b.Pos()) - 1).Got?
    ensures ok ==> Got(tail, b.Pos()) == DecodeName(b.Live(), old(b.Pos()) - 1) && b.Pos() == old(b.Pos()) + 1
    ensures old(b.Pos()) <= b.Pos()
  {
    hide DecodeName, Labels, PointerOffset;
    NameStops(b.Live(), b.Pos() - 1);
    var lo;
    tail := [];
    ok, lo := ReadU8(b);
    if ok {
      var asserted;
      ok, asserted, tail := FollowPointer(b, PointerOffset(hi, lo));
    }
  }

  /** The labels stored at an offset from the start of the accessible bytes. A second pointer
      there fails the assertion of the source. */
  method FollowPointer(b: StreamBuffer, target: nat) returns (ok: bool, asserted: bool, name: Name)
    requires b.Valid()
    ensures ok <==> TargetStop(b.Live(), target).AtZero?
    ensures asserted <==> TargetStop(b.Live(), target).AtPointer?
    ensures ok <==> Labels(b.Live(), target).Got?
    ensures ok ==> name == Labels(b.Live(), target).value
  {
    ghost var m := b.Live();
    TargetStops(m, target);
    var offset := target;
    name, asserted := [], false;
    PrependNothing(Labels(m, target));
    while true
      invariant Labels(m, target) == Prepend(name, Labels(m, offset))
      invariant TargetStop(m, target) == TargetStop(m, offset)
      invariant !asserted
      decreases |m| - offset
    {
      var len;
      ok, len := PeekU8(b, offset);
      if !ok {
        return;
      }
      if len == 0 {
        assert name + [] == name;
        return;
      }
      if len > LABEL_MAX {
        return false, true, [];
      }
      var s;
      ok, s := PeekString(b, offset + 1, len);
      if !ok {
        return;
      }
      LabelAt(m, offset);
      offset := offset + 1 + len;
      PrependTwice(name, [s], Labels(m, offset));
      name := name + [s];
    }
  }

  lemma {:induction false} KeptSum(a: Name, b: Name)
    ensures Kept(a + b) == Kept(a) + Kept(b)
    decreases |a|
  {
    if a == [] {
      assert a + b == b && Kept(a) + Kept(b) == Kept(b);
    } else {
      assert (a + b)[1..] == a[1..] + b;
      KeptSum(a[1..], b);
      if Packed(a[0]) {
        assert [a[0]] + (Kept(a[1..]) + Kept(b)) == [a[0]] + Kept(a[1..]) + Kept(b);
      }
    }
  }

  lemma {:induction false} LabelsSum(a: Name, b: Name)
    ensures EncodeLabels(a + b) == EncodeLabels(a) + EncodeLabels(b)
    decreases |a|
  {
    if a == [] {
      assert a + b == b && EncodeLabels(a) + EncodeLabels(b) == EncodeLabels(b);
    } else {
      assert (a + b)[1..] == a[1..] + b;
      LabelsSum(a[1..], b);
      SumAssociates([|a[0]| % 256] + a[0], EncodeLabels(a[1..]), EncodeLabels(b));
    }
  }

  /** What packing adds for the label at `i`, and what is still to come. */
  lemma NameAt(name: Name, i: nat)
    requires i < |name|
    ensures
      var l, sent := name[i], EncodeLabels(Kept(name[..i]));
      var piece := if Packed(l) then [|l| % 256] + l else [];
      && EncodeLabels(Kept(name[..i + 1])) == sent + piece
      && |EncodeName(name)| >= |sent| + |piece| + 1
  {
    var l := name[i];
    assert name[..i + 1] == name[..i] + [l] && name == name[..i + 1] + name[i + 1..];
    KeptSum(name[..i], [l]);
    KeptSum(name[..i + 1], name[i + 1..]);
    LabelsSum(Kept(name[..i]), Kept([l]));
    LabelsSum(Kept(name[..i + 1]), Kept(name[i + 1..]));
    var single: Name := [l];
    assert single[1..] == [];
    if Packed(l) {
      assert Kept(single) == single;
      assert EncodeLabels(single) == [|l| % 256] + l + [];
    } else {
      assert Kept(single) == [];
    }
  }

  method PackLabel(b: StreamBuffer, s: Octets) returns (ok: bool)
    requires b.Valid()
    modifies b`bytes, b`opos, b`rpos, b`wpos
    ensures b.Valid() && b.Pos() == old(b.Pos())
    ensures b.opos == OriginAfter(b.limit, old(b.opos), old(b.wpos), |b.Live()| - |old(b.Live())|)
    ensures |b.Live()| >= |old(b.Live())|
    ensures ok <==> Admits(b.limit, |old(b.Live())|, 1 + |s|)
    ensures ok ==> b.Live() == old(b.Live()) + ([|s| % 256] + s)
  {
    SumAssociates(b.Live(), [|s| % 256], s);
    var at;
    ok, at := WriteU8(b, |s| % 256);
    if ok {
      ok, at := b.Write(s);
    }
  }

  method PackName(b: StreamBuffer, name: Name) returns (ok: bool, wlen: U16)
    requires b.Valid()
    modifies b`bytes, b`opos, b`rpos, b`wpos
    ensures b.Valid() && b.Pos() == old(b.Pos())
    ensures b.opos == OriginAfter(b.limit, old(b.opos), old(b.wpos), |b.Live()| - |old(b.Live())|)
    ensures |b.Live()| >= |old(b.Live())|
    ensures ok <==> Admits(b.limit, |old(b.Live())|, |EncodeName(name)|)
    ensures ok ==> b.Live() == old(b.Live()) + EncodeName(name) && wlen == |EncodeName(name)| % 0x1_0000
  {
    hide EncodeName, EncodeLabels, Kept;
    ghost var was := b.Live();
    ghost var sent: Octets := [];
    ghost var total := EncodeName(name);
    wlen := 0;
    var at;
    PackedEnds(name);
    assert was + [] == was;
    for i := 0 to |name|
      invariant b.Valid() && b.Pos() == old(b.Pos())
      invariant b.opos == OriginAfter(b.limit, old(b.opos), old(b.wpos), |b.Live()| - |old(b.Live())|)
      invariant b.limit == old(b.limit)
      invariant sent == EncodeLabels(Kept(name[..i])) && b.Live() == was + sent
      invariant wlen == |sent| % 0x1_0000
    {
      var s := name[i];
      NameAt(name, i);
      if s != [] && s != [DOT] {
        ok := PackLabel(b, s);
        if !ok {
          return;
        }
        SumAssociates(was, sent, [|s| % 256] + s);
        WrapAdd(|sent|, 1 + |s|);
        sent := sent + ([|s| % 256] + s);
        wlen := (wlen + 1 + |s|) % 0x1_0000;
      }
    }
    assert name[..|name|] == name;
    SumAssociates(was, sent, [0]);
    WrapAdd(|sent|, 1);
    ok, at := WriteU8(b, 0);
    wlen := (wlen + 1) % 0x1_0000;
  }

  lemma PackedEnds(name: Name)
    ensures name[..0] == [] && EncodeLabels(Kept([])) == []
    ensures EncodeName(name) == EncodeLabels(Kept(name)) + [0]
  {
  }

  // -------------------------------------------------------------- record data

  method WriteRData(b: StreamBuffer, d: RData) returns (ok: bool, rdlen: U16)
    requires b.Valid() && (d.TXT? ==> |d.text| <= 256)
    modifies b`bytes, b`opos, b`rpos, b`wpos
    ensures b.Valid() && b.Pos() == old(b.Pos())
    ensures b.opos == OriginAfter(b.limit, old(b.opos), old(b.wpos), |b.Live()| - |old(b.Live())|)
    ensures |b.Live()| >= |old(b.Live())|
    ensures ok <==> Admits(b.limit, |old(b.Live())|, |EncodeRData(d)|)
    ensures ok ==> b.Live() == old(b.Live()) + EncodeRData(d) && rdlen == RDataLength(d)
  {
    hide EncodeName;
    ghost var was := b.Live();
    var at, len;
    rdlen := 0;
    match d
    case A(ip) =>
      rdlen := 4;
      ok, at := WriteU32(b, ip);
    case CNAME(name) =>
      ok, len := PackName(b, name);
      rdlen := (rdlen + len) % 0x1_0000;
    case SOA =>
      assert was + [] == was;
      ok := true;
    case MX(preference, name) =>
      ok, at := WriteU16(b, preference);
      if !ok {
        return;
      }
      rdlen := rdlen + 2;
      SumAssociates(was, PutU16(preference), EncodeName(name));
      ok, len := PackName(b, name);
      WrapAdd(|EncodeName(name)|, 2);
      rdlen := (rdlen + len) % 0x1_0000;
    case TXT(text) =>
      ok := PackLabel(b, text);
      rdlen := 1 + |text|;
  }

  method ReadRData(b: StreamBuffer, rtype: U16, rdlen: U16) returns (ok: bool, d: RData)
    requires b.Valid()
    modifies b`rpos
    ensures b.Valid() && b.Live() == old(b.Live())
    ensures ok <==> DecodeRData(b.Live(), old(b.Pos()), rtype, rdlen).Got?
    ensures ok ==> Got(d, b.Pos()) == DecodeRData(b.Live(), old(b.Pos()), rtype, rdlen)
  {
    hide DecodeName;
    d := SOA;
    if rtype == 1 {
      if rdlen != 4 {
        return false, d;
      }
      var ip;
      ok, ip := ReadU32(b);
      d := A(ip);
    } else if rtype == 5 {
      var name, len;
      ok, name, len := UnpackName(b);
      ok := ok && len == rdlen;
      d := CNAME(name);
    } else if rtype == 6 {
      ok := true;
    } else if rtype == 15 {
      var preference, name, len;
      ok, preference := ReadU16(b);
      if !ok {
        return;
      }
      ok, name, len := UnpackName(b);
      ok := ok && rdlen == 2 + (len as int);
      d := MX(preference, name);
    } else if rtype == 16 {
      var len, text;
      ok, len := ReadU8(b);
      if !ok || len != (rdlen as int) - 1 {
        return false, d;
      }
      ok, text := ReadString(b, len);
      d := TXT(text);
    } else {
      ok := false;
    }
  }

  // ------------------------------------------------------------------ records

  /** Patching two octets changes them and nothing else. */
  lemma PatchU16(pre: Octets, x: U16, post: Octets, y: U16)
    ensures Overwrite(pre + PutU16(x) + post, |pre|, PutU16(y)) == pre + PutU16(y) + post
  {
    var s := pre + PutU16(x) + post;
    assert s[..|pre|] == pre && s[|pre| + 2..] == post;
  }

  /** A patch that misses a field still 0 leaves it 0. */
  lemma PatchMisses(pre: Octets, post: Octets, y: U16, o: nat)
    requires y != 0 && o > 0 && o <= |post|
    ensures Overwrite(pre + PutU16(0) + post, |pre| + o, PutU16(y)) != pre + PutU16(y) + post
  {
    var s, t := pre + PutU16(0) + post, pre + PutU16(y) + post;
    var p := Overwrite(s, |pre| + o, PutU16(y));
    assert p[|pre|] == s[|pre|] == 0 && t[|pre|] == y / 256 && t[|pre| + 1] == y % 256;
    if o == 1 {
      assert p[|pre| + 1] == y / 256;
    } else {
      assert p[|pre| + 1] == s[|pre| + 1] == 0;
    }
  }

  /** The origin of the buffer when the fields in front of the data have been written. */
  function PatchOrigin(limit: nat, opos: nat, wpos: nat, r: Record): nat {
    OriginAfter(limit, opos, wpos, |EncodeName(r.name)| + 10)
  }

  /** A record as it is made, with RDLENGTH 0, and with data. */
  predicate NewWithData(r: Record) {
    r.rdlen == 0 && RDataLength(r.rdata) != 0
  }

  /**
   Write a record. RDLENGTH is first written with its old value, and patched when the
   data has been written. The place of the patch was counted from the start of the
   container, and the patch counts it from the origin the buffer had then. So the record is
   right when that origin is 0, which for a buffer with flushed bytes takes a limit that made
   it move the others to the front; otherwise the patch of a new record with data misses, or
   is refused where the origin reaches past the data.
   */
  method WriteRecord(b: StreamBuffer, r: Record) returns (ok: bool, r': Record)
    requires b.Valid() && (r.rdata.TXT? ==> |r.rdata.text| <= 256)
    modifies b`bytes, b`opos, b`rpos, b`wpos
    ensures b.Valid() && b.Pos() == old(b.Pos())
    ensures b.opos == OriginAfter(b.limit, old(b.opos), old(b.wpos), |b.Live()| - |old(b.Live())|)
    ensures |b.Live()| >= |old(b.Live())|
    ensures ok <==> Admits(b.limit, |old(b.Live())|, |EncodeRecord(r)|)
                    && PatchOrigin(b.limit, old(b.opos), old(b.wpos), r) <= |EncodeRData(r.rdata)|
    ensures ok ==> old(b.Live()) <= b.Live() && |b.Live()| == |old(b.Live())| + |EncodeRecord(r)|
    ensures ok && PatchOrigin(b.limit, old(b.opos), old(b.wpos), r) == 0 ==> b.Live() == old(b.Live()) + EncodeRecord(r)
    ensures ok && NewWithData(r) ==>
              (b.Live() == old(b.Live()) + EncodeRecord(r)
               <==> PatchOrigin(b.limit, old(b.opos), old(b.wpos), r) == 0)
    ensures ok ==> r' == r.(rdlen := RDataLength(r.rdata))
  {
    hide EncodeName, EncodeRData, EncodeRecord, RDataLength, PutU16, PutU32, Overwrite, NewWithData, EncodeFields;
    ghost var was, limit := b.Live(), b.limit;
    r' := r;
    var len;
    ok, len := PackName(b, r.name);
    RecordSize(r);
    if !ok {
      return;
    }
    var offset;
    ok, offset := WriteFields(b, r);
    if !ok {
      return;
    }
    ghost var origin := b.opos;
    assert origin == PatchOrigin(limit, old(b.opos), old(b.wpos), r);
    var rdlen;
    ok, rdlen := WriteRData(b, r.rdata);
    if !ok {
      return;
    }
    r' := r.(rdlen := rdlen);
    if origin <= |EncodeRData(r.rdata)| {
      RecordPatched(was, r, origin);
    }
    ok := UpdateU16(b, offset, rdlen);
  }

  lemma RecordSize(r: Record)
    ensures |EncodeRecord(r)| == |EncodeName(r.name)| + 10 + |EncodeRData(r.rdata)|
  {
  }

  /** What the patch makes of a record written with its old RDLENGTH. */
  lemma RecordPatched(was: Octets, r: Record, origin: nat)
    requires origin <= |EncodeRData(r.rdata)|
    ensures
      var u := was + EncodeName(r.name) + EncodeFields(r.rtype, r.rclass, r.ttl, r.rdlen) + EncodeRData(r.rdata);
      var at := |was| + |EncodeName(r.name)| + 8 + origin;
      && at + 2 <= |u|
      && var p := Overwrite(u, at, PutU16(RDataLength(r.rdata)));
      && was <= p
      && (origin == 0 ==> p == was + EncodeRecord(r))
      && (NewWithData(r) && origin > 0 ==> p != was + EncodeRecord(r))
  {
    hide EncodeName, EncodeRData, RDataLength, PutU16, PutU32, Overwrite;
    var name, data, y := EncodeName(r.name), EncodeRData(r.rdata), RDataLength(r.rdata);
    var front := PutU16(r.rtype) + PutU16(r.rclass) + PutU32(r.ttl);
    FieldsPatched(was, name, front, r.rdlen, data, y);
    SumAssociates(was, name, front + PutU16(r.rdlen));
    SumAssociates(was, name + (front + PutU16(r.rdlen)), data);
    PatchKeeps(was, name + (front + PutU16(r.rdlen)) + data, |name| + 8 + origin, y);
    if NewWithData(r) && origin > 0 {
      PatchMisses(was + name + front, data, y, origin);
    }
  }

  /** A patch behind the first bytes leaves them. */
  lemma PatchKeeps(was: Octets, rest: Octets, at: nat, y: U16)
    ensures at + 2 <= |rest| ==> was <= Overwrite(was + rest, |was| + at, PutU16(y))
  {
  }

  lemma FieldsPatched(was: Octets, name: Octets, front: Octets, x: U16, data: Octets, y: U16)
    ensures was + name + (front + PutU16(x)) + data == was + name + front + PutU16(x) + data
    ensures was + name + front + PutU16(y) + data == was + (name + (front + PutU16(y)) + data)
    ensures Overwrite(was + name + front + PutU16(x) + data, |was + name + front|, PutU16(y))
         == was + (name + (front + PutU16(y)) + data)
  {
    hide PutU16;
    PatchU16(was + name + front, x, data, y);
    SumAssociates(was + name, front, PutU16(x));
    SumAssociates(was + name, front, PutU16(y));
    SumAssociates(was, name, front + PutU16(y));
    SumAssociates(was, name + (front + PutU16(y)), data);
  }

  /** The fields between name and data; the offset is that of RDLENGTH. */
  method WriteFields(b: StreamBuffer, r: Record) returns (ok: bool, offset: nat)
    requires b.Valid()
    modifies b`bytes, b`opos, b`rpos, b`wpos
    ensures b.Valid() && b.Pos() == old(b.Pos())
    ensures b.opos == OriginAfter(b.limit, old(b.opos), old(b.wpos), |b.Live()| - |old(b.Live())|)
    ensures |b.Live()| >= |old(b.Live())|
    ensures ok <==> Admits(b.limit, |old(b.Live())|, 10)
    ensures ok ==> b.Live() == old(b.Live()) + EncodeFields(r.rtype, r.rclass, r.ttl, r.rdlen)
    ensures ok ==> offset == b.opos + |old(b.Live())| + 8
  {
    hide PutU16, PutU32;
    ghost var was := b.Live();
    ok, offset := WriteU16(b, r.rtype);
    if !ok {
      return;
    }
    ok, offset := WriteU16(b, r.rclass);
    if !ok {
      return;
    }
    SumAssociates(was, PutU16(r.rtype), PutU16(r.rclass));
    ok, offset := WriteU32(b, r.ttl);
    if !ok {
      return;
    }
    SumAssociates(was, PutU16(r.rtype) + PutU16(r.rclass), PutU32(r.ttl));
    ok, offset := WriteU16(b, r.rdlen);
    SumAssociates(was, PutU16(r.rtype) + PutU16(r.rclass) + PutU32(r.ttl), PutU16(r.rdlen));
  }

  method ReadRecord(b: StreamBuffer) returns (ok: bool, r: Record)
    requires b.Valid()
    modifies b`rpos
    ensures b.Valid() && b.Live() == old(b.Live())
    ensures ok <==> DecodeRecord(b.Live(), old(b.Pos())).Got?
    ensures ok ==> Got(r, b.Pos()) == DecodeRecord(b.Live(), old(b.Pos()))
  {
    hide DecodeName, DecodeRData, GetU16, GetU32;
    r := Record([], 0, 0, 0, 0, SOA);
    var name, rtype, rclass, ttl, rdlen, rdata, len;
    ok, name, len := UnpackName(b);
    if !ok {
      return;
    }
    ok, rtype := ReadU16(b);
    if !ok {
      return;
    }
    ok, rclass := ReadU16(b);
    if !ok {
      return;
    }
    ok, ttl := ReadU32(b);
    if !ok {
      return;
    }
    ok, rdlen := ReadU16(b);
    if !ok {
      return;
    }
    ok, rdata := ReadRData(b, rtype, rdlen);
    r := Record(name, rtype, rclass, ttl, rdlen, rdata);
  }

  // ---------------------------------------------------------------- questions

  method WriteQuestion(b: StreamBuffer, q: Question) returns (ok: bool)
    requires b.Valid()
    modifies b`bytes, b`opos, b`rpos, b`wpos
    ensures b.Valid() && b.Pos() == old(b.Pos())
    ensures b.opos == OriginAfter(b.limit, old(b.opos), old(b.wpos), |b.Live()| - |old(b.Live())|)
    ensures |b.Live()| >= |old(b.Live())|
    ensures ok <==> Admits(b.limit, |old(b.Live())|, |EncodeQuestion(q)|)
    ensures ok ==> b.Live() == old(b.Live()) + EncodeQuestion(q)
  {
    hide EncodeName, PutU16;
    ghost var was := b.Live();
    var len, at;
    ok, len := PackName(b, q.name);
    if !ok {
      return;
    }
    ok, at := WriteU16(b, q.qtype);
    if !ok {
      return;
    }
    SumAssociates(was, EncodeName(q.name), PutU16(q.qtype));
    ok, at := WriteU16(b, q.qclass);
    SumAssociates(was, EncodeName(q.name) + PutU16(q.qtype), PutU16(q.qclass));
  }

  method ReadQuestion(b: StreamBuffer) returns (ok: bool, q: Question)
    requires b.Valid()
    modifies b`rpos
    ensures b.Valid() && b.Live() == old(b.Live())
    ensures ok <==> DecodeQuestion(b.Live(), old(b.Pos())).Got?
    ensures ok ==> Got(q, b.Pos()) == DecodeQuestion(b.Live(), old(b.Pos()))
  {
    hide DecodeName, GetU16;
    q := Question([], 0, 0);
    var name, qtype, qclass, len;
    ok, name, len := UnpackName(b);
    if !ok {
      return;
    }
    ok, qtype := ReadU16(b);
    if !ok {
      return;
    }
    ok, qclass := ReadU16(b);
    q := Question(name, qtype, qclass);
  }

  // ------------------------------------------------------------------- header

  /** Two counts of a header. */
  method WritePair(b: StreamBuffer, v: U16, w: U16) returns (ok: bool)
    requires b.Valid()
    modifies b`bytes, b`opos, b`rpos, b`wpos
    ensures b.Valid() && b.Pos() == old(b.Pos())
    ensures b.opos == OriginAfter(b.limit, old(b.opos), old(b.wpos), |b.Live()| - |old(b.Live())|)
    ensures |b.Live()| >= |old(b.Live())|
    ensures ok <==> Admits(b.limit, |old(b.Live())|, 4)
    ensures ok ==> b.Live() == old(b.Live()) + PutU16(v) + PutU16(w)
  {
    hide PutU16;
    var at;
    ok, at := WriteU16(b, v);
    if ok {
      ok, at := WriteU16(b, w);
    }
  }

  method WriteFlags(b: StreamBuffer, f: Flags) returns (ok: bool)
    requires b.Valid()
    modifies b`bytes, b`opos, b`rpos, b`wpos
    ensures b.Valid() && b.Pos() == old(b.Pos())
    ensures b.opos == OriginAfter(b.limit, old(b.opos), old(b.wpos), |b.Live()| - |old(b.Live())|)
    ensures |b.Live()| >= |old(b.Live())|
    ensures ok <==> Admits(b.limit, |old(b.Live())|, 2)
    ensures ok ==> b.Live() == old(b.Live()) + EncodeFlags(f)
  {
    ghost var was := b.Live();
    var at;
    ok, at := WriteU8(b, FlagsHigh(f));
    if ok {
      SumAssociates(was, [FlagsHigh(f)], [FlagsLow(f)]);
      ok, at := WriteU8(b, FlagsLow(f));
    }
  }

  method WriteHeader(b: StreamBuffer, h: Header) returns (ok: bool)
    requires b.Valid()
    modifies b`bytes, b`opos, b`rpos, b`wpos
    ensures b.Valid() && b.Pos() == old(b.Pos())
    ensures b.opos == OriginAfter(b.limit, old(b.opos), old(b.wpos), |b.Live()| - |old(b.Live())|)
    ensures |b.Live()| >= |old(b.Live())|
    ensures ok <==> Admits(b.limit, |old(b.Live())|, 12)
    ensures ok ==> b.Live() == old(b.Live()) + EncodeHeader(h)
  {
    hide PutU16, EncodeFlags;
    HeaderPieces(b.Live(), h);
    var at;
    ok, at := WriteU16(b, h.id);
    if !ok {
      return;
    }
    ok := WriteFlags(b, h.flags);
    if !ok {
      return;
    }
    ok := WritePair(b, h.qdcount, h.ancount);
    if !ok {
      return;
    }
    ok := WritePair(b, h.nscount, h.arcount);
  }

  lemma HeaderPieces(was: Octets, h: Header)
    ensures was + EncodeHeader(h) ==
            was + PutU16(h.id) + EncodeFlags(h.flags) + PutU16(h.qdcount) + PutU16(h.ancount)
            + PutU16(h.nscount) + PutU16(h.arcount)
    ensures |EncodeFlags(h.flags)| == 2
  {
  }

  method ReadHeader(b: StreamBuffer) returns (ok: bool, h: Header)
    requires b.Valid()
    modifies b`rpos
    ensures b.Valid() && b.Live() == old(b.Live())
    ensures ok <==> DecodeHeader(b.Live(), old(b.Pos())).Got?
    ensures ok ==> Got(h, b.Pos()) == DecodeHeader(b.Live(), old(b.Pos()))
  {
    hide GetU16, DecodeFlags;
    h := Header(0, DecodeFlags(0, 0), 0, 0, 0, 0);
    var id, hi, lo, qd, an, ns, ar;
    ok, id := ReadU16(b);
    if !ok {
      return;
    }
    ok, hi := ReadU8(b);
    if !ok {
      return;
    }
    ok, lo := ReadU8(b);
    if !ok {
      return;
    }
    ok, qd := ReadU16(b);
    if !ok {
      return;
    }
    ok, an := ReadU16(b);
    if !ok {
      return;
    }
    ok, ns := ReadU16(b);
    if !ok {
      return;
    }
    ok, ar := ReadU16(b);
    h := Header(id, DecodeFlags(hi, lo), qd, an, ns, ar);
  }
}
