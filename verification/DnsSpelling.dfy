/**
 What a message looks like on the wire, written down without reading it: octets, labels and
 pointers in their places (sections 4.1.1 to 4.1.4 and 3.3 of RFC 1035). Reading accepts
 exactly what is spelled so, compressed names included.
 */
module DnsSpelling {
  import opened Bytes
  import opened DnsNames
  import opened DnsMessages

  // ------------------------------------------------------------------------ pieces

  /** Two octets, the first one high. */
  predicate Word(m: Octets, pos: nat, v: int) {
    pos + 2 <= |m| && v == (m[pos] as int) * 256 + m[pos + 1]
  }

  /** Four octets, the first one highest. */
  predicate LongWord(m: Octets, pos: nat, v: int) {
    pos + 4 <= |m| && v == (((m[pos] as int) * 256 + m[pos + 1]) * 256 + m[pos + 2]) * 256 + m[pos + 3]
  }

  lemma WordIs(m: Octets, pos: nat, v: U16)
    ensures Word(m, pos, v) <==> Room(m, pos, 2) && U16At(m, pos) == v
  {
  }

  lemma LongWordIs(m: Octets, pos: nat, v: U32)
    ensures LongWord(m, pos, v) <==> Room(m, pos, 4) && U32At(m, pos) == v
  {
    if pos + 4 <= |m| {
      var s := m[pos..pos + 4];
      assert s[..2] == [m[pos], m[pos + 1]] && s[2..] == [m[pos + 2], m[pos + 3]];
    }
  }

  /** A name, all in place or ended by a pointer, with `end` behind what stands at `pos`. */
  ghost predicate NameSpelled(m: Octets, pos: nat, name: Name, end: nat) {
    exists a, b :: a + b == name && Spells(m, pos, a, b, end)
  }

  lemma NameIff(m: Octets, pos: nat, name: Name, end: nat)
    ensures DecodeName(m, pos) == Got(name, end) <==> NameSpelled(m, pos, name, end)
    ensures NameSpelled(m, pos, name, end) ==> pos < end <= |m|
  {
    DecodeIffSpelled(m, pos, name, end);
  }

  /** The 14 low bits of the two octets, whatever the two high ones are; and an octet is the
      length of a label exactly when both high bits are clear. */
  lemma PointerOffsetIs(k: nat, h: nat, lo: Byte)
    requires k < 4 && h < 64
    ensures PointerOffset(k * 64 + h, lo) == h * 256 + lo
    ensures k * 64 + h <= LABEL_MAX <==> k == 0
  {
  }

  // ------------------------------------------------------------------- record data

  /** The number of a record type in section 3.2.2. */
  function TypeNumber(d: RData): int {
    match d
    case A(_) => 1
    case CNAME(_) => 5
    case SOA => 6
    case MX(_, _) => 15
    case TXT(_) => 16
  }

  /** Record data with its RDLENGTH: the octets it takes on the wire, so a compressed name
      counts as it stands there. Of SOA data nothing is read. */
  ghost predicate DataSpelled(m: Octets, pos: nat, rdlen: int, d: RData, end: nat) {
    match d
    case A(ip) => rdlen == 4 && LongWord(m, pos, ip) && end == pos + 4
    case CNAME(name) => NameSpelled(m, pos, name, end) && rdlen == (end - pos) % 0x1_0000
    case SOA => end == pos
    case MX(preference, name) =>
      Word(m, pos, preference) && NameSpelled(m, pos + 2, name, end) && rdlen == 2 + (end - pos - 2) % 0x1_0000
    case TXT(text) =>
      pos < |m| && m[pos] == |text| && Has(m, pos + 1, text) && rdlen == 1 + |text| && end == pos + 1 + |text|
  }

  lemma CnameIff(m: Octets, pos: nat, rdlen: U16, name: Name, end: nat)
    ensures DecodeRData(m, pos, 5, rdlen) == Got(CNAME(name), end) <==> DataSpelled(m, pos, rdlen, CNAME(name), end)
  {
    hide DecodeName, NameSpelled;
    NameIff(m, pos, name, end);
  }

  lemma MxIff(m: Octets, pos: nat, rdlen: U16, preference: U16, name: Name, end: nat)
    ensures DecodeRData(m, pos, 15, rdlen) == Got(MX(preference, name), end)
            <==> DataSpelled(m, pos, rdlen, MX(preference, name), end)
  {
    hide DecodeName, NameSpelled, U16At, Word;
    WordIs(m, pos, preference);
    NameIff(m, pos + 2, name, end);
  }

  lemma TxtIff(m: Octets, pos: nat, rdlen: U16, text: Octets, end: nat)
    ensures DecodeRData(m, pos, 16, rdlen) == Got(TXT(text), end) <==> DataSpelled(m, pos, rdlen, TXT(text), end)
  {
    HasSlice(m, pos + 1, text);
  }

  lemma AddressIff(m: Octets, pos: nat, rdlen: U16, ip: U32, end: nat)
    ensures DecodeRData(m, pos, 1, rdlen) == Got(A(ip), end) <==> DataSpelled(m, pos, rdlen, A(ip), end)
  {
    hide U32At, LongWord;
    LongWordIs(m, pos, ip);
  }

  lemma DataHasType(m: Octets, pos: nat, rtype: U16, rdlen: U16)
    ensures DecodeRData(m, pos, rtype, rdlen).Got? ==> TypeNumber(DecodeRData(m, pos, rtype, rdlen).value) == rtype
  {
    hide DecodeName, U16At, U32At;
  }

  /** Data is read as what it is spelled as, under its type, and nothing else is accepted. */
  lemma DataIffSpelled(m: Octets, pos: nat, rtype: U16, rdlen: U16, d: RData, end: nat)
    ensures DecodeRData(m, pos, rtype, rdlen) == Got(d, end)
            <==> rtype == TypeNumber(d) && DataSpelled(m, pos, rdlen, d, end)
  {
    hide DecodeRData, DataSpelled;
    DataHasType(m, pos, rtype, rdlen);
    match d
    case A(ip) => AddressIff(m, pos, rdlen, ip, end);
    case CNAME(name) => CnameIff(m, pos, rdlen, name, end);
    case SOA => SoaIff(m, pos, rdlen, end);
    case MX(preference, name) => MxIff(m, pos, rdlen, preference, name, end);
    case TXT(text) => TxtIff(m, pos, rdlen, text, end);
  }

  lemma SoaIff(m: Octets, pos: nat, rdlen: U16, end: nat)
    ensures DecodeRData(m, pos, 6, rdlen) == Got(SOA, end) <==> DataSpelled(m, pos, rdlen, SOA, end)
  {
  }

  /** Compressed CNAME data of two octets, the pointer alone. */
  lemma CompressedCname()
    ensures DecodeRData([1, 97, 0, 192, 0], 3, 5, 2) == Got(CNAME([[97]]), 5)
    ensures DecodeRData([1, 97, 0, 192, 0], 3, 5, 3) == Refused
  {
    var m: Octets := [1, 97, 0, 192, 0];
    var ls: Name := [[97]];
    assert EncodeLabels(ls) == [1, 97] by {
      assert ls[1..] == [] && EncodeLabels([]) == [];
    }
    assert EncodeLabels([]) == [];
    HasSlice(m, 3, []);
    HasSlice(m, 0, EncodeLabels(ls) + [0]);
    assert m[0..3] == [1, 97, 0];
    assert Spells(m, 3, [], ls, 5);
    DecodeComplete(m, 3, [], ls, 5);
    assert [] + ls == ls;
  }

  /** How names and a question look: "a.bc", and a question for its address. */
  lemma NameBytes()
    ensures EncodeName([[97], [98, 99]]) == [1, 97, 2, 98, 99, 0]
    ensures EncodeQuestion(Question([[97], [98, 99]], 1, 1)) == [1, 97, 2, 98, 99, 0, 0, 1, 0, 1]
  {
    var ls: Name := [[97], [98, 99]];
    var one: Name := [[98, 99]];
    assert one[1..] == [] && Kept(one) == one;
    assert ls[1..] == one && Kept(ls) == ls;
    assert EncodeLabels(one) == [2] + [98, 99] + EncodeLabels([]);
    assert EncodeLabels(ls) == [1] + [97] + EncodeLabels(one);
  }

  // ----------------------------------------------------------- records and questions

  ghost predicate RecordFrom(m: Octets, n: nat, r: Record, end: nat) {
    && Word(m, n, r.rtype) && Word(m, n + 2, r.rclass) && LongWord(m, n + 4, r.ttl) && Word(m, n + 8, r.rdlen)
    && r.rtype == TypeNumber(r.rdata) && DataSpelled(m, n + 10, r.rdlen, r.rdata, end)
  }

  /** Name, type, class, time to live, length and data. */
  ghost predicate RecordSpelled(m: Octets, pos: nat, r: Record, end: nat) {
    exists n :: NameSpelled(m, pos, r.name, n) && RecordFrom(m, n, r, end)
  }

  lemma RecordFromIff(m: Octets, pos: nat, n: nat, r: Record, end: nat)
    requires DecodeName(m, pos) == Got(r.name, n)
    ensures DecodeRecord(m, pos) == Got(r, end) <==> RecordFrom(m, n, r, end)
  {
    hide DecodeName, DecodeRData, DataSpelled, Word, LongWord, U16At, U32At;
    WordIs(m, n, r.rtype);
    WordIs(m, n + 2, r.rclass);
    LongWordIs(m, n + 4, r.ttl);
    WordIs(m, n + 8, r.rdlen);
    DataIffSpelled(m, n + 10, r.rtype, r.rdlen, r.rdata, end);
  }

  lemma RecordIffSpelled(m: Octets, pos: nat, r: Record, end: nat)
    ensures DecodeRecord(m, pos) == Got(r, end) <==> RecordSpelled(m, pos, r, end)
  {
    hide DecodeName, RecordFrom, NameSpelled, DecodeRData;
    forall n | NameSpelled(m, pos, r.name, n)
      ensures DecodeRecord(m, pos) == Got(r, end) <==> RecordFrom(m, n, r, end)
    {
      NameIff(m, pos, r.name, n);
      RecordFromIff(m, pos, n, r, end);
    }
    if DecodeRecord(m, pos) == Got(r, end) {
      var n := DecodeName(m, pos).end;
      NameIff(m, pos, r.name, n);
    }
  }

  /** Name, type and class. */
  ghost predicate QuestionSpelled(m: Octets, pos: nat, q: Question, end: nat) {
    end >= 4 && NameSpelled(m, pos, q.name, end - 4) && Word(m, end - 4, q.qtype) && Word(m, end - 2, q.qclass)
  }

  lemma QuestionIffSpelled(m: Octets, pos: nat, q: Question, end: nat)
    ensures DecodeQuestion(m, pos) == Got(q, end) <==> QuestionSpelled(m, pos, q, end)
  {
    hide DecodeName, NameSpelled, Word, U16At;
    if end >= 4 {
      NameIff(m, pos, q.name, end - 4);
      WordIs(m, end - 4, q.qtype);
      WordIs(m, end - 2, q.qclass);
    }
  }

  // ------------------------------------------------------------------------ message

  ghost predicate QuestionsSpelled(m: Octets, pos: nat, qs: seq<Question>, end: nat)
    decreases |qs|
  {
    if qs == [] then end == pos
    else exists n :: QuestionSpelled(m, pos, qs[0], n) && QuestionsSpelled(m, n, qs[1..], end)
  }

  ghost predicate RecordsSpelled(m: Octets, pos: nat, rs: seq<Record>, end: nat)
    decreases |rs|
  {
    if rs == [] then end == pos
    else exists n :: RecordSpelled(m, pos, rs[0], n) && RecordsSpelled(m, n, rs[1..], end)
  }

  lemma QuestionsCount(m: Octets, pos: nat, count: nat)
    ensures DecodeQuestions(m, pos, count).Got? ==> |DecodeQuestions(m, pos, count).value| == count
    decreases count
  {
    hide DecodeQuestion;
  }

  lemma {:induction false} QuestionsIffSpelled(m: Octets, pos: nat, qs: seq<Question>, end: nat)
    ensures DecodeQuestions(m, pos, |qs|) == Got(qs, end) <==> QuestionsSpelled(m, pos, qs, end)
    decreases |qs|
  {
    hide DecodeQuestion, QuestionSpelled;
    if qs != [] {
      forall n | QuestionSpelled(m, pos, qs[0], n)
        ensures DecodeQuestions(m, pos, |qs|) == Got(qs, end) <==> QuestionsSpelled(m, n, qs[1..], end)
      {
        QuestionIffSpelled(m, pos, qs[0], n);
        QuestionsIffSpelled(m, n, qs[1..], end);
        assert qs == [qs[0]] + qs[1..];
      }
      if DecodeQuestions(m, pos, |qs|) == Got(qs, end) {
        QuestionIffSpelled(m, pos, qs[0], DecodeQuestion(m, pos).end);
      }
    }
  }

  lemma {:induction false} RecordsIffSpelled(m: Octets, pos: nat, rs: seq<Record>, end: nat)
    ensures DecodeRecords(m, pos, |rs|) == Got(rs, end) <==> RecordsSpelled(m, pos, rs, end)
    decreases |rs|
  {
    hide DecodeRecord, RecordSpelled;
    if rs != [] {
      forall n | RecordSpelled(m, pos, rs[0], n)
        ensures DecodeRecords(m, pos, |rs|) == Got(rs, end) <==> RecordsSpelled(m, n, rs[1..], end)
      {
        RecordIffSpelled(m, pos, rs[0], n);
        RecordsIffSpelled(m, n, rs[1..], end);
        assert rs == [rs[0]] + rs[1..];
      }
      if DecodeRecords(m, pos, |rs|) == Got(rs, end) {
        RecordIffSpelled(m, pos, rs[0], DecodeRecord(m, pos).end);
      }
    }
  }

  /** QR, OPCODE, AA, TC and RD in the first octet, from the high bit down; RA, Z and RCODE in
      the second. */
  predicate FlagsSpelled(m: Octets, pos: nat, f: Flags) {
    && pos + 2 <= |m|
    && m[pos] == 128 * f.qr + 8 * f.opcode + 4 * f.aa + 2 * f.tc + f.rd
    && m[pos + 1] == 128 * f.ra + 16 * f.z + f.rcode
  }

  lemma FlagsIff(a: Byte, b: Byte, f: Flags)
    ensures DecodeFlags(a, b) == f <==> FlagsSpelled([a, b], 0, f)
  {
    hide DecodeFlags, FlagsHigh, FlagsLow;
    FlagsRoundTrip(f);
    FlagsOctets(a, b);
    FlagsAre(f);
  }

  lemma FlagsAre(f: Flags)
    ensures FlagsHigh(f) == 128 * f.qr + 8 * f.opcode + 4 * f.aa + 2 * f.tc + f.rd
    ensures FlagsLow(f) == 128 * f.ra + 16 * f.z + f.rcode
  {
  }

  /** Identifier, flags and the four counts. */
  predicate HeaderSpelled(m: Octets, pos: nat, h: Header) {
    && Word(m, pos, h.id) && FlagsSpelled(m, pos + 2, h.flags)
    && Word(m, pos + 4, h.qdcount) && Word(m, pos + 6, h.ancount)
    && Word(m, pos + 8, h.nscount) && Word(m, pos + 10, h.arcount)
  }

  lemma HeaderIffSpelled(m: Octets, pos: nat, h: Header)
    ensures DecodeHeader(m, pos) == Got(h, pos + 12) <==> HeaderSpelled(m, pos, h)
    ensures DecodeHeader(m, pos).Got? ==> DecodeHeader(m, pos).end == pos + 12
  {
    hide U16At, Word, DecodeFlags;
    WordIs(m, pos, h.id);
    WordIs(m, pos + 4, h.qdcount);
    WordIs(m, pos + 6, h.ancount);
    WordIs(m, pos + 8, h.nscount);
    WordIs(m, pos + 10, h.arcount);
    if pos + 12 <= |m| {
      FlagsIff(m[pos + 2], m[pos + 3], h.flags);
    }
  }

  ghost predicate SectionsFrom(m: Octets, n1: nat, s: Sections, end: nat) {
    exists n2, n3 :: RecordsSpelled(m, n1, s.answers, n2) && RecordsSpelled(m, n2, s.authorities, n3)
                     && RecordsSpelled(m, n3, s.additionals, end)
  }

  /** Header, questions, answers, authorities and additional records, in this order and as many
      of each as the header counts. */
  ghost predicate MessageSpelled(m: Octets, pos: nat, msg: Message, end: nat) {
    && HeaderSpelled(m, pos, msg.header)
    && msg.header.qdcount == |msg.questions| && msg.header.ancount == |msg.sections.answers|
    && msg.header.nscount == |msg.sections.authorities| && msg.header.arcount == |msg.sections.additionals|
    && exists n1 :: QuestionsSpelled(m, pos + 12, msg.questions, n1) && SectionsFrom(m, n1, msg.sections, end)
  }

  lemma SectionsIff(m: Octets, n1: nat, s: Sections, end: nat)
    ensures DecodeSections(m, n1, |s.answers|, |s.authorities|, |s.additionals|) == Got(s, end)
            <==> SectionsFrom(m, n1, s, end)
  {
    hide DecodeRecords, RecordsSpelled;
    forall n2 | RecordsSpelled(m, n1, s.answers, n2)
      ensures DecodeRecords(m, n1, |s.answers|) == Got(s.answers, n2)
    {
      RecordsIffSpelled(m, n1, s.answers, n2);
    }
    forall n2, n3 | RecordsSpelled(m, n2, s.authorities, n3)
      ensures DecodeRecords(m, n2, |s.authorities|) == Got(s.authorities, n3)
    {
      RecordsIffSpelled(m, n2, s.authorities, n3);
    }
    forall n3 | RecordsSpelled(m, n3, s.additionals, end)
      ensures DecodeRecords(m, n3, |s.additionals|) == Got(s.additionals, end)
    {
      RecordsIffSpelled(m, n3, s.additionals, end);
    }
    var r := DecodeSections(m, n1, |s.answers|, |s.authorities|, |s.additionals|);
    if r == Got(s, end) {
      var n2 := DecodeRecords(m, n1, |s.answers|).end;
      var n3 := DecodeRecords(m, n2, |s.authorities|).end;
      RecordsIffSpelled(m, n1, s.answers, n2);
      RecordsIffSpelled(m, n2, s.authorities, n3);
      RecordsIffSpelled(m, n3, s.additionals, end);
    }
  }

  /** A message is read, up to `end`, exactly when the wire spells it so. */
  lemma MessageIffSpelled(m: Octets, pos: nat, msg: Message, end: nat)
    ensures DecodeMessage(m, pos) == Got(msg, end) <==> MessageSpelled(m, pos, msg, end)
  {
    hide DecodeHeader, DecodeQuestions, DecodeSections, HeaderSpelled, QuestionsSpelled, SectionsFrom;
    HeaderIffSpelled(m, pos, msg.header);
    var qs := msg.questions;
    if DecodeMessage(m, pos) == Got(msg, end) {
      DecodedIsGood(m, pos);
      QuestionsIffSpelled(m, pos + 12, qs, DecodeQuestions(m, pos + 12, |qs|).end);
      SectionsIff(m, DecodeQuestions(m, pos + 12, |qs|).end, msg.sections, end);
    }
    if MessageSpelled(m, pos, msg, end) {
      var n1 :| QuestionsSpelled(m, pos + 12, qs, n1) && SectionsFrom(m, n1, msg.sections, end);
      QuestionsIffSpelled(m, pos + 12, qs, n1);
      SectionsIff(m, n1, msg.sections, end);
    }
  }
}
