/**
 Resource records and messages of netb/DnsRecord.cpp and netb/DnsMessage.hpp as
 values, their wire form (sections 4.1.1 to 4.1.4 of RFC 1035), and the law that
 re-encoding a message read from the wire preserves its meaning.
 */
module DnsMessages {
  import opened Bytes
  import opened DnsNames
  import Streams

  datatype RData =
    | A(ip: U32)
    | CNAME(cname: Name)
    | SOA
    | MX(preference: U16, exchange: Name)
    | TXT(text: Octets)

  datatype Record = Record(name: Name, rtype: U16, rclass: U16, ttl: U32, rdlen: U16, rdata: RData)

  datatype Question = Question(name: Name, qtype: U16, qclass: U16)

  type Bit = x: int | 0 <= x < 2
  type Bits3 = x: int | 0 <= x < 8
  type Bits4 = x: int | 0 <= x < 16

  datatype Flags = Flags(qr: Bit, opcode: Bits4, aa: Bit, tc: Bit, rd: Bit, ra: Bit, z: Bits3, rcode: Bits4)

  datatype Header = Header(id: U16, flags: Flags, qdcount: U16, ancount: U16, nscount: U16, arcount: U16)

  /** The answer, authority and additional records. */
  datatype Sections = Sections(answers: seq<Record>, authorities: seq<Record>, additionals: seq<Record>)

  datatype Message = Message(header: Header, questions: seq<Question>, sections: Sections)

  function TypeCode(d: RData): U16 {
    match d
    case A(_) => 1
    case CNAME(_) => 5
    case SOA => 6
    case MX(_, _) => 15
    case TXT(_) => 16
  }

  // ---------------------------------------------------------------- encoding

  function FlagsHigh(f: Flags): Byte {
    f.rd + 2 * f.tc + 4 * f.aa + 8 * f.opcode + 128 * f.qr
  }

  function FlagsLow(f: Flags): Byte {
    f.rcode + 16 * f.z + 128 * f.ra
  }

  function EncodeFlags(f: Flags): Octets {
    [FlagsHigh(f), FlagsLow(f)]
  }

  function EncodeHeader(h: Header): Octets {
    PutU16(h.id) + EncodeFlags(h.flags) + PutU16(h.qdcount) + PutU16(h.ancount) + PutU16(h.nscount) + PutU16(h.arcount)
  }

  function EncodeRData(d: RData): Octets {
    match d
    case A(ip) => PutU32(ip)
    case CNAME(name) => EncodeName(name)
    case SOA => []
    case MX(preference, name) => PutU16(preference) + EncodeName(name)
    case TXT(text) => [|text| % 256] + text
  }

  /** RDLENGTH, counted in 16 bits. */
  function RDataLength(d: RData): U16 {
    |EncodeRData(d)| % 0x1_0000
  }

  /** The ten octets between the name and the data. */
  function EncodeFields(rtype: U16, rclass: U16, ttl: U32, rdlen: U16): (s: Octets)
    ensures |s| == 10
  {
    PutU16(rtype) + PutU16(rclass) + PutU32(ttl) + PutU16(rdlen)
  }

  function EncodeRecord(r: Record): Octets {
    EncodeName(r.name) + EncodeFields(r.rtype, r.rclass, r.ttl, RDataLength(r.rdata)) + EncodeRData(r.rdata)
  }

  function EncodeQuestion(q: Question): Octets {
    EncodeName(q.name) + PutU16(q.qtype) + PutU16(q.qclass)
  }

  function EncodeQuestions(qs: seq<Question>): Octets {
    if qs == [] then [] else EncodeQuestion(qs[0]) + EncodeQuestions(qs[1..])
  }

  function EncodeRecords(rs: seq<Record>): Octets {
    if rs == [] then [] else EncodeRecord(rs[0]) + EncodeRecords(rs[1..])
  }

  function EncodeSections(s: Sections): Octets {
    EncodeRecords(s.answers) + EncodeRecords(s.authorities) + EncodeRecords(s.additionals)
  }

  function EncodeMessage(m: Message): Octets {
    EncodeHeader(m.header) + EncodeQuestions(m.questions) + EncodeSections(m.sections)
  }

  // ---------------------------------------------------------------- decoding

  function DecodeFlags(a: Byte, b: Byte): Flags {
    Flags(a / 128, a / 8 % 16, a / 4 % 2, a / 2 % 2, a % 2, b / 128, b / 16 % 8, b % 16)
  }

  predicate Room(m: Octets, pos: nat, n: nat) {
    pos + n <= |m|
  }

  function U16At(m: Octets, pos: nat): U16
    requires Room(m, pos, 2)
  {
    GetU16(m[pos..pos + 2])
  }

  function U32At(m: Octets, pos: nat): U32
    requires Room(m, pos, 4)
  {
    GetU32(m[pos..pos + 4])
  }

  function DecodeHeader(m: Octets, pos: nat): Read<Header> {
    if !Room(m, pos, 12) then Refused
    else Got(Header(U16At(m, pos), DecodeFlags(m[pos + 2], m[pos + 3]), U16At(m, pos + 4),
                      U16At(m, pos + 6), U16At(m, pos + 8), U16At(m, pos + 10)), pos + 12)
  }

  /** RDATA read under the type and the RDLENGTH of its record.  The length of a
      name is counted in 16 bits; an SOA record reads nothing. */
  function DecodeRData(m: Octets, pos: nat, rtype: U16, rdlen: U16): Read<RData> {
    if rtype == 1 then
      if rdlen != 4 || !Room(m, pos, 4) then Refused else Got(A(U32At(m, pos)), pos + 4)
    else if rtype == 5 then
      match DecodeName(m, pos)
      case Refused => Refused
      case Got(name, end) => if (end - pos) % 0x1_0000 != rdlen then Refused else Got(CNAME(name), end)
    else if rtype == 6 then
      Got(SOA, pos)
    else if rtype == 15 then
      if !Room(m, pos, 2) then Refused
      else
        match DecodeName(m, pos + 2)
        case Refused => Refused
        case Got(name, end) =>
          if 2 + (end - pos - 2) % 0x1_0000 != rdlen then Refused else Got(MX(U16At(m, pos), name), end)
    else if rtype == 16 then
      if !Room(m, pos, 1) || m[pos] != rdlen - 1 || !Room(m, pos + 1, m[pos]) then Refused
      else Got(TXT(m[pos + 1..pos + 1 + m[pos]]), pos + 1 + m[pos])
    else Refused
  }

  function DecodeRecord(m: Octets, pos: nat): Read<Record> {
    match DecodeName(m, pos)
    case Refused => Refused
    case Got(name, n) =>
      if !Room(m, n, 10) then Refused
      else
        match DecodeRData(m, n + 10, U16At(m, n), U16At(m, n + 8))
        case Refused => Refused
        case Got(rdata, end) =>
          Got(Record(name, U16At(m, n), U16At(m, n + 2), U32At(m, n + 4), U16At(m, n + 8), rdata), end)
  }

  function DecodeQuestion(m: Octets, pos: nat): Read<Question> {
    match DecodeName(m, pos)
    case Refused => Refused
    case Got(name, n) =>
      if !Room(m, n, 4) then Refused else Got(Question(name, U16At(m, n), U16At(m, n + 2)), n + 4)
  }

  function DecodeQuestions(m: Octets, pos: nat, count: nat): Read<seq<Question>>
    decreases count
  {
    if count == 0 then Got([], pos)
    else
      match DecodeQuestion(m, pos)
      case Refused => Refused
      case Got(q, n) =>
        match DecodeQuestions(m, n, count - 1)
        case Refused => Refused
        case Got(qs, end) => Got([q] + qs, end)
  }

  function DecodeRecords(m: Octets, pos: nat, count: nat): Read<seq<Record>>
    decreases count
  {
    if count == 0 then Got([], pos)
    else
      match DecodeRecord(m, pos)
      case Refused => Refused
      case Got(r, n) =>
        match DecodeRecords(m, n, count - 1)
        case Refused => Refused
        case Got(rs, end) => Got([r] + rs, end)
  }

  function DecodeSections(m: Octets, pos: nat, an: nat, ns: nat, ar: nat): Read<Sections> {
    var r1 := DecodeRecords(m, pos, an);
    if r1.Refused? then Refused
    else
      var r2 := DecodeRecords(m, r1.end, ns);
      if r2.Refused? then Refused
      else
        var r3 := DecodeRecords(m, r2.end, ar);
        if r3.Refused? then Refused else Got(Sections(r1.value, r2.value, r3.value), r3.end)
  }

  function DecodeMessage(m: Octets, pos: nat): Read<Message> {
    var r0 := DecodeHeader(m, pos);
    if r0.Refused? then Refused
    else
      var h := r0.value;
      var r1 := DecodeQuestions(m, r0.end, h.qdcount);
      if r1.Refused? then Refused
      else
        var r2 := DecodeSections(m, r1.end, h.ancount, h.nscount, h.arcount);
        if r2.Refused? then Refused else Got(Message(h, r1.value, r2.value), r2.end)
  }

  // ------------------------------------------------------- what is kept and what fits

  /** The data with the labels that packing keeps. */
  function KeptData(d: RData): RData {
    match d
    case CNAME(name) => CNAME(Kept(name))
    case MX(preference, name) => MX(preference, Kept(name))
    case _ => d
  }

  /** A record as it comes back: packed labels only, RDLENGTH recomputed. */
  function KeptRecord(r: Record): Record {
    r.(name := Kept(r.name), rdlen := RDataLength(r.rdata), rdata := KeptData(r.rdata))
  }

  function KeptQuestion(q: Question): Question {
    q.(name := Kept(q.name))
  }

  function KeptRecords(rs: seq<Record>): (ks: seq<Record>)
    ensures |ks| == |rs|
  {
    if rs == [] then [] else [KeptRecord(rs[0])] + KeptRecords(rs[1..])
  }

  function KeptQuestions(qs: seq<Question>): (ks: seq<Question>)
    ensures |ks| == |qs|
  {
    if qs == [] then [] else [KeptQuestion(qs[0])] + KeptQuestions(qs[1..])
  }

  function KeptSections(s: Sections): Sections {
    Sections(KeptRecords(s.answers), KeptRecords(s.authorities), KeptRecords(s.additionals))
  }

  function KeptMessage(m: Message): Message {
    Message(m.header, KeptQuestions(m.questions), KeptSections(m.sections))
  }

  /** Lengths within their fields; the type agrees with the data. */
  predicate GoodRecord(r: Record) {
    && Short(r.name) && r.rtype == TypeCode(r.rdata)
    && match r.rdata
       case CNAME(name) => Short(name)
       case MX(_, name) => Short(name)
       case TXT(text) => |text| <= 255
       case _ => true
  }

  /** The reader of an MX record adds the preference after the 16-bit count. */
  predicate Fits(r: Record) {
    r.rdata.MX? ==> |EncodeName(r.rdata.exchange)| % 0x1_0000 + 2 < 0x1_0000
  }

  predicate GoodRecords(rs: seq<Record>) {
    rs == [] || (GoodRecord(rs[0]) && GoodRecords(rs[1..]))
  }

  predicate GoodQuestions(qs: seq<Question>) {
    qs == [] || (Short(qs[0].name) && GoodQuestions(qs[1..]))
  }

  predicate GoodMessage(m: Message) {
    && GoodQuestions(m.questions) && GoodRecords(m.sections.answers)
    && GoodRecords(m.sections.authorities) && GoodRecords(m.sections.additionals)
    && m.header.qdcount == |m.questions| && m.header.ancount == |m.sections.answers|
    && m.header.nscount == |m.sections.authorities| && m.header.arcount == |m.sections.additionals|
  }

  predicate AllFit(rs: seq<Record>) {
    rs == [] || (Fits(rs[0]) && AllFit(rs[1..]))
  }

  predicate SectionsFit(s: Sections) {
    AllFit(s.answers) && AllFit(s.authorities) && AllFit(s.additionals)
  }

  // ------------------------------------------------------------ fixed-size fields

  lemma U16RoundTrip(m: Octets, pos: nat, v: U16)
    requires Has(m, pos, PutU16(v))
    ensures Room(m, pos, 2) && U16At(m, pos) == v
  {
    HasSlice(m, pos, PutU16(v));
    GetPutU16(v);
  }

  lemma U32RoundTrip(m: Octets, pos: nat, v: U32)
    requires Has(m, pos, PutU32(v))
    ensures Room(m, pos, 4) && U32At(m, pos) == v
  {
    HasSlice(m, pos, PutU32(v));
    GetPutU32(v);
  }

  lemma FlagsRoundTrip(f: Flags)
    ensures DecodeFlags(FlagsHigh(f), FlagsLow(f)) == f
  {
    HighFields(f.qr, f.opcode, f.aa, f.tc, f.rd);
    LowFields(f.ra, f.z, f.rcode);
  }

  lemma HighFields(qr: Bit, opcode: Bits4, aa: Bit, tc: Bit, rd: Bit)
    ensures
      var a := rd + 2 * tc + 4 * aa + 8 * opcode + 128 * qr;
      a / 128 == qr && a / 8 % 16 == opcode && a / 4 % 2 == aa && a / 2 % 2 == tc && a % 2 == rd
  {
    var a := rd + 2 * tc + 4 * aa + 8 * opcode + 128 * qr;
    assert a / 8 == opcode + 16 * qr && a / 4 == aa + 2 * (a / 8) && a / 2 == tc + 2 * (a / 4);
  }

  lemma LowFields(ra: Bit, z: Bits3, rcode: Bits4)
    ensures
      var b := rcode + 16 * z + 128 * ra;
      b / 128 == ra && b / 16 % 8 == z && b % 16 == rcode
  {
    var b := rcode + 16 * z + 128 * ra;
    assert b / 16 == z + 8 * ra;
  }

  lemma FlagsHighBack(a: Byte, b: Byte)
    ensures FlagsHigh(DecodeFlags(a, b)) == a
  {
    var c, d, e, g := a / 2, a / 4, a / 8, a / 128;
    assert a % 2 == a - 2 * c && a / 2 % 2 == c - 2 * d && a / 4 % 2 == d - 2 * e && a / 8 % 16 == e - 16 * g;
  }

  lemma FlagsLowBack(a: Byte, b: Byte)
    ensures FlagsLow(DecodeFlags(a, b)) == b
  {
    assert b % 16 == b - 16 * (b / 16) && b / 16 % 8 == b / 16 - 8 * (b / 128);
  }

  /** The two flag octets and the eight fields determine each other. */
  lemma FlagsOctets(a: Byte, b: Byte)
    ensures EncodeFlags(DecodeFlags(a, b)) == [a, b]
  {
    FlagsHighBack(a, b);
    FlagsLowBack(a, b);
  }

  lemma HeaderRoundTrip(m: Octets, pos: nat, h: Header)
    requires Has(m, pos, EncodeHeader(h))
    ensures |EncodeHeader(h)| == 12 && DecodeHeader(m, pos) == Got(h, pos + 12)
  {
    var s0 := PutU16(h.id);
    var s1 := s0 + EncodeFlags(h.flags);
    var s2 := s1 + PutU16(h.qdcount);
    var s3 := s2 + PutU16(h.ancount);
    var s4 := s3 + PutU16(h.nscount);
    HasSplit(m, pos, s4, PutU16(h.arcount));
    HasSplit(m, pos, s3, PutU16(h.nscount));
    HasSplit(m, pos, s2, PutU16(h.ancount));
    HasSplit(m, pos, s1, PutU16(h.qdcount));
    HasSplit(m, pos, s0, EncodeFlags(h.flags));
    U16RoundTrip(m, pos, h.id);
    U16RoundTrip(m, pos + 4, h.qdcount);
    U16RoundTrip(m, pos + 6, h.ancount);
    U16RoundTrip(m, pos + 8, h.nscount);
    U16RoundTrip(m, pos + 10, h.arcount);
    FlagsRoundTrip(h.flags);
    HasSlice(m, pos + 2, EncodeFlags(h.flags));
    assert m[pos + 2..pos + 4] == EncodeFlags(h.flags);
    assert m[pos + 2..pos + 4][0] == m[pos + 2] && m[pos + 2..pos + 4][1] == m[pos + 3];
  }

  // --------------------------------------------------------------- round trips

  lemma QuestionRoundTrip(m: Octets, pos: nat, q: Question)
    requires Has(m, pos, EncodeQuestion(q))
    ensures DecodeQuestion(m, pos) == Got(KeptQuestion(q), pos + |EncodeQuestion(q)|) <==> Short(q.name)
  {
    hide DecodeName, EncodeName, Kept, PutU16, U16At, Has;
    var s0 := EncodeName(q.name);
    var s1 := s0 + PutU16(q.qtype);
    HasSplit(m, pos, s1, PutU16(q.qclass));
    HasSplit(m, pos, s0, PutU16(q.qtype));
    NameRoundTrip(m, pos, q.name);
    if DecodeName(m, pos).Got? {
      DecodedLabels(m, pos);
      ShortIffKept(q.name);
    }
    U16RoundTrip(m, pos + |s0|, q.qtype);
    U16RoundTrip(m, pos + |s0| + 2, q.qclass);
  }

  lemma CnameRoundTrip(m: Octets, pos: nat, name: Name)
    requires Short(name) && Has(m, pos, EncodeName(name))
    ensures DecodeRData(m, pos, 5, |EncodeName(name)| % 0x1_0000) == Got(CNAME(Kept(name)), pos + |EncodeName(name)|)
  {
    NameRoundTrip(m, pos, name);
  }

  lemma LengthSum(n: nat)
    ensures 2 + n % 0x1_0000 == (2 + n) % 0x1_0000 <==> n % 0x1_0000 + 2 < 0x1_0000
  {
  }

  lemma MxRoundTrip(m: Octets, pos: nat, preference: U16, name: Name)
    requires Short(name) && Has(m, pos, PutU16(preference) + EncodeName(name))
    ensures
      var n := |EncodeName(name)|;
      DecodeRData(m, pos, 15, (2 + n) % 0x1_0000)
      == if n % 0x1_0000 + 2 < 0x1_0000 then Got(MX(preference, Kept(name)), pos + 2 + n) else Refused
  {
    HasSplit(m, pos, PutU16(preference), EncodeName(name));
    U16RoundTrip(m, pos, preference);
    NameRoundTrip(m, pos + 2, name);
    LengthSum(|EncodeName(name)|);
  }

  lemma TxtRoundTrip(m: Octets, pos: nat, text: Octets)
    requires |text| <= 255 && Has(m, pos, [|text|] + text)
    ensures DecodeRData(m, pos, 16, 1 + |text|) == Got(TXT(text), pos + 1 + |text|)
  {
    HasSplit(m, pos, [|text|], text);
    HasOctet(m, pos, |text|);
    HasSlice(m, pos + 1, text);
  }

  lemma RDataRoundTrip(m: Octets, pos: nat, r: Record)
    requires GoodRecord(r) && Has(m, pos, EncodeRData(r.rdata))
    ensures DecodeRData(m, pos, r.rtype, RDataLength(r.rdata))
            == if Fits(r) then Got(KeptData(r.rdata), pos + |EncodeRData(r.rdata)|) else Refused
  {
    hide EncodeName, DecodeName, Kept, Has, PutU16, PutU32, Short;
    match r.rdata
    case A(ip) => U32RoundTrip(m, pos, ip);
    case CNAME(name) => CnameRoundTrip(m, pos, name);
    case SOA =>
    case MX(preference, name) => MxRoundTrip(m, pos, preference, name);
    case TXT(text) => TxtRoundTrip(m, pos, text);
  }

  lemma FieldsRoundTrip(m: Octets, n: nat, rtype: U16, rclass: U16, ttl: U32, rdlen: U16)
    requires Has(m, n, EncodeFields(rtype, rclass, ttl, rdlen))
    ensures Room(m, n, 10) && U16At(m, n) == rtype && U16At(m, n + 2) == rclass
    ensures U32At(m, n + 4) == ttl && U16At(m, n + 8) == rdlen
  {
    var s0 := PutU16(rtype);
    var s1 := s0 + PutU16(rclass);
    var s2 := s1 + PutU32(ttl);
    HasSplit(m, n, s2, PutU16(rdlen));
    HasSplit(m, n, s1, PutU32(ttl));
    HasSplit(m, n, s0, PutU16(rclass));
    U16RoundTrip(m, n, rtype);
    U16RoundTrip(m, n + 2, rclass);
    U32RoundTrip(m, n + 4, ttl);
    U16RoundTrip(m, n + 8, rdlen);
  }

  /** A written record is read back, and is refused exactly when its MX name
      wraps the 16-bit length. */
  lemma RecordRoundTrip(m: Octets, pos: nat, r: Record)
    requires GoodRecord(r) && Has(m, pos, EncodeRecord(r))
    ensures DecodeRecord(m, pos)
            == if Fits(r) then Got(KeptRecord(r), pos + |EncodeRecord(r)|) else Refused
  {
    hide EncodeName, DecodeName, Kept, EncodeFields, EncodeRData, DecodeRData;
    hide KeptData, Fits, RDataLength, U16At, U32At;
    var name, fields := EncodeName(r.name), EncodeFields(r.rtype, r.rclass, r.ttl, RDataLength(r.rdata));
    HasSplit(m, pos, name + fields, EncodeRData(r.rdata));
    HasSplit(m, pos, name, fields);
    NameRoundTrip(m, pos, r.name);
    FieldsRoundTrip(m, pos + |name|, r.rtype, r.rclass, r.ttl, RDataLength(r.rdata));
    RDataRoundTrip(m, pos + |name| + 10, r);
  }

  lemma ConsQuestion(m: Octets, pos: nat, count: nat, q: Question, n: nat, qs: seq<Question>, end: nat)
    requires DecodeQuestion(m, pos) == Got(q, n) && DecodeQuestions(m, n, count) == Got(qs, end)
    ensures DecodeQuestions(m, pos, count + 1) == Got([q] + qs, end)
  {
  }

  lemma {:induction false} QuestionsRoundTrip(m: Octets, pos: nat, qs: seq<Question>)
    requires GoodQuestions(qs) && Has(m, pos, EncodeQuestions(qs))
    ensures DecodeQuestions(m, pos, |qs|) == Got(KeptQuestions(qs), pos + |EncodeQuestions(qs)|)
    decreases |qs|
  {
    if qs != [] {
      hide DecodeQuestion, EncodeQuestion, KeptQuestion, Short, Has, DecodeQuestions;
      var q, more := qs[0], qs[1..];
      var n := pos + |EncodeQuestion(q)|;
      HasSplit(m, pos, EncodeQuestion(q), EncodeQuestions(more));
      QuestionRoundTrip(m, pos, q);
      QuestionsRoundTrip(m, n, more);
      ConsQuestion(m, pos, |more|, KeptQuestion(q), n, KeptQuestions(more), n + |EncodeQuestions(more)|);
    }
  }

  function InFront(r: Record, rest: Read<seq<Record>>): Read<seq<Record>> {
    if rest.Refused? then Refused else Got([r] + rest.value, rest.end)
  }

  lemma ConsRecord(m: Octets, pos: nat, count: nat)
    ensures DecodeRecord(m, pos).Refused? ==> DecodeRecords(m, pos, count + 1).Refused?
    ensures DecodeRecord(m, pos).Got? ==>
              DecodeRecords(m, pos, count + 1)
              == InFront(DecodeRecord(m, pos).value, DecodeRecords(m, DecodeRecord(m, pos).end, count))
  {
  }

  lemma {:induction false} RecordsRoundTrip(m: Octets, pos: nat, rs: seq<Record>)
    requires GoodRecords(rs) && Has(m, pos, EncodeRecords(rs))
    ensures DecodeRecords(m, pos, |rs|)
            == if AllFit(rs) then Got(KeptRecords(rs), pos + |EncodeRecords(rs)|) else Refused
    decreases |rs|
  {
    hide DecodeRecord, EncodeRecord, KeptRecord, Fits, GoodRecord;
    if rs == [] {
      assert KeptRecords(rs) == [];
    } else {
      var r, more := rs[0], rs[1..];
      HasSplit(m, pos, EncodeRecord(r), EncodeRecords(more));
      RecordRoundTrip(m, pos, r);
      RecordsRoundTrip(m, pos + |EncodeRecord(r)|, more);
      ConsRecord(m, pos, |more|);
      assert |more| + 1 == |rs|;
      if Fits(r) && AllFit(more) {
        assert KeptRecords(rs) == [KeptRecord(r)] + KeptRecords(more);
        assert DecodeRecords(m, pos, |rs|).end == pos + |EncodeRecords(rs)|;
      } else {
        assert DecodeRecords(m, pos, |rs|) == Refused;
      }
    }
  }

  lemma SectionsRoundTrip(m: Octets, pos: nat, s: Sections)
    requires GoodRecords(s.answers) && GoodRecords(s.authorities) && GoodRecords(s.additionals)
    requires Has(m, pos, EncodeSections(s))
    ensures DecodeSections(m, pos, |s.answers|, |s.authorities|, |s.additionals|)
            == if SectionsFit(s) then Got(KeptSections(s), pos + |EncodeSections(s)|) else Refused
  {
    hide DecodeRecords, EncodeRecords, KeptRecords, AllFit, GoodRecords;
    var e1, e2 := EncodeRecords(s.answers), EncodeRecords(s.authorities);
    HasSplit(m, pos, e1 + e2, EncodeRecords(s.additionals));
    HasSplit(m, pos, e1, e2);
    RecordsRoundTrip(m, pos, s.answers);
    if AllFit(s.answers) {
      RecordsRoundTrip(m, pos + |e1|, s.authorities);
      if AllFit(s.authorities) {
        RecordsRoundTrip(m, pos + |e1| + |e2|, s.additionals);
      }
    }
  }

  lemma MessageAt(m: Octets, pos: nat, msg: Message)
    requires GoodMessage(msg) && Has(m, pos, EncodeMessage(msg))
    ensures DecodeMessage(m, pos)
            == if SectionsFit(msg.sections) then Got(KeptMessage(msg), pos + |EncodeMessage(msg)|) else Refused
  {
    hide EncodeHeader, DecodeHeader, EncodeQuestions, DecodeQuestions, KeptQuestions, GoodQuestions;
    hide EncodeSections, DecodeSections, KeptSections, SectionsFit, GoodRecords;
    var e0, e1 := EncodeHeader(msg.header), EncodeQuestions(msg.questions);
    HasSplit(m, pos, e0 + e1, EncodeSections(msg.sections));
    HasSplit(m, pos, e0, e1);
    HeaderRoundTrip(m, pos, msg.header);
    QuestionsRoundTrip(m, pos + 12, msg.questions);
    SectionsRoundTrip(m, pos + 12 + |e1|, msg.sections);
  }

  lemma MessageHere(pre: Octets, msg: Message, post: Octets)
    requires GoodMessage(msg)
    ensures DecodeMessage(pre + EncodeMessage(msg) + post, |pre|)
            == if SectionsFit(msg.sections) then Got(KeptMessage(msg), |pre| + |EncodeMessage(msg)|) else Refused
  {
    hide DecodeMessage, EncodeMessage, KeptMessage, SectionsFit, GoodMessage;
    HasWhole(pre, EncodeMessage(msg), post);
    MessageAt(pre + EncodeMessage(msg) + post, |pre|, msg);
  }

  // -------------------------------------------------------------- re-encoding

  lemma RDataGood(m: Octets, pos: nat, r: Record)
    requires DecodeRData(m, pos, r.rtype, r.rdlen).Got? && r.rdata == DecodeRData(m, pos, r.rtype, r.rdlen).value
    requires Short(r.name)
    ensures GoodRecord(r)
  {
    if r.rtype == 5 {
      DecodedLabels(m, pos);
    } else if r.rtype == 15 {
      DecodedLabels(m, pos + 2);
    }
  }

  lemma RecordGood(m: Octets, pos: nat)
    requires DecodeRecord(m, pos).Got?
    ensures GoodRecord(DecodeRecord(m, pos).value)
  {
    var Got(_, n) := DecodeName(m, pos);
    DecodedLabels(m, pos);
    RDataGood(m, n + 10, DecodeRecord(m, pos).value);
  }

  lemma {:induction false} RecordsGood(m: Octets, pos: nat, count: nat)
    requires DecodeRecords(m, pos, count).Got?
    ensures |DecodeRecords(m, pos, count).value| == count && GoodRecords(DecodeRecords(m, pos, count).value)
    decreases count
  {
    if count > 0 {
      RecordGood(m, pos);
      var next := DecodeRecord(m, pos).end;
      RecordsGood(m, next, count - 1);
      var r, rs := DecodeRecord(m, pos).value, DecodeRecords(m, next, count - 1).value;
      assert ([r] + rs)[1..] == rs;
    }
  }

  lemma {:induction false} QuestionsGood(m: Octets, pos: nat, count: nat)
    requires DecodeQuestions(m, pos, count).Got?
    ensures |DecodeQuestions(m, pos, count).value| == count && GoodQuestions(DecodeQuestions(m, pos, count).value)
    decreases count
  {
    if count > 0 {
      DecodedLabels(m, pos);
      var next := DecodeQuestion(m, pos).end;
      QuestionsGood(m, next, count - 1);
      var q, qs := DecodeQuestion(m, pos).value, DecodeQuestions(m, next, count - 1).value;
      assert ([q] + qs)[1..] == qs;
    }
  }

  /** Every message read from the wire is well formed. */
  lemma DecodedIsGood(m: Octets, pos: nat)
    ensures DecodeMessage(m, pos).Got? ==> GoodMessage(DecodeMessage(m, pos).value)
  {
    if DecodeMessage(m, pos).Got? {
      var h, n0 := DecodeHeader(m, pos).value, DecodeHeader(m, pos).end;
      QuestionsGood(m, n0, h.qdcount);
      var n1 := DecodeQuestions(m, n0, h.qdcount).end;
      RecordsGood(m, n1, h.ancount);
      var n2 := DecodeRecords(m, n1, h.ancount).end;
      RecordsGood(m, n2, h.nscount);
      RecordsGood(m, DecodeRecords(m, n2, h.nscount).end, h.arcount);
    }
  }

  lemma {:induction false} KeptQuestionsGood(qs: seq<Question>)
    requires GoodQuestions(KeptQuestions(qs))
    ensures GoodQuestions(qs)
  {
    if qs != [] {
      ShortIffKept(qs[0].name);
      assert KeptQuestions(qs)[1..] == KeptQuestions(qs[1..]);
      KeptQuestionsGood(qs[1..]);
    }
  }

  lemma KeptRecordGood(r: Record)
    requires GoodRecord(KeptRecord(r))
    ensures GoodRecord(r)
  {
    ShortIffKept(r.name);
    match r.rdata
    case CNAME(name) => ShortIffKept(name);
    case MX(_, name) => ShortIffKept(name);
    case _ =>
  }

  lemma {:induction false} KeptRecordsGood(rs: seq<Record>)
    requires GoodRecords(KeptRecords(rs))
    ensures GoodRecords(rs)
  {
    if rs != [] {
      KeptRecordGood(rs[0]);
      assert KeptRecords(rs)[1..] == KeptRecords(rs[1..]);
      KeptRecordsGood(rs[1..]);
    }
  }

  /** Any message, written with anything before and after it, is read back with the labels
      that packing keeps, up to where writing ended, exactly when it is well formed and no MX
      name wraps: labels of at most 63 octets, texts of at most 255, types that match the
      data, and counts that match the sections. */
  lemma MessageRoundTrip(pre: Octets, msg: Message, post: Octets)
    ensures DecodeMessage(pre + EncodeMessage(msg) + post, |pre|)
            == Got(KeptMessage(msg), |pre| + |EncodeMessage(msg)|)
            <==> GoodMessage(msg) && SectionsFit(msg.sections)
  {
    hide DecodeMessage, EncodeMessage, SectionsFit, KeptQuestions, KeptRecords, GoodQuestions, GoodRecords;
    var m := pre + EncodeMessage(msg) + post;
    if DecodeMessage(m, |pre|) == Got(KeptMessage(msg), |pre| + |EncodeMessage(msg)|) {
      DecodedIsGood(m, |pre|);
      KeptQuestionsGood(msg.questions);
      KeptRecordsGood(msg.sections.answers);
      KeptRecordsGood(msg.sections.authorities);
      KeptRecordsGood(msg.sections.additionals);
    }
    if GoodMessage(msg) {
      MessageHere(pre, msg, post);
    }
  }

  /** Records that differ at most in RDLENGTH. */
  predicate SameRecord(r: Record, s: Record) {
    r.(rdlen := 0) == s.(rdlen := 0)
  }

  predicate SameRecords(rs: seq<Record>, ss: seq<Record>) {
    |rs| == |ss| && (rs == [] || (SameRecord(rs[0], ss[0]) && SameRecords(rs[1..], ss[1..])))
  }

  predicate SameMeaning(a: Message, b: Message) {
    && a.header == b.header && a.questions == b.questions
    && SameRecords(a.sections.answers, b.sections.answers)
    && SameRecords(a.sections.authorities, b.sections.authorities)
    && SameRecords(a.sections.additionals, b.sections.additionals)
  }

  /** No label is a single dot. */
  predicate Undotted(ls: Name) {
    forall l :: l in ls ==> l != [DOT]
  }

  predicate UndottedRecord(r: Record) {
    && Undotted(r.name)
    && (r.rdata.CNAME? ==> Undotted(r.rdata.cname))
    && (r.rdata.MX? ==> Undotted(r.rdata.exchange))
  }

  predicate UndottedRecords(rs: seq<Record>) {
    rs == [] || (UndottedRecord(rs[0]) && UndottedRecords(rs[1..]))
  }

  predicate UndottedQuestions(qs: seq<Question>) {
    qs == [] || (Undotted(qs[0].name) && UndottedQuestions(qs[1..]))
  }

  predicate UndottedMessage(m: Message) {
    && UndottedQuestions(m.questions) && UndottedRecords(m.sections.answers)
    && UndottedRecords(m.sections.authorities) && UndottedRecords(m.sections.additionals)
  }

  lemma UndottedIffKept(ls: Name)
    requires AllLabels(ls)
    ensures Undotted(ls) <==> Kept(ls) == ls
  {
    KeptIs(ls);
  }

  lemma DataKept(m: Octets, pos: nat, rtype: U16, rdlen: U16)
    requires DecodeRData(m, pos, rtype, rdlen).Got?
    ensures
      var d := DecodeRData(m, pos, rtype, rdlen).value;
      (d.CNAME? ==> Undotted(d.cname)) && (d.MX? ==> Undotted(d.exchange)) <==> KeptData(d) == d
  {
    hide Undotted, Kept, DecodeName;
    var d := DecodeRData(m, pos, rtype, rdlen).value;
    if rtype == 5 {
      DecodedLabels(m, pos);
      UndottedIffKept(d.cname);
    } else if rtype == 15 {
      DecodedLabels(m, pos + 2);
      UndottedIffKept(d.exchange);
    }
  }

  lemma RecordKept(m: Octets, pos: nat)
    requires DecodeRecord(m, pos).Got?
    ensures
      var r := DecodeRecord(m, pos).value;
      UndottedRecord(r) <==> SameRecord(KeptRecord(r), r)
  {
    hide Undotted, Kept, DecodeName, DecodeRData, KeptData, RDataLength;
    var n, r := DecodeName(m, pos).end, DecodeRecord(m, pos).value;
    DecodedLabels(m, pos);
    UndottedIffKept(r.name);
    DataKept(m, n + 10, r.rtype, r.rdlen);
  }

  lemma {:induction false} RecordsKept(m: Octets, pos: nat, count: nat)
    requires DecodeRecords(m, pos, count).Got?
    ensures
      var rs := DecodeRecords(m, pos, count).value;
      UndottedRecords(rs) <==> SameRecords(KeptRecords(rs), rs)
    decreases count
  {
    hide DecodeRecord, KeptRecord, UndottedRecord, SameRecord;
    if count > 0 {
      var next := DecodeRecord(m, pos).end;
      RecordKept(m, pos);
      RecordsKept(m, next, count - 1);
      var r, rs := DecodeRecord(m, pos).value, DecodeRecords(m, next, count - 1).value;
      assert DecodeRecords(m, pos, count).value == [r] + rs;
      KeptRecordsCons(r, rs);
    }
  }

  lemma KeptRecordsCons(r: Record, rs: seq<Record>)
    ensures UndottedRecords([r] + rs) <==> UndottedRecord(r) && UndottedRecords(rs)
    ensures SameRecords(KeptRecords([r] + rs), [r] + rs)
            <==> SameRecord(KeptRecord(r), r) && SameRecords(KeptRecords(rs), rs)
  {
    assert ([r] + rs)[1..] == rs;
    var k, ks := KeptRecord(r), KeptRecords(rs);
    assert ([k] + ks)[1..] == ks;
  }

  lemma {:induction false} QuestionsKept(m: Octets, pos: nat, count: nat)
    requires DecodeQuestions(m, pos, count).Got?
    ensures
      var qs := DecodeQuestions(m, pos, count).value;
      UndottedQuestions(qs) <==> KeptQuestions(qs) == qs
    decreases count
  {
    if count > 0 {
      var next := DecodeQuestion(m, pos).end;
      var q, qs := DecodeQuestion(m, pos).value, DecodeQuestions(m, next, count - 1).value;
      DecodedLabels(m, pos);
      UndottedIffKept(q.name);
      QuestionsKept(m, next, count - 1);
      assert DecodeQuestions(m, pos, count).value == [q] + qs;
      KeptQuestionsCons(q, qs);
    }
  }

  lemma KeptQuestionsCons(q: Question, qs: seq<Question>)
    ensures UndottedQuestions([q] + qs) <==> Undotted(q.name) && UndottedQuestions(qs)
    ensures KeptQuestions([q] + qs) == [q] + qs <==> Kept(q.name) == q.name && KeptQuestions(qs) == qs
  {
    assert ([q] + qs)[1..] == qs;
    var k, ks := KeptQuestion(q), KeptQuestions(qs);
    assert ([k] + ks)[1..] == ks && ([k] + ks)[0] == k;
  }

  lemma DecodedKept(m: Octets, pos: nat)
    ensures
      var r := DecodeMessage(m, pos);
      r.Got? ==> (UndottedMessage(r.value) <==> SameMeaning(KeptMessage(r.value), r.value))
  {
    if DecodeMessage(m, pos).Got? {
      var h, n0 := DecodeHeader(m, pos).value, DecodeHeader(m, pos).end;
      QuestionsKept(m, n0, h.qdcount);
      var n1 := DecodeQuestions(m, n0, h.qdcount).end;
      RecordsKept(m, n1, h.ancount);
      var n2 := DecodeRecords(m, n1, h.ancount).end;
      RecordsKept(m, n2, h.nscount);
      RecordsKept(m, DecodeRecords(m, n2, h.nscount).end, h.arcount);
    }
  }

  /**
   Re-encoding.  A message accepted from the wire, written again and read again,
   with anything following it: it is accepted again exactly when no MX name wraps
   its length, all of what was written is taken and nothing more, and it means
   the same exactly when no label of it is a single dot.
   */
  lemma ReencodeLaw(m: Octets, pos: nat, rest: Octets)
    ensures
      var r := DecodeMessage(m, pos);
      r.Got? ==>
        var again := DecodeMessage(EncodeMessage(r.value) + rest, 0);
        && (again.Got? <==> SectionsFit(r.value.sections))
        && (again.Got? ==> again.end == |EncodeMessage(r.value)|)
        && (again.Got? ==> (SameMeaning(again.value, r.value) <==> UndottedMessage(r.value)))
  {
    hide DecodeMessage, EncodeMessage, KeptMessage, SectionsFit, GoodMessage, SameMeaning, UndottedMessage;
    if DecodeMessage(m, pos).Got? {
      var msg := DecodeMessage(m, pos).value;
      DecodedIsGood(m, pos);
      DecodedKept(m, pos);
      assert [] + EncodeMessage(msg) == EncodeMessage(msg);
      MessageHere([], msg, rest);
    }
  }

  // -------------------------------------------------- the lines as the source has them

  /** The RDLENGTH written when the counter starts from the field's old value, as
      the source does for all types but A. */
  function CodedRDLength(r: Record): U16 {
    if r.rdata.A? then 4
    else (r.rdlen + |EncodeRData(r.rdata)|) % 0x1_0000
  }

  lemma CodedRDLengthIsRight(r: Record)
    ensures CodedRDLength(r) == RDataLength(r.rdata) <==> r.rdata.A? || r.rdlen == 0
  {
    var n := |EncodeRData(r.rdata)|;
    if !r.rdata.A? {
      WrapAround(r.rdlen, n);
    }
  }

  lemma WrapAround(x: U16, n: nat)
    ensures (x + n) % 0x1_0000 == n % 0x1_0000 <==> x == 0
  {
  }

  /** A CNAME reader whose counter starts from the uninitialised value `u`. */
  predicate CodedCnameAccepts(u: U16, taken: nat, rdlen: U16) {
    (u + taken) % 0x1_0000 == rdlen
  }

  /** It accepts the lengths it should exactly when that value happens to be 0. */
  lemma CodedCnameIsRight(u: U16, taken: nat)
    ensures (forall rdlen: U16 :: CodedCnameAccepts(u, taken, rdlen) <==> taken % 0x1_0000 == rdlen) <==> u == 0
  {
    WrapAround(u, taken);
    var right: U16 := taken % 0x1_0000;
    assert CodedCnameAccepts(u, taken, right) <==> u == 0;
  }

  /** The octets after the name of an A record when 32-bit integers lose half of theirs. */
  function CodedAFields(rclass: U16, ttl: U32, ip: U32): (s: Octets)
    ensures |s| == 10
  {
    PutU16(1) + (PutU16(rclass) + Streams.CodedPutU32(ttl) + PutU16(4) + Streams.CodedPutU32(ip))
  }

  /** An A record written so cannot be read back from the end of a message, whatever it
      holds. */
  lemma CodedARecordRefused(pre: Octets, name: Name, rclass: U16, ttl: U32, ip: U32)
    requires forall l :: l in name ==> |l| <= LABEL_MAX
    ensures DecodeRecord(pre + (EncodeName(name) + CodedAFields(rclass, ttl, ip)), |pre|) == Refused
  {
    var fields := CodedAFields(rclass, ttl, ip);
    var e := EncodeName(name) + fields;
    var m := pre + e;
    assert m == pre + e + [];
    HasWhole(pre, e, []);
    HasSplit(m, |pre|, EncodeName(name), fields);
    NameRoundTrip(m, |pre|, name);
    var n := |pre| + |EncodeName(name)|;
    HasSplit(m, n, PutU16(1), PutU16(rclass) + Streams.CodedPutU32(ttl) + PutU16(4) + Streams.CodedPutU32(ip));
    U16RoundTrip(m, n, 1);
    assert |m| == n + 10;
  }
}
