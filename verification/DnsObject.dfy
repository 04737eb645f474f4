/** The `Message` object of netb/DnsMessage.cpp: five sections filled and printed
    through a buffer. */
module DnsObject {
  import opened Bytes
  import opened StreamBuffers
  import opened DnsNames
  import opened DnsMessages
  import opened DnsCodec

  class DnsMessage {
    var header: Header
    var questions: seq<Question>
    var answers: seq<Record>
    var authorities: seq<Record>
    var additionals: seq<Record>

    ghost function View(): Message
      reads this
    {
      Message(header, questions, Sections(answers, authorities, additionals))
    }

    constructor ()
      ensures View() == Message(Header(0, Flags(0, 0, 0, 0, 0, 0, 0, 0), 0, 0, 0, 0), [], Sections([], [], []))
    {
      header := Header(0, Flags(0, 0, 0, 0, 0, 0, 0, 0), 0, 0, 0, 0);
      questions, answers, authorities, additionals := [], [], [], [];
    }

    /** `Query`: one question of class IN, with an identifier from outside. A name that
        is not valid text becomes the empty name. */
    constructor Query(id: U16, name: Octets, qtype: U16)
      requires name != []
      ensures |questions| == 1 && questions[0].qtype == qtype && questions[0].qclass == 1
      ensures Text(questions[0].name) == if ValidText(name) then Dotted(LowerAll(name)) else []
      ensures DotFree(questions[0].name)
      ensures header == Header(id, Flags(0, 0, 0, 0, 1, 0, 0, 0), 1, 0, 0, 0)
      ensures View().sections == Sections([], [], [])
    {
      var ok, parts := FromString(name);
      header := Header(id, Flags(0, 0, 0, 0, 1, 0, 0, 0), 1, 0, 0, 0);
      questions := [Question(parts, qtype, 1)];
      answers, authorities, additionals := [], [], [];
    }

    /**
     Take over the header read at the read position and append the sections; on
     success the bytes taken are flushed.  Compression offsets count from the first accessible byte.
     */
    method FromBuffer(b: StreamBuffer) returns (ok: bool)
      requires b.Valid()
      modifies this, b`opos, b`rpos, b`wpos
      ensures b.Valid()
      ensures ok <==> DecodeMessage(old(b.Live()), old(b.Pos())).Got?
      ensures ok ==>
                var r := DecodeMessage(old(b.Live()), old(b.Pos()));
                && View() == Joined(old(View()), r.value) && b.Pos() == 0
                && r.end <= old(|b.Live()|) && b.Live() == old(b.Live())[r.end..]
      ensures !ok ==> b.Live() == old(b.Live())
    {
      hide DecodeHeader, DecodeQuestions, DecodeRecords;
      ok, header := ReadHeader(b);
      if !ok {
        return;
      }
      var qs, rs1, rs2, rs3;
      ok, qs := ReadQuestions(b, header.qdcount);
      if !ok {
        return;
      }
      questions := questions + qs;
      ok, rs1 := ReadRecords(b, header.ancount);
      if !ok {
        return;
      }
      answers := answers + rs1;
      ok, rs2 := ReadRecords(b, header.nscount);
      if !ok {
        return;
      }
      authorities := authorities + rs2;
      ok, rs3 := ReadRecords(b, header.arcount);
      if !ok {
        return;
      }
      additionals := additionals + rs3;
      var left := b.Flush();
    }

    /**
     Write all sections, and bring the RDLENGTH fields of the records up to date. All comes
     out right when the first record is patched in its place: at origin 0, or when writing up
     to there makes the buffer move to its front. Otherwise a new first record with data is
     wrong in what was written.
     */
    method ToBuffer(b: StreamBuffer) returns (ok: bool)
      requires b.Valid()
      requires TextsFit(answers) && TextsFit(authorities) && TextsFit(additionals)
      modifies this`answers, this`authorities, this`additionals, b`bytes, b`opos, b`rpos, b`wpos
      ensures b.Valid() && b.Pos() == old(b.Pos())
      ensures old(FirstInPlace(b.limit, b.opos, b.wpos, View())) ==>
                && (ok <==> Admits(b.limit, |old(b.Live())|, |EncodeMessage(old(View()))|))
                && (ok ==> b.Live() == old(b.Live()) + EncodeMessage(old(View())))
      ensures
        var first := AllRecords(old(View()).sections);
        ok && first != [] && NewWithData(first[0]) ==>
          (b.Live() == old(b.Live()) + EncodeMessage(old(View()))
           <==> old(FirstInPlace(b.limit, b.opos, b.wpos, View())))
      ensures ok ==> View() == old(View()).(sections := Measured(old(View()).sections))
    {
      hide EncodeHeader, EncodeQuestions, EncodeRecords, EncodeName, NewWithData, MeasuredRecords;
      ghost var was, e0, e1 := b.Live(), EncodeHeader(header), EncodeQuestions(questions);
      ghost var rs := AllRecords(View().sections);
      SumAssociates(was, e0, e1);
      SumAssociates(was, e0 + e1, EncodeSections(View().sections));
      HeaderSize(header);
      ok := WriteHeader(b, header);
      if !ok {
        return;
      }
      ok := WriteQuestions(b, questions);
      if !ok {
        return;
      }
      assert FirstInPlace(old(b.limit), old(b.opos), old(b.wpos), old(View())) == PatchedRight(b, rs);
      ok, answers, authorities, additionals := WriteSections(b, answers, authorities, additionals);
    }
  }

  function AllRecords(s: Sections): seq<Record> {
    s.answers + s.authorities + s.additionals
  }

  /** The RDLENGTH of the first record is written where it will be looked for. */
  predicate FirstInPlace(limit: nat, opos: nat, wpos: nat, m: Message) {
    var rs := AllRecords(m.sections);
    rs == [] ||
    OriginAfter(limit, opos, wpos, 12 + |EncodeQuestions(m.questions)| + |EncodeName(rs[0].name)| + 10) == 0
  }

  /** The header of `b`, and the sections of `a` with those of `b` after them. */
  function Joined(a: Message, b: Message): Message {
    Message(b.header, a.questions + b.questions,
            Sections(a.sections.answers + b.sections.answers,
                     a.sections.authorities + b.sections.authorities,
                     a.sections.additionals + b.sections.additionals))
  }

  lemma JoinedToNothing(a: Message, b: Message)
    requires a.questions == [] && a.sections == Sections([], [], [])
    ensures Joined(a, b) == b
  {
  }

  lemma HeaderSize(h: Header)
    ensures |EncodeHeader(h)| == 12
  {
  }

  /** The texts the writer accepts. */
  predicate TextsFit(rs: seq<Record>) {
    forall r :: r in rs ==> r.rdata.TXT? ==> |r.rdata.text| <= 256
  }

  /** Records whose RDLENGTH is that of their data. */
  function MeasuredRecords(rs: seq<Record>): seq<Record> {
    if rs == [] then [] else [rs[0].(rdlen := RDataLength(rs[0].rdata))] + MeasuredRecords(rs[1..])
  }

  function Measured(s: Sections): Sections {
    Sections(MeasuredRecords(s.answers), MeasuredRecords(s.authorities), MeasuredRecords(s.additionals))
  }

  // ------------------------------------------------------------------- sections

  function QuestionsInFront(qs: seq<Question>, r: Read<seq<Question>>): Read<seq<Question>> {
    if r.Refused? then Refused else Got(qs + r.value, r.end)
  }

  function RecordsInFront(rs: seq<Record>, r: Read<seq<Record>>): Read<seq<Record>> {
    if r.Refused? then Refused else Got(rs + r.value, r.end)
  }

  lemma NextQuestion(m: Octets, pos: nat, count: nat, qs: seq<Question>)
    requires count > 0
    ensures
      var r := DecodeQuestion(m, pos);
      QuestionsInFront(qs, DecodeQuestions(m, pos, count))
      == if r.Refused? then Refused else QuestionsInFront(qs + [r.value], DecodeQuestions(m, r.end, count - 1))
  {
    var r := DecodeQuestion(m, pos);
    if r.Got? {
      var more := DecodeQuestions(m, r.end, count - 1);
      if more.Got? {
        assert qs + [r.value] + more.value == qs + ([r.value] + more.value);
      }
    }
  }

  lemma NextRecord(m: Octets, pos: nat, count: nat, rs: seq<Record>)
    requires count > 0
    ensures
      var r := DecodeRecord(m, pos);
      RecordsInFront(rs, DecodeRecords(m, pos, count))
      == if r.Refused? then Refused else RecordsInFront(rs + [r.value], DecodeRecords(m, r.end, count - 1))
  {
    hide DecodeRecord;
    var r := DecodeRecord(m, pos);
    if r.Got? {
      var more := DecodeRecords(m, r.end, count - 1);
      if more.Got? {
        assert rs + [r.value] + more.value == rs + ([r.value] + more.value);
      }
    }
  }

  method ReadQuestions(b: StreamBuffer, count: nat) returns (ok: bool, qs: seq<Question>)
    requires b.Valid()
    modifies b`rpos
    ensures b.Valid() && b.Live() == old(b.Live())
    ensures ok <==> DecodeQuestions(b.Live(), old(b.Pos()), count).Got?
    ensures ok ==> Got(qs, b.Pos()) == DecodeQuestions(b.Live(), old(b.Pos()), count)
  {
    hide DecodeQuestion;
    ghost var m, goal := b.Live(), DecodeQuestions(b.Live(), b.Pos(), count);
    qs := [];
    assert goal.Got? ==> [] + goal.value == goal.value;
    for i := 0 to count
      invariant b.Valid() && b.Live() == m
      invariant goal == QuestionsInFront(qs, DecodeQuestions(m, b.Pos(), count - i))
    {
      var q;
      NextQuestion(m, b.Pos(), count - i, qs);
      ok, q := ReadQuestion(b);
      if !ok {
        return;
      }
      qs := qs + [q];
    }
    assert qs + [] == qs;
    ok := true;
  }

  method ReadRecords(b: StreamBuffer, count: nat) returns (ok: bool, rs: seq<Record>)
    requires b.Valid()
    modifies b`rpos
    ensures b.Valid() && b.Live() == old(b.Live())
    ensures ok <==> DecodeRecords(b.Live(), old(b.Pos()), count).Got?
    ensures ok ==> Got(rs, b.Pos()) == DecodeRecords(b.Live(), old(b.Pos()), count)
  {
    hide DecodeRecord;
    ghost var m, goal := b.Live(), DecodeRecords(b.Live(), b.Pos(), count);
    rs := [];
    assert goal.Got? ==> [] + goal.value == goal.value;
    for i := 0 to count
      invariant b.Valid() && b.Live() == m
      invariant goal == RecordsInFront(rs, DecodeRecords(m, b.Pos(), count - i))
    {
      var r;
      NextRecord(m, b.Pos(), count - i, rs);
      ok, r := ReadRecord(b);
      if !ok {
        return;
      }
      rs := rs + [r];
    }
    assert rs + [] == rs;
    ok := true;
  }

  /** The record being written, and what is still to come. */
  lemma FirstRecord(rs: seq<Record>)
    requires rs != []
    ensures EncodeRecords(rs) == EncodeRecord(rs[0]) + EncodeRecords(rs[1..])
    ensures MeasuredRecords(rs) == [rs[0].(rdlen := RDataLength(rs[0].rdata))] + MeasuredRecords(rs[1..])
  {
  }

  lemma FirstQuestion(qs: seq<Question>)
    requires qs != []
    ensures EncodeQuestions(qs) == EncodeQuestion(qs[0]) + EncodeQuestions(qs[1..])
  {
  }

  method WriteQuestions(b: StreamBuffer, qs: seq<Question>) returns (ok: bool)
    requires b.Valid()
    modifies b`bytes, b`opos, b`rpos, b`wpos
    ensures b.Valid() && b.Pos() == old(b.Pos()) && |b.Live()| >= |old(b.Live())|
    ensures b.opos == OriginAfter(b.limit, old(b.opos), old(b.wpos), |b.Live()| - |old(b.Live())|)
    ensures ok <==> Admits(b.limit, |old(b.Live())|, |EncodeQuestions(qs)|)
    ensures ok ==> b.Live() == old(b.Live()) + EncodeQuestions(qs)
  {
    hide EncodeQuestion;
    ghost var goal := b.Live() + EncodeQuestions(qs);
    assert qs[0..] == qs;
    for i := 0 to |qs|
      invariant b.Valid() && b.Pos() == old(b.Pos())
      invariant b.opos == OriginAfter(b.limit, old(b.opos), old(b.wpos), |b.Live()| - |old(b.Live())|)
      invariant b.limit == old(b.limit) && b.Live() + EncodeQuestions(qs[i..]) == goal
      invariant |b.Live()| >= |old(b.Live())|
    {
      FirstQuestion(qs[i..]);
      assert qs[i..][1..] == qs[i + 1..];
      SumAssociates(b.Live(), EncodeQuestion(qs[i]), EncodeQuestions(qs[i + 1..]));
      ok := WriteQuestion(b, qs[i]);
      if !ok {
        return;
      }
    }
    assert qs[|qs|..] == [] && b.Live() + [] == b.Live();
    ok := true;
  }

  /** The first record is patched in its place, and with it all that follow. */
  ghost predicate PatchedRight(b: StreamBuffer, rs: seq<Record>)
    reads b
  {
    rs == [] || PatchOrigin(b.limit, b.opos, b.wpos, rs[0]) == 0
  }

  lemma PrefixDiffers(first: Octets, right: Octets, live: Octets, rest: Octets)
    requires |first| == |right| && first != right && first <= live
    ensures live != right + rest
  {
    assert live[..|first|] == first && (right + rest)[..|right|] == right;
  }

  /** Records one after the other. */
  method WriteRecords(b: StreamBuffer, rs: seq<Record>) returns (ok: bool, ss: seq<Record>)
    requires b.Valid() && TextsFit(rs)
    modifies b`bytes, b`opos, b`rpos, b`wpos
    ensures b.Valid() && b.Pos() == old(b.Pos()) && |b.Live()| >= |old(b.Live())|
    ensures b.opos == OriginAfter(b.limit, old(b.opos), old(b.wpos), |b.Live()| - |old(b.Live())|)
    ensures ok ==> ss == MeasuredRecords(rs)
    ensures ok ==> old(b.Live()) <= b.Live() && |b.Live()| == |old(b.Live())| + |EncodeRecords(rs)|
    ensures old(PatchedRight(b, rs)) ==>
              && (ok <==> Admits(b.limit, |old(b.Live())|, |EncodeRecords(rs)|))
              && (ok ==> b.Live() == old(b.Live()) + EncodeRecords(rs))
    ensures old(PatchedRight(b, rs)) && ok && rs != [] ==> b.opos == 0
    ensures ok && rs != [] && NewWithData(rs[0]) ==>
              (b.Live() == old(b.Live()) + EncodeRecords(rs) <==> old(PatchedRight(b, rs)))
  {
    hide EncodeRecord, RDataLength, EncodeName, EncodeRData, NewWithData;
    ghost var was, goal, right := b.Live(), b.Live() + EncodeRecords(rs), PatchedRight(b, rs);
    ghost var first := was;
    assert rs[0..] == rs;
    ss := [];
    assert [] + MeasuredRecords(rs) == MeasuredRecords(rs);
    for i := 0 to |rs|
      invariant b.Valid() && b.Pos() == old(b.Pos()) && b.limit == old(b.limit)
      invariant b.opos == OriginAfter(b.limit, old(b.opos), old(b.wpos), |b.Live()| - |old(b.Live())|)
      invariant was <= b.Live() && |b.Live()| + |EncodeRecords(rs[i..])| == |goal|
      invariant right ==> b.Live() + EncodeRecords(rs[i..]) == goal && (i > 0 ==> b.opos == 0)
      invariant first <= b.Live() && (i > 0 ==> |first| == |was + EncodeRecord(rs[0])|)
      invariant i > 0 && !right && NewWithData(rs[0]) ==> first != was + EncodeRecord(rs[0])
      invariant i == 0 ==> b.Live() == was && b.opos == old(b.opos) && b.wpos == old(b.wpos)
      invariant ss + MeasuredRecords(rs[i..]) == MeasuredRecords(rs)
    {
      FirstRecord(rs[i..]);
      RecordSize(rs[i]);
      assert rs[i..][1..] == rs[i + 1..];
      SumAssociates(b.Live(), EncodeRecord(rs[i]), EncodeRecords(rs[i + 1..]));
      ghost var here := b.Live();
      var r;
      ok, r := WriteRecord(b, rs[i]);
      if !ok {
        return;
      }
      PrefixTransitive(was, here, b.Live());
      PrefixTransitive(first, here, b.Live());
      if i == 0 {
        first := b.Live();
      }
      assert ss + ([r] + MeasuredRecords(rs[i + 1..])) == ss + [r] + MeasuredRecords(rs[i + 1..]);
      ss := ss + [r];
    }
    assert rs[|rs|..] == [] && b.Live() + [] == b.Live() && ss + [] == ss;
    ok := true;
    if rs != [] && !right && NewWithData(rs[0]) {
      FirstRecord(rs);
      SumAssociates(was, EncodeRecord(rs[0]), EncodeRecords(rs[1..]));
      PrefixDiffers(first, was + EncodeRecord(rs[0]), b.Live(), EncodeRecords(rs[1..]));
    }
  }

  method WriteSections(b: StreamBuffer, an: seq<Record>, ns: seq<Record>, ar: seq<Record>)
      returns (ok: bool, an': seq<Record>, ns': seq<Record>, ar': seq<Record>)
    requires b.Valid() && TextsFit(an) && TextsFit(ns) && TextsFit(ar)
    modifies b`bytes, b`opos, b`rpos, b`wpos
    ensures b.Valid() && b.Pos() == old(b.Pos())
    ensures ok ==> Sections(an', ns', ar') == Measured(Sections(an, ns, ar))
    ensures
      var s := Sections(an, ns, ar);
      var rs, e := AllRecords(s), EncodeSections(s);
      && (old(PatchedRight(b, rs)) ==>
            && (ok <==> Admits(b.limit, |old(b.Live())|, |e|))
            && (ok ==> b.Live() == old(b.Live()) + e))
      && (ok && rs != [] && NewWithData(rs[0]) ==> (b.Live() == old(b.Live()) + e <==> old(PatchedRight(b, rs))))
  {
    hide EncodeRecords, EncodeName, NewWithData, MeasuredRecords;
    ghost var was, right := b.Live(), PatchedRight(b, AllRecords(Sections(an, ns, ar)));
    ghost var e1, e2, e3 := EncodeRecords(an), EncodeRecords(ns), EncodeRecords(ar);
    NothingEncoded();
    SumAssociates(was, e1, e2);
    SumAssociates(was, e1 + e2, e3);
    SumAssociates(was + e1, e2, e3);
    an', ns', ar' := an, ns, ar;
    FirstOfAll(b, an, ns + ar);
    FirstOfAll(b, ns, ar);
    assert an + ns + ar == an + (ns + ar);
    ok, an' := WriteRecords(b, an);
    if !ok {
      return;
    }
    ghost var one := b.Live();
    FirstOfAll(b, ns, ar);
    assert an == [] ==> PatchedRight(b, ns + ar) == right;
    assert right ==> PatchedRight(b, ns);
    ok, ns' := WriteRecords(b, ns);
    if !ok {
      return;
    }
    ghost var two := b.Live();
    assert an == [] && ns == [] ==> PatchedRight(b, ar) == right;
    assert right ==> PatchedRight(b, ar);
    ok, ar' := WriteRecords(b, ar);
    if ok {
      PrefixTransitive(one, two, b.Live());
      if one != was + e1 {
        PrefixDiffers(one, was + e1, b.Live(), e2 + e3);
      } else if two != was + e1 + e2 {
        PrefixDiffers(two, was + e1 + e2, b.Live(), e3);
      }
    }
  }

  lemma FirstOfAll(b: StreamBuffer, rs: seq<Record>, more: seq<Record>)
    ensures rs != [] ==> (PatchedRight(b, rs + more) <==> PatchedRight(b, rs))
    ensures rs == [] ==> (PatchedRight(b, rs + more) <==> PatchedRight(b, more))
    ensures b.opos == 0 ==> PatchedRight(b, rs)
  {
    assert rs == [] ==> rs + more == more;
  }

  lemma NothingEncoded()
    ensures EncodeRecords([]) == [] && forall a: Octets :: a + [] == a
  {
  }

  // ------------------------------------------------------------------ end to end

  lemma {:induction false} GoodTextsFit(rs: seq<Record>)
    requires GoodRecords(rs)
    ensures TextsFit(rs)
  {
    if rs != [] {
      GoodTextsFit(rs[1..]);
      assert rs == [rs[0]] + rs[1..];
    }
  }

  lemma {:induction false} MeasuredSame(rs: seq<Record>)
    ensures SameRecords(MeasuredRecords(rs), rs)
  {
    if rs != [] {
      FirstRecord(rs);
      var ms := MeasuredRecords(rs);
      assert ms[1..] == MeasuredRecords(rs[1..]);
      MeasuredSame(rs[1..]);
    }
  }

  /**
   Relay a message: read it from `src`, write it into an empty buffer, and read
   that buffer with a fresh object.  The first object means what was read, and the
   second means the same exactly when no label is a single dot.
   */
  method Relay(src: StreamBuffer) returns (ok: bool, first: DnsMessage, second: DnsMessage)
    requires src.Valid()
    modifies src`opos, src`rpos, src`wpos
    ensures DecodeMessage(old(src.Live()), old(src.Pos())).Refused? ==> !ok
    ensures DecodeMessage(old(src.Live()), old(src.Pos())).Got? ==>
              var msg := DecodeMessage(old(src.Live()), old(src.Pos())).value;
              && (ok <==> SectionsFit(msg.sections) && |EncodeMessage(msg)| <= MAX_BUFFER_SIZE)
              && (ok ==> SameMeaning(first.View(), msg))
              && (ok ==> (SameMeaning(second.View(), msg) <==> UndottedMessage(msg)))
  {
    hide DecodeMessage, EncodeMessage, UndottedMessage, SectionsFit, GoodRecord, MeasuredRecords, SameRecords;
    first := new DnsMessage();
    second := new DnsMessage();
    ghost var empty := first.View();
    ghost var m, pos := src.Live(), src.Pos();
    ok := first.FromBuffer(src);
    if !ok {
      return;
    }
    ghost var msg := first.View();
    JoinedToNothing(empty, DecodeMessage(m, pos).value);
    DecodedIsGood(m, pos);
    GoodTextsFit(first.answers);
    GoodTextsFit(first.authorities);
    GoodTextsFit(first.additionals);
    var buf := new StreamBuffer();
    assert FirstInPlace(buf.limit, buf.opos, buf.wpos, msg);
    ok := first.ToBuffer(buf);
    if !ok {
      return;
    }
    MeasuredSame(msg.sections.answers);
    MeasuredSame(msg.sections.authorities);
    MeasuredSame(msg.sections.additionals);
    ReencodeLaw(m, pos, []);
    assert buf.Live() == EncodeMessage(msg) == EncodeMessage(msg) + [];
    ok := second.FromBuffer(buf);
    if ok {
      JoinedToNothing(empty, DecodeMessage(EncodeMessage(msg), 0).value);
    }
  }
}
