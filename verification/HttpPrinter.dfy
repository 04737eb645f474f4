/**
 Printing an HTTP message, and the law that parsing undoes printing.
 */
module HttpPrinter {
  import opened Bytes
  import opened StreamBuffers
  import opened HttpText
  import opened HttpParser

  /** What a caller can see of a complete message. */
  datatype Msg = Msg(start: Start, headers: seq<Header>, body: Octets)

  /** Status code to phrase, used when a response has no phrase of its own. */
  type Phrases = map<int, Octets>

  function Phrase(r: Start, phrases: Phrases): Octets
    requires r.Response?
  {
    if r.phrase == [] && r.code in phrases then phrases[r.code] else r.phrase
  }

  function PrintStart(s: Start, phrases: Phrases): Octets {
    match s
    case Request(verb, url, version) => verb + [SP] + url + [SP] + version
    case Response(version, code, phrase) => version + [SP] + PrintInt(code) + [SP] + Phrase(s, phrases)
  }

  function PrintHeader(h: Header): Octets {
    h.key + [COLON] + h.value + CRLF
  }

  function PrintHeaders(hs: seq<Header>): Octets {
    if hs == [] then [] else PrintHeader(hs[0]) + PrintHeaders(hs[1..])
  }

  /** Everything before the blank line. */
  function PrintHead(m: Msg, phrases: Phrases): Octets {
    PrintStart(m.start, phrases) + CRLF + PrintHeaders(m.headers)
  }

  function Print(m: Msg, phrases: Phrases): Octets {
    PrintHead(m, phrases) + CRLF + m.body
  }

  // ------------------------------------------------------- what can be printed

  /** A status code without a phrase has one in the table; of another code the source makes
      a string from a null pointer. */
  predicate HasPhrase(s: Start, phrases: Phrases) {
    s.Response? ==> s.phrase != [] || s.code in phrases
  }

  /** The source looks at the last character of a key and asserts that it is no colon; an
      empty key has none. */
  predicate PrintableKey(key: Octets) {
    key != [] && key[|key| - 1] != COLON
  }

  predicate CanPrint(m: Msg, phrases: Phrases) {
    HasPhrase(m.start, phrases) && forall i :: 0 <= i < |m.headers| ==> PrintableKey(m.headers[i].key)
  }

  /** What printing comes to: the bytes, or nothing where the source fails. */
  function PrintOf(m: Msg, phrases: Phrases): Option<Octets> {
    if CanPrint(m, phrases) then Some(Print(m, phrases)) else None
  }

  /** A message cannot be printed exactly when it is a response without a phrase whose code the
      table does not know, or some key is empty or ends with a colon. */
  lemma PrintFails(m: Msg, phrases: Phrases)
    ensures PrintOf(m, phrases) == None <==>
            || (m.start.Response? && m.start.phrase == [] && m.start.code !in phrases)
            || exists h :: h in m.headers && (h.key == [] || h.key[|h.key| - 1] as char == ':')
  {
    if i :| 0 <= i < |m.headers| && !PrintableKey(m.headers[i].key) {
      assert m.headers[i] in m.headers;
    }
  }

  /** How many headers come before the first that cannot be printed. */
  function PrintableCount(hs: seq<Header>): (n: nat)
    ensures n <= |hs|
  {
    if hs == [] || !PrintableKey(hs[0].key) then 0 else 1 + PrintableCount(hs[1..])
  }

  lemma {:induction false} PrintableCountIs(hs: seq<Header>, i: nat)
    ensures i < PrintableCount(hs) ==> PrintableKey(hs[i].key)
    ensures i == PrintableCount(hs) < |hs| ==> !PrintableKey(hs[i].key)
  {
    if hs != [] && PrintableKey(hs[0].key) && i > 0 {
      PrintableCountIs(hs[1..], i - 1);
    }
  }

  lemma AllPrintable(hs: seq<Header>)
    ensures PrintableCount(hs) == |hs| <==> forall i :: 0 <= i < |hs| ==> PrintableKey(hs[i].key)
  {
    PrintableCountIs(hs, PrintableCount(hs));
    forall i | 0 <= i < PrintableCount(hs)
      ensures PrintableKey(hs[i].key)
    {
      PrintableCountIs(hs, i);
    }
  }

  /** Printing into a buffer with `used` live bytes fails in the source before the buffer is
      full: at the first line, or at a header with everything before it written. */
  predicate Breaks(m: Msg, phrases: Phrases, limit: nat, used: nat) {
    var n := PrintableCount(m.headers);
    || !HasPhrase(m.start, phrases)
    || (n < |m.headers| && Admits(limit, used, |PrintHead(m.(headers := m.headers[..n]), phrases)|))
  }

  lemma {:induction false} FewerHeaders(hs: seq<Header>, i: nat, j: nat)
    requires i <= j <= |hs|
    ensures |PrintHeaders(hs[..i])| <= |PrintHeaders(hs[..j])|
    decreases j
  {
    if i > 0 {
      assert hs[..i][0] == hs[0] && hs[..j][0] == hs[0];
      assert hs[..i][1..] == hs[1..][..i - 1] && hs[..j][1..] == hs[1..][..j - 1];
      FewerHeaders(hs[1..], i - 1, j - 1);
    }
  }

  // ---------------------------------------------------- what can be printed back

  /** Contains no line break. */
  predicate OneLine(s: Octets) {
    Find(s, CRLF) < 0
  }

  predicate GoodStart(s: Start, phrases: Phrases) {
    match s
    case Request(verb, url, version) =>
      && verb != [] && url != [] && version != []
      && NoSpace(verb) && NoSpace(url) && NoSpace(version)
    case Response(version, _, _) =>
      && SP !in version
      && OneLine(PrintStart(s, phrases))
  }

  predicate GoodHeader(h: Header) {
    && COLON !in h.key && 0 !in h.key && 0 !in h.value
    && OneLine(h.key + [COLON] + h.value)
  }

  predicate DistinctKeys(hs: seq<Header>) {
    forall i, j :: 0 <= i < j < |hs| ==> hs[i].key != hs[j].key
  }

  /** What is printed can be read back. */
  predicate Legible(m: Msg, phrases: Phrases) {
    && GoodStart(m.start, phrases)
    && (forall i :: 0 <= i < |m.headers| ==> GoodHeader(m.headers[i]))
    && DistinctKeys(m.headers)
    && ContentLength(m.headers) == |m.body|
  }

  predicate Good(m: Msg, phrases: Phrases) {
    Legible(m, phrases) && CanPrint(m, phrases)
  }

  /** A message with the phrase that is printed for it. */
  function Named(m: Msg, phrases: Phrases): Msg {
    if m.start.Response? then m.(start := m.start.(phrase := Phrase(m.start, phrases))) else m
  }

  // -------------------------------------------------------------- single lines

  lemma {:induction false} LineEnds(s: Octets, t: Octets)
    requires OneLine(s)
    ensures Find(s + CRLF + t, CRLF) == |s|
    decreases |s|
  {
    var u := s + CRLF + t;
    if s == [] {
      assert u[..2] == CRLF;
    } else {
      assert u[1..] == s[1..] + CRLF + t;
      if |s| >= 2 {
        assert u[..2] == s[..2];
      } else {
        assert u[1] == CR;
      }
      LineEnds(s[1..], t);
    }
  }

  lemma {:induction false} NoReturnIsOneLine(s: Octets)
    requires forall i :: 0 <= i < |s| ==> s[i] != CR
    ensures OneLine(s)
  {
    if s != [] {
      assert |s| >= 2 ==> s[..2][0] == s[0];
      NoReturnIsOneLine(s[1..]);
    }
  }

  lemma StartIsOneLine(s: Start, phrases: Phrases)
    requires GoodStart(s, phrases)
    ensures OneLine(PrintStart(s, phrases)) && PrintStart(s, phrases) != []
  {
    if s.Request? {
      var l := PrintStart(s, phrases);
      assert forall i :: 0 <= i < |l| ==> l[i] in s.verb || l[i] in s.url || l[i] in s.version || l[i] == SP;
      NoReturnIsOneLine(l);
    }
  }

  lemma RequestRoundTrip(was: Start, verb: Octets, url: Octets, version: Octets)
    requires was.Request? && GoodStart(Request(verb, url, version), map[])
    ensures ParseRequestLine(was, verb + [SP] + url + [SP] + version) == Request(verb, url, version)
  {
    var l2 := [SP] + version;
    var l1 := [SP] + url + l2;
    SumAssociates(verb, [SP] + url, l2);
    SumAssociates(verb, [SP], url);
    SumAssociates(verb + [SP] + url, [SP], version);
    ExtractWord(verb, l1);
    ExtractWord(url, l2);
    assert l2 + [] == l2;
    ExtractWord(version, []);
  }

  lemma ResponseRoundTrip(was: Start, version: Octets, code: int, phrase: Octets)
    requires was.Response? && SP !in version
    ensures ParseResponseLine(was, version + [SP] + PrintInt(code) + [SP] + phrase) == Response(version, code, phrase)
  {
    var number := PrintInt(code);
    var rest := number + [SP] + phrase;
    var l := version + [SP] + rest;
    SumAssociates(version + [SP], number + [SP], phrase);
    SumAssociates(version + [SP], number, [SP]);
    FindByteIs(version, SP, rest);
    assert l[..|version|] == version && l[|version| + 1..] == rest;
    PrintIntRoundTrip(code);
    FindByteIs(number, SP, phrase);
    assert rest[..|number|] == number && rest[|number| + 1..] == phrase;
  }

  /** Parsing a printed first line sets every field of it. */
  lemma StartRoundTrip(was: Start, s: Start, phrases: Phrases)
    requires GoodStart(s, phrases) && was.Request? == s.Request?
    ensures ParseStart(was, PrintStart(s, phrases)) == Named(Msg(s, [], []), phrases).start
  {
    StartIsOneLine(s, phrases);
    match s
    case Request(verb, url, version) =>
      RequestRoundTrip(was, verb, url, version);
    case Response(version, code, _) =>
      ResponseRoundTrip(was, version, code, Phrase(s, phrases));
  }

  // ------------------------------------------------------------------- headers

  lemma {:induction false} SetNewHeader(hs: seq<Header>, h: Header)
    requires forall i :: 0 <= i < |hs| ==> hs[i].key != h.key
    ensures SetHeader(hs, h.key, h.value) == hs + [h]
  {
    if hs != [] {
      SetNewHeader(hs[1..], h);
      assert hs + [h] == [hs[0]] + (hs[1..] + [h]);
    }
  }

  lemma CStringWhole(s: Octets)
    requires 0 !in s
    ensures CString(s) == s
  {
    FindByteFirst(s, 0);
  }

  /** A printed header line is read back and appended. */
  lemma HeaderLineRoundTrip(p: Parser, h: Header)
    requires GoodHeader(h)
    requires forall i :: 0 <= i < |p.headers| ==> p.headers[i].key != h.key
    ensures HeaderLine(p, h.key + [COLON] + h.value) == p.(headers := p.headers + [h])
  {
    var l := h.key + [COLON] + h.value;
    FindByteIs(h.key, COLON, h.value);
    assert l[..|h.key|] == h.key && l[|h.key| + 1..] == h.value;
    CStringWhole(h.key);
    CStringWhole(h.value);
    SetNewHeader(p.headers, h);
  }

  /** One turn of the header loop takes one printed header. */
  lemma TurnRoundTrip(p: Parser, h: Header, v: Octets)
    requires p.phase == HEADER && GoodHeader(h)
    requires forall i :: 0 <= i < |p.headers| ==> p.headers[i].key != h.key
    ensures HeaderTurn(Point(p, PrintHeader(h) + v)) == (true, Point(p.(headers := p.headers + [h]), v))
  {
    var l := h.key + [COLON] + h.value;
    var u := l + CRLF + v;
    LineEnds(l, v);
    assert u[..|l|] == l && u[|l| + 2..] == v;
    HeaderLineRoundTrip(p, h);
  }

  lemma BlankLineRoundTrip(p: Parser, t: Octets)
    requires p.phase == HEADER
    ensures HeaderStage(Point(p, CRLF + t)) == Point(EndHeaders(p), t)
  {
    assert [] + CRLF + t == CRLF + t;
    LineEnds([], t);
    assert (CRLF + t)[2..] == t;
  }

  lemma {:induction false} HeadersRoundTrip(p: Parser, hs: seq<Header>, t: Octets)
    requires p.phase == HEADER
    requires DistinctKeys(p.headers + hs)
    requires forall i :: 0 <= i < |hs| ==> GoodHeader(hs[i])
    ensures HeaderStage(Point(p, PrintHeaders(hs) + CRLF + t)) == Point(EndHeaders(p.(headers := p.headers + hs)), t)
    decreases |hs|
  {
    if hs == [] {
      assert [] + CRLF + t == CRLF + t;
      BlankLineRoundTrip(p, t);
      assert p.headers + hs == p.headers;
    } else {
      var h, more := hs[0], PrintHeaders(hs[1..]);
      SumAssociates(PrintHeader(h), more, CRLF);
      SumAssociates(PrintHeader(h), more + CRLF, t);
      forall i | 0 <= i < |p.headers|
        ensures p.headers[i].key != h.key
      {
        assert (p.headers + hs)[i] == p.headers[i] && (p.headers + hs)[|p.headers|] == h;
      }
      TurnRoundTrip(p, h, more + CRLF + t);
      var q := p.(headers := p.headers + [h]);
      assert q.headers + hs[1..] == p.headers + hs;
      HeadersRoundTrip(q, hs[1..], t);
    }
  }

  // ------------------------------------------------------------- whole messages

  /** A parser ready for a new message. */
  predicate Blank(p: Parser) {
    p.phase == READY && p.headers == [] && p.body == None
  }

  /** A parser that has just completed message `m`. */
  function Completed(m: Msg): Parser {
    Parser(DONE, m.start, m.headers, |m.body|, if m.body == [] then None else Some(m.body))
  }

  lemma PrintSplits(m: Msg, phrases: Phrases, t: Octets)
    ensures Print(m, phrases) + t
         == PrintStart(m.start, phrases) + CRLF + (PrintHeaders(m.headers) + CRLF + (m.body + t))
  {
  }

  lemma FirstLineRoundTrip(p: Parser, s: Start, phrases: Phrases, v: Octets)
    requires Blank(p) && GoodStart(s, phrases) && p.start.Request? == s.Request?
    ensures StartStage(Point(p, PrintStart(s, phrases) + CRLF + v))
         == Point(p.(phase := HEADER, start := Named(Msg(s, [], []), phrases).start), v)
  {
    var l := PrintStart(s, phrases);
    StartIsOneLine(s, phrases);
    StartRoundTrip(p.start, s, phrases);
    LineEnds(l, v);
    assert (l + CRLF + v)[..|l|] == l && (l + CRLF + v)[|l| + 2..] == v;
  }

  lemma ReadBack(p: Parser, m: Msg, phrases: Phrases, t: Octets)
    requires Blank(p) && Legible(m, phrases) && p.start.Request? == m.start.Request?
    ensures Feed(Point(p, Print(m, phrases) + t)) == Point(Completed(Named(m, phrases)), t)
  {
    PrintSplits(m, phrases, t);
    FirstLineRoundTrip(p, m.start, phrases, PrintHeaders(m.headers) + CRLF + (m.body + t));
    var q := p.(phase := HEADER, start := Named(m, phrases).start);
    assert q.headers + m.headers == m.headers;
    HeadersRoundTrip(q, m.headers, m.body + t);
    assert (m.body + t)[..|m.body|] == m.body && (m.body + t)[|m.body|..] == t;
  }

  /** A legible message can be printed exactly when it has a phrase, of its own or in the table,
      and no empty key; then parsing what is printed, whatever follows it, gives the message
      back in one call and leaves exactly what follows. */
  lemma RoundTrip(p: Parser, m: Msg, phrases: Phrases, t: Octets)
    requires Blank(p) && Legible(m, phrases) && p.start.Request? == m.start.Request?
    ensures
      var e := PrintOf(m, phrases);
      && (e.Some? <==> HasPhrase(m.start, phrases) && forall i :: 0 <= i < |m.headers| ==> m.headers[i].key != [])
      && (e.Some? ==> Feed(Point(p, e.value + t)) == Point(Completed(Named(m, phrases)), t))
  {
    hide Feed, Print;
    ReadBack(p, m, phrases, t);
    LegibleKeys(m.headers);
  }

  lemma LegibleKeys(hs: seq<Header>)
    requires forall i :: 0 <= i < |hs| ==> GoodHeader(hs[i])
    ensures forall i :: 0 <= i < |hs| ==> (PrintableKey(hs[i].key) <==> hs[i].key != [])
  {
  }

  /** A message that is fed as its first line, its headers, a blank line and a body, where the
      first Content-Length header holds the length of the body behind any space, completes
      with exactly that body, and leaves what follows. */
  lemma LengthedBody(p: Parser, m: Msg, phrases: Phrases, i: nat, w: Octets, t: Octets, rest: Octets)
    requires Blank(p) && p.start.Request? == m.start.Request? && GoodStart(m.start, phrases)
    requires DistinctKeys(m.headers) && forall j :: 0 <= j < |m.headers| ==> GoodHeader(m.headers[j])
    requires i < |m.headers| && m.headers[i].key == CONTENT_LENGTH && |m.body| <= LONG_MAX
    requires AllSpace(w) && (t == [] || !IsDigit(t[0])) && m.headers[i].value == w + (PrintInt(|m.body|) + t)
    ensures
      var u := PrintStart(m.start, phrases) + CRLF + (PrintHeaders(m.headers) + CRLF + (m.body + rest));
      var y := Feed(Point(p, u));
      && y.p.phase == DONE && y.u == rest && y.p.bodyLen == |m.body|
      && y.p.body == (if m.body == [] then None else Some(m.body)) && y.p.headers == m.headers
  {
    forall j | 0 <= j < i
      ensures m.headers[j].key != CONTENT_LENGTH
    {
    }
    ContentLengthReads(m.headers, i, w, |m.body|, t);
    PrintSplits(m, phrases, rest);
    ReadBack(p, m, phrases, rest);
  }

  /** A line without a colon among the headers stops the parser for good. */
  lemma AbortedLine(p: Parser, line: Octets, v: Octets, more: Octets)
    requires p.phase == HEADER && line != [] && OneLine(line) && COLON !in line
    ensures Feed(Point(p, line + CRLF + v)) == Point(p.(phase := ABORTED), v)
    ensures Feed(Point(p.(phase := ABORTED), v).More(more)) == Point(p.(phase := ABORTED), v).More(more)
  {
    var u := line + CRLF + v;
    LineEnds(line, v);
    assert u[..|line|] == line && u[|line| + 2..] == v;
    HeaderLineAborts(p, line);
  }

  /** How a request and a response look: "GET / HTTP/1.1" with the header "A:b" and the body
      "x", and "HTTP/1.1 404 No" without either. */
  lemma PrintedBytes()
    ensures Print(Msg(Request([71, 69, 84], [47], [72, 84, 84, 80]), [Header([65], [98])], [120]), map[])
         == [71, 69, 84, 32, 47, 32, 72, 84, 84, 80, 13, 10, 65, 58, 98, 13, 10, 13, 10, 120]
    ensures Print(Msg(Response([72, 84, 84, 80], 404, [78, 111]), [], []), map[])
         == [72, 84, 84, 80, 32, 52, 48, 52, 32, 78, 111, 13, 10, 13, 10]
    ensures Print(Msg(Response([72, 84, 84, 80], 404, []), [], []), map[404 := [78]])
         == [72, 84, 84, 80, 32, 52, 48, 52, 32, 78, 13, 10, 13, 10]
  {
    assert Digits(404) == Digits(40) + [52] && Digits(40) == Digits(4) + [48] && Digits(4) == [52];
    assert PrintInt(404) == [52, 48, 52];
    var h := [Header([65], [98])];
    assert h[1..] == [] && PrintHeaders(h) == PrintHeader(h[0]) + PrintHeaders([]);
  }
}
