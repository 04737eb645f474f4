/**
 The resumable HTTP parser of netb/HttpMessage.cpp as a state machine over the
 unread bytes of a buffer, and its independence of how the bytes arrive.

 Assertions are active in the source's build: a header line without a colon
 stops the program, which is the phase `ABORTED` here.
 */
module HttpParser {
  import opened Bytes
  import opened HttpText

  datatype Phase = READY | HEADER | BODY | DONE | ABORTED

  /** The fields set by the first line, for the two derived classes. */
  datatype Start =
    | Request(verb: Octets, url: Octets, version: Octets)
    | Response(version: Octets, code: int, phrase: Octets)

  datatype Header = Header(key: Octets, value: Octets)

  datatype Parser = Parser(phase: Phase, start: Start, headers: seq<Header>, bodyLen: nat, body: Option<Octets>)

  // -------------------------------------------------------------- first line

  /** Missing words leave the old field values. */
  function ParseRequestLine(was: Start, line: Octets): (r: Start)
    requires was.Request?
    ensures r.Request?
  {
    match Extract(line)
    case None => was
    case Some((verb, l1)) =>
      match Extract(l1)
      case None => was.(verb := verb)
      case Some((url, l2)) =>
        match Extract(l2)
        case None => was.(verb := verb, url := url)
        case Some((version, _)) => Request(verb, url, version)
  }

  function ParseResponseLine(was: Start, line: Octets): (r: Start)
    requires was.Response?
    ensures r.Response?
  {
    var i := FindByte(line, SP);
    if i < 0 then was
    else
      var rest := line[i + 1..];
      var j := FindByte(rest, SP);
      if j < 0 then Response(line[..i], was.code, was.phrase)
      else Response(line[..i], ParseInt(rest[..j]), rest[j + 1..])
  }

  function ParseStart(was: Start, line: Octets): (r: Start)
    ensures r.Request? == was.Request?
  {
    if line == [] then was
    else if was.Request? then ParseRequestLine(was, line)
    else ParseResponseLine(was, line)
  }

  // ----------------------------------------------------------------- headers

  /** Replace the value of the first header with this key, or append. */
  function SetHeader(hs: seq<Header>, key: Octets, value: Octets): seq<Header> {
    if hs == [] then [Header(key, value)]
    else if hs[0].key == key then [Header(key, value)] + hs[1..]
    else [hs[0]] + SetHeader(hs[1..], key, value)
  }

  function GetHeader(hs: seq<Header>, key: Octets): Option<Octets> {
    if hs == [] then None
    else if hs[0].key == key then Some(hs[0].value)
    else GetHeader(hs[1..], key)
  }

  /** "Content-Length" */
  const CONTENT_LENGTH: Octets := [67, 111, 110, 116, 101, 110, 116, 45, 76, 101, 110, 103, 116, 104]

  /** The number in the header, converted to `size_t`; a missing header counts as
      0 (the source builds a string from a null pointer then). */
  function ContentLength(hs: seq<Header>): nat {
    match GetHeader(hs, CONTENT_LENGTH)
    case None => 0
    case Some(v) => ToSize(ParseLong(v))
  }

  /** As it is written, the number is read from a string made of what `GetHeader` returns,
      and that is a null pointer for a missing header. */
  function CodedContentLength(hs: seq<Header>): Option<nat> {
    match GetHeader(hs, CONTENT_LENGTH)
    case None => None
    case Some(v) => Some(ToSize(ParseLong(v)))
  }

  /** It gives the length meant exactly when the header is there. */
  lemma {:induction false} CodedContentLengthIsRight(hs: seq<Header>)
    ensures CodedContentLength(hs) == Some(ContentLength(hs)) <==>
            exists i :: 0 <= i < |hs| && hs[i].key == CONTENT_LENGTH
  {
    GetHeaderFinds(hs, CONTENT_LENGTH);
  }

  lemma {:induction false} GetHeaderFinds(hs: seq<Header>, key: Octets)
    ensures GetHeader(hs, key).Some? <==> exists i :: 0 <= i < |hs| && hs[i].key == key
  {
    if hs != [] && hs[0].key != key {
      GetHeaderFinds(hs[1..], key);
      if i :| 0 <= i < |hs| && hs[i].key == key {
        assert hs[1..][i - 1].key == key;
      }
      if j :| 0 <= j < |hs[1..]| && hs[1..][j].key == key {
        assert hs[j + 1].key == key;
      }
    }
  }

  /** What a number stands for as a length: a `long` that stops at its bounds, and then
      an unsigned number of 64 bits. */
  function LengthOf(v: int): int {
    if v >= 0x7FFF_FFFF_FFFF_FFFF then 0x7FFF_FFFF_FFFF_FFFF
    else if v >= 0 then v
    else if v <= -0x8000_0000_0000_0000 then 0x8000_0000_0000_0000
    else 0x1_0000_0000_0000_0000 + v
  }

  lemma {:induction false} GetHeaderFirst(hs: seq<Header>, key: Octets, i: nat)
    requires i < |hs| && hs[i].key == key && forall j :: 0 <= j < i ==> hs[j].key != key
    ensures GetHeader(hs, key) == Some(hs[i].value)
  {
    if i > 0 {
      GetHeaderFirst(hs[1..], key, i - 1);
    }
  }

  /** The length is the number in the first header of that key, behind any space and in front
      of anything that is no digit; without the header it is 0. */
  lemma ContentLengthReads(hs: seq<Header>, i: nat, w: Octets, v: int, t: Octets)
    requires AllSpace(w) && (t == [] || !IsDigit(t[0]))
    requires i < |hs| ==> hs[i].key == CONTENT_LENGTH && hs[i].value == w + (PrintInt(v) + t)
    requires forall j :: 0 <= j < i && j < |hs| ==> hs[j].key != CONTENT_LENGTH
    ensures ContentLength(hs) == if i < |hs| then LengthOf(v) else 0
    ensures i < |hs| && 0 <= v <= LONG_MAX ==> ContentLength(hs) == v
  {
    GetHeaderFinds(hs, CONTENT_LENGTH);
    if i < |hs| {
      GetHeaderFirst(hs, CONTENT_LENGTH, i);
      ParseIntReads(w, v, t);
    }
  }

  // -------------------------------------------------- lines that were not printed here

  /** A first line of fewer than three words sets what it has; a fourth word is ignored. */
  lemma RequestWords(was: Start, w: Octets, verb: Octets, url: Octets, version: Octets, t: Octets)
    requires was.Request? && AllSpace(w) && w != []
    requires verb != [] && NoSpace(verb) && url != [] && NoSpace(url) && version != [] && NoSpace(version)
    requires t == [] || IsSpace(t[0])
    ensures ParseRequestLine(was, w) == was
    ensures ParseRequestLine(was, verb) == was.(verb := verb)
    ensures ParseRequestLine(was, verb + (w + url)) == was.(verb := verb, url := url)
    ensures ParseRequestLine(was, verb + (w + (url + (w + (version + t))))) == Request(verb, url, version)
  {
    ExtractNothing(w);
    ExtractNothing([]);
    assert verb + [] == verb && url + [] == url;
    ExtractWord(verb, []);
    ExtractWord(verb, w + url);
    ExtractBehindSpace(w, url, []);
    ExtractWord(verb, w + (url + (w + (version + t))));
    ExtractBehindSpace(w, url, w + (version + t));
    ExtractBehindSpace(w, version, t);
  }

  /** A status line without a space changes nothing; with one space it sets the version. */
  lemma StatusWords(was: Start, version: Octets, t: Octets)
    requires was.Response? && SP !in version && SP !in t
    ensures ParseResponseLine(was, version) == was
    ensures ParseResponseLine(was, version + [SP] + t) == was.(version := version)
  {
    FindByteFirst(version, SP);
    FindByteIs(version, SP, t);
    FindByteFirst(t, SP);
    var line := version + [SP] + t;
    assert line[..|version|] == version && line[|version| + 1..] == t;
  }

  /** A header line is cut at its first colon, and neither side is trimmed; each ends at a zero
      byte, as a C string does. */
  lemma HeaderLineCut(p: Parser, key: Octets, value: Octets)
    requires COLON !in key
    ensures HeaderLine(p, key + [COLON] + value) == p.(headers := SetHeader(p.headers, CString(key), CString(value)))
    ensures 0 !in key && 0 !in value ==>
              HeaderLine(p, key + [COLON] + value) == p.(headers := SetHeader(p.headers, key, value))
  {
    var line := key + [COLON] + value;
    FindByteIs(key, COLON, value);
    assert line[..|key|] == key && line[|key| + 1..] == value;
    if 0 !in key && 0 !in value {
      CStringIs(key, []);
      CStringIs(value, []);
    }
  }

  /** A header line without a colon ends the parser. */
  lemma HeaderLineAborts(p: Parser, line: Octets)
    requires COLON !in line
    ensures HeaderLine(p, line) == p.(phase := ABORTED)
  {
    FindByteFirst(line, COLON);
  }

  // ------------------------------------------------------------------ stages

  /** A parser in front of the bytes it has not taken yet. */
  datatype Point = Point(p: Parser, u: Octets) {
    /** More bytes arrive. */
    function More(b: Octets): Point {
      Point(p, u + b)
    }
  }

  function StartStage(x: Point): (y: Point)
    ensures |y.u| <= |x.u|
    ensures x.p.phase != READY ==> y == x
    ensures y.p.start.Request? == x.p.start.Request?
  {
    var n := Find(x.u, CRLF);
    if x.p.phase == READY && n >= 0
    then Point(x.p.(phase := HEADER, start := ParseStart(x.p.start, x.u[..n])), x.u[n + 2..])
    else x
  }

  /** One header line, which is not blank. */
  function HeaderLine(p: Parser, line: Octets): Parser {
    var c := FindByte(line, COLON);
    if c < 0 then p.(phase := ABORTED)
    else p.(headers := SetHeader(p.headers, CString(line[..c]), CString(line[c + 1..])))
  }

  /** The blank line. */
  function EndHeaders(p: Parser): Parser {
    var n := ContentLength(p.headers);
    p.(bodyLen := n, phase := if n > 0 then BODY else DONE)
  }

  /** One turn of the loop over header lines: whether it goes on, and from where. */
  function HeaderTurn(x: Point): (r: (bool, Point))
    ensures |r.1.u| <= |x.u|
    ensures r.0 ==> |r.1.u| < |x.u| && x.p.phase == HEADER && r.1.p.phase == HEADER
    ensures x.p.phase == HEADER ==> r.1.p.phase != READY
    ensures r.1.p.start == x.p.start
  {
    var n := Find(x.u, CRLF);
    if x.p.phase != HEADER || n < 0 then (false, x)
    else if n == 0 then (false, Point(EndHeaders(x.p), x.u[2..]))
    else
      var q := HeaderLine(x.p, x.u[..n]);
      (q.phase == HEADER, Point(q, x.u[n + 2..]))
  }

  function HeaderStage(x: Point): (y: Point)
    ensures |y.u| <= |x.u|
    ensures x.p.phase != HEADER ==> y == x
    ensures x.p.phase == HEADER ==> y.p.phase != READY
    ensures y.p.start == x.p.start
    decreases |x.u|
  {
    var (more, y) := HeaderTurn(x);
    if more then HeaderStage(y) else y
  }

  function BodyStage(x: Point): (y: Point)
    ensures |y.u| <= |x.u|
    ensures x.p.phase != BODY ==> y == x
    ensures y.p.phase == x.p.phase || y.p.phase == DONE
    ensures y.p.start == x.p.start
  {
    if x.p.phase == BODY && x.p.bodyLen <= |x.u|
    then Point(x.p.(phase := DONE, body := Some(x.u[..x.p.bodyLen])), x.u[x.p.bodyLen..])
    else x
  }

  /** One call of `FromBuffer`. */
  function Feed(x: Point): (y: Point)
    ensures |y.u| <= |x.u|
    ensures y.p.start.Request? == x.p.start.Request?
  {
    BodyStage(HeaderStage(StartStage(x)))
  }

  // -------------------------------------------------------------- resumption

  lemma DropOver(a: Octets, b: Octets, k: nat)
    requires k <= |a|
    ensures (a + b)[k..] == a[k..] + b
    ensures (a + b)[..k] == a[..k]
  {
  }

  lemma StartResume(x: Point, b: Octets)
    ensures StartStage(x.More(b)) == StartStage(StartStage(x).More(b))
  {
    var n := Find(x.u, CRLF);
    if x.p.phase == READY && n >= 0 {
      FindStable(x.u, b, CRLF);
      DropOver(x.u, b, n);
      DropOver(x.u, b, n + 2);
    }
  }

  lemma TurnResume(x: Point, b: Octets)
    requires x.p.phase == HEADER && Find(x.u, CRLF) >= 0
    ensures HeaderTurn(x.More(b)) == (HeaderTurn(x).0, HeaderTurn(x).1.More(b))
  {
    var n := Find(x.u, CRLF);
    FindStable(x.u, b, CRLF);
    DropOver(x.u, b, n);
    DropOver(x.u, b, n + 2);
  }

  lemma {:induction false} HeaderResume(x: Point, b: Octets)
    ensures HeaderStage(x.More(b)) == HeaderStage(HeaderStage(x).More(b))
    decreases |x.u|
  {
    if x.p.phase == HEADER && Find(x.u, CRLF) >= 0 {
      TurnResume(x, b);
      var (more, y) := HeaderTurn(x);
      if more {
        HeaderResume(y, b);
      }
    }
  }

  lemma BodyResume(x: Point, b: Octets)
    ensures BodyStage(x.More(b)) == BodyStage(BodyStage(x).More(b))
  {
    if x.p.phase == BODY && x.p.bodyLen <= |x.u| {
      DropOver(x.u, b, x.p.bodyLen);
    }
  }

  /** Chunk independence of one call: feeding a first part and then the rest
      reaches the same state, and leaves the same bytes, as feeding everything. */
  lemma FeedResume(x: Point, b: Octets)
    ensures Feed(x.More(b)) == Feed(Feed(x).More(b))
  {
    var y := StartStage(x);
    var z := HeaderStage(y);
    StartResume(x, b);
    HeaderResume(y, b);
    BodyResume(z, b);
    if y.p.phase == READY {
    } else if z.p.phase == HEADER {
    } else {
      assert StartStage(Feed(x).More(b)) == Feed(x).More(b);
      assert HeaderStage(z.More(b)) == z.More(b);
    }
  }
}
