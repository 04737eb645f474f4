/**
 The object of netb/HttpMessage.cpp: its methods move a buffer and its own fields
 exactly as the parser and printer functions say.
 */
module HttpMessages {
  import opened Bytes
  import opened StreamBuffers
  import opened Streams
  import opened HttpText
  import opened HttpParser
  import opened HttpPrinter
  import opened HttpPipeline
  import opened HttpBacklog

  class HttpMessage {
    var start: Start
    var headers: seq<Header>
    var bodyLen: nat
    var body: Option<Octets>
    var phase: Phase

    function State(): Parser
      reads this
    {
      Parser(phase, start, headers, bodyLen, body)
    }

    constructor (request: bool)
      ensures State() == New(request)
    {
      start := New(request).start;
      headers, bodyLen, body, phase := [], 0, None, READY;
    }

    /** `Reset`, freeing the body; the source tests the pointer the wrong way
        round, see `CodedResetIsFresh`. */
    method Reset()
      modifies this
      ensures State() == Fresh(old(start.Request?))
    {
      headers := [];
      if body.Some? {
        body := None;
      }
      bodyLen := 0;
      phase := READY;
      start := Fresh(start.Request?).start;
    }

    method SetHeaderField(key: Octets, value: Octets)
      modifies this`headers
      ensures headers == SetHeader(old(headers), CString(key), CString(value))
    {
      var h := Header(CString(key), CString(value));
      SetHeaderShape(headers, h);
      var i := 0;
      while i < |headers|
        invariant i <= |headers| && headers == old(headers)
        invariant forall j :: 0 <= j < i ==> headers[j].key != h.key
      {
        if headers[i].key == h.key {
          FirstKey(headers, h.key, i);
          headers := headers[i := h];
          return;
        }
        i := i + 1;
      }
      headers := headers + [h];
    }

    static lemma {:induction false} FirstKey(hs: seq<Header>, key: Octets, i: nat)
      requires i < |hs| && hs[i].key == key
      requires forall j :: 0 <= j < i ==> hs[j].key != key
      ensures FindKey(hs, key) == i
    {
      if i > 0 {
        FirstKey(hs[1..], key, i - 1);
      }
    }

    method ReadStartLine(buf: StreamBuffer)
      requires buf.Valid() && phase == READY
      modifies this`start, this`phase, buf`rpos
      ensures buf.Valid() && buf.Live() == old(buf.Live())
      ensures Point(State(), buf.Unread()) == StartStage(old(Point(State(), buf.Unread())))
    {
      var ok, line := ReadUntil(buf, CRLF);
      if ok {
        start := ParseStart(start, line);
        phase := HEADER;
      }
    }

    /** One turn of the header loop. */
    method ReadHeaderLine(buf: StreamBuffer) returns (more: bool)
      requires buf.Valid() && phase == HEADER
      modifies this`headers, this`bodyLen, this`phase, buf`rpos
      ensures buf.Valid() && buf.Live() == old(buf.Live())
      ensures (more, Point(State(), buf.Unread())) == HeaderTurn(old(Point(State(), buf.Unread())))
    {
      var ok, line := ReadUntil(buf, CRLF);
      if !ok {
        return false;
      }
      if line == [] {
        bodyLen := ContentLength(headers);
        phase := if bodyLen > 0 then BODY else DONE;
        return false;
      }
      var pos := FindByte(line, COLON);
      if pos < 0 {
        phase := ABORTED;
        return false;
      }
      SetHeaderField(line[..pos], line[pos + 1..]);
      more := true;
    }

    method ReadHeader(buf: StreamBuffer)
      requires buf.Valid() && phase == HEADER
      modifies this`headers, this`bodyLen, this`phase, buf`rpos
      ensures buf.Valid() && buf.Live() == old(buf.Live())
      ensures Point(State(), buf.Unread()) == HeaderStage(old(Point(State(), buf.Unread())))
    {
      ghost var goal := HeaderStage(Point(State(), buf.Unread()));
      var more := true;
      while more
        invariant buf.Valid() && buf.Live() == old(buf.Live())
        invariant more ==> phase == HEADER && HeaderStage(Point(State(), buf.Unread())) == goal
        invariant !more ==> Point(State(), buf.Unread()) == goal
        decreases more, |buf.Unread()|
      {
        more := ReadHeaderLine(buf);
      }
    }

    method ReadBody(buf: StreamBuffer)
      requires buf.Valid() && phase == BODY
      modifies this`body, this`phase, buf`rpos
      ensures buf.Valid() && buf.Live() == old(buf.Live())
      ensures Point(State(), buf.Unread()) == BodyStage(old(Point(State(), buf.Unread())))
    {
      var ok, bytes := buf.Read(bodyLen);
      if ok {
        body := Some(bytes);
        phase := DONE;
      }
    }

    /** Continue parsing with the unread bytes; a completed message is flushed. */
    method FromBuffer(buf: StreamBuffer) returns (done: bool)
      requires buf.Valid()
      modifies this, buf`opos, buf`rpos, buf`wpos
      ensures buf.Valid()
      ensures Point(State(), buf.Unread()) == Feed(old(Point(State(), buf.Unread())))
      ensures done <==> phase == DONE
      ensures done ==> buf.Live() == buf.Unread() && buf.Pos() == 0
      ensures !done ==> buf.Live() == old(buf.Live())
    {
      if phase == READY {
        ReadStartLine(buf);
      }
      if phase == HEADER {
        ReadHeader(buf);
      }
      if phase == BODY {
        ReadBody(buf);
      }
      if phase == DONE {
        var _ := buf.Flush();
        return true;
      }
      done := false;
    }

    /** Key with colon, then value with line break. */
    method WriteHeader(buf: StreamBuffer, h: Header) returns (ok: bool)
      requires buf.Valid()
      modifies buf`bytes, buf`opos, buf`rpos, buf`wpos
      ensures buf.Valid() && buf.Pos() == old(buf.Pos())
      ensures ok <==> Admits(buf.limit, |old(buf.Live())|, |PrintHeader(h)|)
      ensures ok ==> buf.Live() == old(buf.Live()) + PrintHeader(h)
      ensures old(buf.Live()) <= buf.Live() <= old(buf.Live()) + PrintHeader(h)
    {
      ghost var was, key, value := buf.Live(), h.key + [COLON], h.value + CRLF;
      SumAssociates(h.key + [COLON], h.value, CRLF);
      assert PrintHeader(h) == key + value;
      SumAssociates(was, key, value);
      var at;
      ok, at := buf.Write(h.key + [COLON]);
      if !ok {
        PrefixOfSum(was, PrintHeader(h));
        return;
      }
      PrefixOfSum(was, key);
      ok, at := buf.Write(h.value + CRLF);
      PrefixOfSum(was, PrintHeader(h));
      PrefixOfSum(was + key, value);
    }

    /** Header after header, up to one that does not fit or that the source fails at. */
    method WriteHeaders(buf: StreamBuffer) returns (ok: bool, broken: bool)
      requires buf.Valid()
      modifies buf`bytes, buf`opos, buf`rpos, buf`wpos
      ensures buf.Valid() && buf.Pos() == old(buf.Pos()) && buf.limit == old(buf.limit)
      ensures
        var n := PrintableCount(headers);
        && (broken <==> n < |headers| && Admits(buf.limit, |old(buf.Live())|, |PrintHeaders(headers[..n])|))
        && (ok <==> n == |headers| && Admits(buf.limit, |old(buf.Live())|, |PrintHeaders(headers)|))
      ensures ok ==> buf.Live() == old(buf.Live()) + PrintHeaders(headers)
      ensures old(buf.Live()) <= buf.Live() <= old(buf.Live()) + PrintHeaders(headers)
    {
      hide PrintHeaders, PrintHeader, PrintableCount, PrintableKey;
      ghost var was, sent, n := buf.Live(), [], PrintableCount(headers);
      NoHeaders(headers);
      ok, broken := true, false;
      for i := 0 to |headers|
        invariant buf.Valid() && buf.Pos() == old(buf.Pos()) && buf.limit == old(buf.limit)
        invariant ok && !broken && sent == PrintHeaders(headers[..i]) && buf.Live() == was + sent && i <= n
      {
        ghost var line, rest := PrintHeader(headers[i]), PrintHeaders(headers[i + 1..]);
        HeadersSplit(headers, i);
        PrintableCountIs(headers, i);
        if !PrintableKey(headers[i].key) {
          PrefixOfSum(was, sent);
          PartWritten(was, sent, line, rest, buf.Live());
          return false, true;
        }
        FewerHeaders(headers, i + 1, n);
        FewerHeaders(headers, i + 1, |headers|);
        assert headers[..|headers|] == headers;
        SumAssociates(was, sent, line);
        ok := WriteHeader(buf, headers[i]);
        if !ok {
          PartWritten(was, sent, line, rest, buf.Live());
          return;
        }
        sent := sent + line;
      }
      assert headers[..|headers|] == headers;
      PrefixOfSum(was, sent);
    }

    static lemma NoHeaders(hs: seq<Header>)
      ensures PrintHeaders(hs[..0]) == []
    {
    }

    /** What is in the buffer when the piece being written did not fit. */
    static lemma PartWritten(was: Octets, sent: Octets, line: Octets, rest: Octets, live: Octets)
      requires was + sent <= live <= was + sent + line
      ensures was <= live <= was + (sent + line + rest)
    {
      SumAssociates(was, sent, line);
      SumAssociates(was, sent + line, rest);
      PrefixOfSum(was, sent);
      PrefixTransitive(was, was + sent, live);
      PrefixOfSum(was + sent + line, rest);
      PrefixTransitive(live, was + sent + line, was + (sent + line + rest));
    }

    /** The first line and the headers: all of them fit, or a part of them stays in the
        buffer. */
    method WriteHead(buf: StreamBuffer, phrases: Phrases) returns (ok: bool, broken: bool)
      requires buf.Valid()
      modifies buf`bytes, buf`opos, buf`rpos, buf`wpos
      ensures buf.Valid() && buf.Pos() == old(buf.Pos()) && buf.limit == old(buf.limit)
      ensures broken <==> Breaks(Held(State()), phrases, buf.limit, |old(buf.Live())|)
      ensures ok <==> CanPrint(Held(State()), phrases)
                      && Admits(buf.limit, |old(buf.Live())|, |PrintHead(Held(State()), phrases)|)
      ensures ok ==> buf.Live() == old(buf.Live()) + PrintHead(Held(State()), phrases)
      ensures old(buf.Live()) <= buf.Live() <= old(buf.Live()) + PrintHead(Held(State()), phrases)
    {
      hide PrintHeaders, PrintableCount, PrintableKey, PrintStart;
      ghost var was, first, rest := buf.Live(), PrintStart(start, phrases) + CRLF, PrintHeaders(headers);
      AllPrintable(headers);
      PrefixOfSum(was, first + rest);
      SumAssociates(was, first, rest);
      PrefixOfSum(was, first);
      if start.Response? && start.phrase == [] && start.code !in phrases {
        return false, true;
      }
      var at;
      ok, at := buf.Write(PrintStart(start, phrases) + CRLF);
      broken := false;
      if ok {
        ok, broken := WriteHeaders(buf);
        PrefixTransitive(was, was + first, buf.Live());
      }
    }

    /**
     Append the printed message, piece by piece. The result of writing the blank line is
     ignored, so a message can be reported as written without it. `broken` is where the
     source fails: it has no phrase for the status code, or no last character of a key.
     */
    method ToBuffer(buf: StreamBuffer, phrases: Phrases) returns (ok: bool, broken: bool)
      requires buf.Valid() && (body.Some? ==> |body.value| == bodyLen)
      modifies buf`bytes, buf`opos, buf`rpos, buf`wpos
      ensures buf.Valid() && buf.Pos() == old(buf.Pos())
      ensures broken <==> Breaks(Held(State()), phrases, buf.limit, |old(buf.Live())|)
      ensures ok <==>
              var used, head, body := |old(buf.Live())|, |PrintHead(Held(State()), phrases)|, |Held(State()).body|;
              && PrintOf(Held(State()), phrases).Some?
              && (|| Admits(buf.limit, used, head + 2 + body)
                  || (Admits(buf.limit, used, head + body) && !Admits(buf.limit, used, head + 2)))
      ensures ok ==>
              var m := Held(State());
              var head := PrintHead(m, phrases);
              buf.Live() == old(buf.Live())
                + (if Admits(buf.limit, |old(buf.Live())|, |head| + 2) then Print(m, phrases) else head + m.body)
      ensures !ok ==> old(buf.Live()) <= buf.Live() <= old(buf.Live()) + Print(Held(State()), phrases)
    {
      hide PrintHead, CanPrint, Breaks;
      ghost var was, m := buf.Live(), Held(State());
      ghost var head := PrintHead(m, phrases);
      PrintPrefixes(was, head, m.body);
      ok, broken := WriteHead(buf, phrases);
      if !ok {
        PrefixTransitive(buf.Live(), was + head, was + (head + CRLF + m.body));
        return;
      }
      var blank, at := buf.Write(CRLF);
      if bodyLen > 0 && body.Some? {
        ok, at := buf.Write(body.value);
      } else {
        assert m.body == [] && head + [] == head && head + CRLF + [] == head + CRLF;
      }
    }

    /** The contents the buffer can have on the way to a printed message. */
    static lemma PrintPrefixes(was: Octets, head: Octets, body: Octets)
      ensures was <= was + head <= was + (head + CRLF + body)
      ensures was <= was + head + CRLF <= was + (head + CRLF + body)
      ensures was + head + CRLF == was + (head + CRLF)
      ensures was + head + CRLF + body == was + (head + CRLF + body)
      ensures was + head + body == was + (head + body)
    {
      SumAssociates(was, head, CRLF);
      SumAssociates(was, head + CRLF, body);
      PrefixOfSum(was + (head + CRLF), body);
    }

    /** The header being written, and the ones before and after it. */
    static lemma {:induction false} HeadersSplit(hs: seq<Header>, i: nat)
      requires i < |hs|
      ensures PrintHeaders(hs[..i + 1]) == PrintHeaders(hs[..i]) + PrintHeader(hs[i])
      ensures PrintHeaders(hs) == PrintHeaders(hs[..i]) + PrintHeader(hs[i]) + PrintHeaders(hs[i + 1..])
    {
      if i == 0 {
        assert hs[..1] == [hs[0]] && hs[..0] == [];
        assert PrintHeaders([hs[0]]) == PrintHeader(hs[0]) + PrintHeaders([]);
      } else {
        HeadersSplit(hs[1..], i - 1);
        assert hs[..i + 1][1..] == hs[1..][..i] && hs[..i][1..] == hs[1..][..i - 1];
        assert hs[1..][i - 1 + 1..] == hs[i + 1..];
        var first, mid := PrintHeader(hs[0]), PrintHeaders(hs[1..][..i - 1]);
        var line, rest := PrintHeader(hs[i]), PrintHeaders(hs[i + 1..]);
        SumAssociates(first, mid, line);
        SumAssociates(first, mid + line, rest);
      }
    }
  }

  // ------------------------------------------------------------ the connection

  /** A chunk arrives: store it, if it fits, and take every message that completes. The
      buffer then holds the bytes since the last message that completed. */
  method Receive(msg: HttpMessage, buf: StreamBuffer, chunk: Octets) returns (ok: bool, ms: seq<Msg>)
    requires buf.Valid()
    modifies msg, buf`bytes, buf`opos, buf`rpos, buf`wpos
    ensures buf.Valid()
    ensures ok <==> Admits(buf.limit, |old(buf.Live())|, |chunk|)
    ensures ok ==>
              var x := old(Point(msg.State(), buf.Unread())).More(chunk);
              && Pumped(ms, Point(msg.State(), buf.Unread())) == Pump(x)
              && buf.Live() == Since(x, old(buf.Live()) + chunk)
    ensures !ok ==> ms == [] && msg.State() == old(msg.State()) && buf.Live() == old(buf.Live())
  {
    var offset;
    ok, offset := buf.Write(chunk);
    ms := [];
    if !ok {
      return;
    }
    ghost var goal := Pump(Point(msg.State(), buf.Unread()));
    ghost var since := Since(Point(msg.State(), buf.Unread()), buf.Live());
    while true
      invariant buf.Valid() && buf.limit == old(buf.limit)
      invariant Then(Pumped(ms, Point(msg.State(), buf.Unread())), Pump(Point(msg.State(), buf.Unread()))) == goal
      invariant Since(Point(msg.State(), buf.Unread()), buf.Live()) == since
      decreases |buf.Unread()|, if msg.phase == READY then 0 else 1
    {
      ghost var x := Point(msg.State(), buf.Unread());
      ReadyTakesBytes(x);
      buf.UnreadIsTail();
      var done := msg.FromBuffer(buf);
      ghost var y := Point(msg.State(), buf.Unread());
      if !done {
        PumpWait(x);
        assert ms + [] == ms;
        break;
      }
      PumpDone(x, y);
      ThenThen(ms, x, x, Pumped([Held(y.p)], y), Pump(Next(y)));
      ms := ms + [Held(msg.State())];
      msg.Reset();
    }
  }

  /** Chunks one after the other, until one does not fit. */
  method ReceiveAll(msg: HttpMessage, buf: StreamBuffer, chunks: seq<Octets>) returns (ok: bool, ms: seq<Msg>)
    requires buf.Valid()
    modifies msg, buf`bytes, buf`opos, buf`rpos, buf`wpos
    ensures buf.Valid()
    ensures ok <==> ChunksFit(buf.limit, old(Point(msg.State(), buf.Unread())), old(buf.Live()), chunks)
    ensures ok ==>
              Pumped(ms, Point(msg.State(), buf.Unread())) == PumpChunks(old(Point(msg.State(), buf.Unread())), chunks)
  {
    ghost var goal := PumpChunks(Point(msg.State(), buf.Unread()), chunks);
    ghost var fits := ChunksFit(buf.limit, Point(msg.State(), buf.Unread()), buf.Live(), chunks);
    ms := [];
    assert chunks[0..] == chunks;
    for i := 0 to |chunks|
      invariant buf.Valid() && buf.limit == old(buf.limit)
      invariant ChunksFit(buf.limit, Point(msg.State(), buf.Unread()), buf.Live(), chunks[i..]) == fits
      invariant Then(Pumped(ms, Point(msg.State(), buf.Unread())),
                     PumpChunks(Point(msg.State(), buf.Unread()), chunks[i..])) == goal
    {
      assert chunks[i..][1..] == chunks[i + 1..];
      ghost var x := Point(msg.State(), buf.Unread());
      var more;
      ok, more := Receive(msg, buf, chunks[i]);
      if !ok {
        return;
      }
      ghost var y := Point(msg.State(), buf.Unread());
      ThenThen(ms, x, x, Pumped(more, y), PumpChunks(y, chunks[i + 1..]));
      ms := ms + more;
    }
    ok := true;
    assert chunks[|chunks|..] == [] && ms + [] == ms;
  }

  /** End to end on the objects: a new message object and an empty buffer turn any
      chunking of any number of printed messages into those messages, in order, when the
      buffer has room for the largest message and the largest chunk. */
  method Exchange(request: bool, msgs: seq<Msg>, phrases: Phrases, chunks: seq<Octets>,
                  ghost largest: nat, ghost chunk: nat)
      returns (ok: bool, ms: seq<Msg>)
    requires Printable(msgs, phrases, request) && Flat(chunks) == PrintAll(msgs, phrases)
    requires forall m :: m in msgs ==> |Print(m, phrases)| <= largest
    requires forall c :: c in chunks ==> |c| <= chunk
    requires largest + chunk <= MAX_BUFFER_SIZE
    ensures ok && ms == NamedAll(msgs, phrases)
  {
    hide Legible, CanPrint, Print;
    var msg := new HttpMessage(request);
    var buf := new StreamBuffer();
    buf.UnreadIsTail();
    NothingCompletes(New(request));
    assert [] + Flat(chunks) == Flat(chunks);
    Pipelining(New(request), msgs, phrases, chunks);
    SmallFits(buf.limit, New(request), [], msgs, phrases, chunks, largest, chunk);
    ok, ms := ReceiveAll(msg, buf, chunks);
  }

  /**
   Relay a message: read it from `src` with a new object, write it into an empty buffer, and
   read that buffer with another new object. Where the printed message fits, the second object
   ends with the message of the first, and with nothing left, exactly when a request has a
   URL, a response has a phrase of one line, and no key is empty; without a phrase, or with
   an empty key, the source fails in between.
   */
  method Relay(src: StreamBuffer, request: bool, phrases: Phrases)
      returns (done: bool, ok: bool, broken: bool, first: HttpMessage, second: HttpMessage, left: Octets)
    requires src.Valid()
    modifies src`opos, src`rpos, src`wpos
    ensures src.Valid() && Point(first.State(), src.Unread()) == Feed(Point(New(request), old(src.Unread())))
    ensures done <==> first.phase == DONE
    ensures done && |Print(Held(first.State()), phrases)| <= MAX_BUFFER_SIZE ==>
              var m := Held(first.State());
              && (broken <==> PrintOf(m, phrases) == None)
              && (ok <==> !broken)
              && (ok && Point(second.State(), left) == Point(Completed(Named(m, phrases)), [])
                  <==> Reprintable(m, phrases))
  {
    hide Feed, CanPrint, Breaks, Reprintable, Print, PrintHead, New, HttpPipeline.Sound, StartSound;
    ok, broken, left := false, false, [];
    first := new HttpMessage(request);
    second := new HttpMessage(request);
    NewIsReady(request);
    NewIsSound(request);
    ghost var x := Point(first.State(), src.Unread());
    FeedSound(x);
    FeedStartSound(x);
    done := first.FromBuffer(src);
    if !done {
      return;
    }
    ghost var m := Held(first.State());
    var buf := new StreamBuffer();
    ok, broken := first.ToBuffer(buf, phrases);
    ReparseLaw(New(request), New(request), x.u, phrases, []);
    BreaksInRoom(m, phrases, buf.limit);
    PrintLength(m, phrases);
    NotReprintable(m, phrases);
    if !ok {
      return;
    }
    buf.UnreadIsTail();
    assert [] + Print(m, phrases) == Print(m, phrases) == Print(m, phrases) + [];
    var _ := second.FromBuffer(buf);
    left := buf.bytes[buf.rpos..buf.wpos];
  }

  lemma NewIsSound(request: bool)
    ensures HttpPipeline.Sound(New(request))
  {
  }

  lemma PrintLength(m: Msg, phrases: Phrases)
    ensures |Print(m, phrases)| == |PrintHead(m, phrases)| + 2 + |m.body|
  {
  }

  /** In an empty buffer with room for the message, printing fails exactly where it cannot print. */
  lemma BreaksInRoom(m: Msg, phrases: Phrases, limit: nat)
    ensures Admits(limit, 0, |Print(m, phrases)|) ==>
              (Breaks(m, phrases, limit, 0) <==> PrintOf(m, phrases) == None)
  {
    var n := PrintableCount(m.headers);
    AllPrintable(m.headers);
    FewerHeaders(m.headers, n, |m.headers|);
    assert m.headers[..|m.headers|] == m.headers;
  }

  lemma NotReprintable(m: Msg, phrases: Phrases)
    ensures PrintOf(m, phrases) == None && (forall i :: 0 <= i < |m.headers| ==> COLON !in m.headers[i].key) ==>
              !Reprintable(m, phrases)
  {
  }

  // ------------------------------------------------- the line as the source has it

  /** `Reset` as written frees the body only when there is none. */
  function CodedReset(p: Parser): Parser {
    Fresh(p.start.Request?).(body := p.body)
  }

  /** It starts over exactly when the message had no body; otherwise the old
      array stays, and the next body is copied into it whatever its length. */
  lemma CodedResetIsFresh(p: Parser)
    ensures CodedReset(p) == Fresh(p.start.Request?) <==> p.body == None
    ensures Blank(CodedReset(p)) <==> p.body == None
  {
  }
}
