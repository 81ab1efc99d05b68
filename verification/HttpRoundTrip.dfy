/** Whole requests: the parser gives back exactly the request that was written, however it is sliced. */
module HttpRoundTrip {
  import opened HttpMachine
  import opened HttpRequest
  import opened HttpParser
  import opened HttpSplit
  import opened HttpGoes
  import opened HttpRequestLine
  import opened HttpNames
  import opened HttpLengths
  import opened HttpHeaderLines
  import opened HttpCodings
  import opened HttpPayload

  /** How the body is sent: not at all, after Content-Length, or in chunks; or with a Transfer-Encoding that
      announces no chunks, so that nothing says where it ends; or with a Content-Length and a Transfer-Encoding. */
  datatype Framing =
    | NoBody
    | Sized(header: Header, content: string)
    | Chunked(header: Header, chunks: seq<Chunk>, last: string)
    | Unchunked(header: Header)
    | Both(header: Header, coding: Header, chunked: bool)

  /** `leading` are line ends before the request line. */
  datatype Message = Message(leading: string, httpMethod: Method, url: string, httpMajor: nat, httpMinor: nat,
                             before: seq<Header>, framing: Framing, after: seq<Header>)

  function FramingHeaders(f: Framing): seq<Header> {
    match f
    case NoBody => []
    case Sized(h, _) => [h]
    case Chunked(h, _, _) => [h]
    case Unchunked(h) => [h]
    case Both(h, coding, _) => [h, coding]
  }

  function Headers(q: Message): seq<Header> {
    q.before + FramingHeaders(q.framing) + q.after
  }

  function Payload(f: Framing): string {
    match f
    case NoBody => ""
    case Sized(_, content) => content
    case Chunked(_, chunks, last) => ChunksText(chunks) + (last + CRLF + CRLF)
    case Unchunked(_) => ""
    case Both(_, _, _) => ""
  }

  function Content(f: Framing): string {
    match f
    case NoBody => ""
    case Sized(_, content) => content
    case Chunked(_, chunks, _) => ChunksData(chunks)
    case Unchunked(_) => ""
    case Both(_, _, _) => ""
  }

  /** A header that says nothing about the body.  An Upgrade value does not begin with `h`. */
  predicate IsOrdinary(h: Header) {
    && IsHeader(h)
    && var l := LowerName(h.name);
       l != "content-length" && !("transfer-encoding" <= l) && (l == "upgrade" ==> h.value == "" || h.value[0] != 'h')
  }

  predicate AllOrdinary(hs: seq<Header>) {
    forall i :: 0 <= i < |hs| ==> IsOrdinary(hs[i])
  }

  ghost predicate IsFraming(f: Framing, limit: nat) {
    match f
    case NoBody => true
    case Sized(h, content) =>
      IsHeader(h) && LowerName(h.name) == "content-length"
      && exists k: nat :: IsContentLength(h.value, k) && DigitsValue(h.value[..k]) == |content|
    case Chunked(h, chunks, last) =>
      IsHeader(h) && LowerName(h.name) == "transfer-encoding"
      && IsChunked(h.value)
      && (forall i :: 0 <= i < |chunks| ==> IsChunk(chunks[i], limit))
      && IsSize(last) && HexValue(last) == 0 && |last| + 2 <= limit
    case Unchunked(h) =>
      IsHeader(h) && LowerName(h.name) == "transfer-encoding" && IsOther(h.value)
    case Both(h, coding, chunked) =>
      && IsHeader(h) && LowerName(h.name) == "content-length" && (exists k: nat :: IsContentLength(h.value, k))
      && IsHeader(coding) && LowerName(coding.name) == "transfer-encoding"
      && if chunked then IsChunked(coding.value) else IsOther(coding.value)
  }

  /** A list of codings that announces no chunks. */
  ghost predicate IsOther(v: string) {
    exists items: seq<Item>, word: string, n: nat :: IsList(v, items, word, n) && !Announces(items, word)
  }

  function LinesText(hs: seq<Header>): string {
    if hs == [] then "" else LinesText(hs[..|hs| - 1]) + Line(hs[|hs| - 1])
  }

  ghost predicate IsMessage(q: Message, limit: nat) {
    && IsLeading(q.leading) && !q.httpMethod.CONNECT? && IsTarget(q.url) && q.httpMajor < 10 && q.httpMinor < 10
    && AllOrdinary(q.before) && AllOrdinary(q.after) && IsFraming(q.framing, limit)
    && |Head(q)| <= limit
  }

  /** Everything up to the empty line. */
  function Head(q: Message): string
    requires q.httpMajor < 10 && q.httpMinor < 10
  {
    First(q) + LinesText(q.before) + LinesText(FramingHeaders(q.framing)) + LinesText(q.after) + CRLF
  }

  function First(q: Message): string
    requires q.httpMajor < 10 && q.httpMinor < 10
  {
    q.leading + RequestLine(q.httpMethod, q.url, q.httpMajor, q.httpMinor)
  }

  function Encode(q: Message): string
    requires q.httpMajor < 10 && q.httpMinor < 10
  {
    Head(q) + Payload(q.framing)
  }

  // ---------------------------------------------------------------------------------------------

  function AddAll(r: Request, hs: seq<Header>): Request {
    if hs == [] then r else AddHeader(AddAll(r, hs[..|hs| - 1]), hs[|hs| - 1])
  }

  lemma {:induction false} AddAllAppend(r: Request, a: seq<Header>, b: seq<Header>)
    ensures AddAll(r, a + b) == AddAll(AddAll(r, a), b)
  {
    hide AddHeader;
    if b == [] {
      assert a + b == a;
    } else {
      assert (a + b)[..|a + b| - 1] == a + b[..|b| - 1];
      AddAllAppend(r, a, b[..|b| - 1]);
    }
  }

  /** The headers that have a value. */
  function WithValues(hs: seq<Header>): seq<Header> {
    if hs == [] then []
    else
      var h := hs[|hs| - 1];
      WithValues(hs[..|hs| - 1]) + if h.value == "" then [] else [h]
  }

  /** What becomes of the headers of a request: an empty value counts as no header, unless it is the last. */
  function Kept(hs: seq<Header>): seq<Header> {
    if hs == [] then [] else WithValues(hs[..|hs| - 1]) + [hs[|hs| - 1]]
  }

  lemma {:induction false} WithValuesAll(hs: seq<Header>)
    ensures |WithValues(hs)| <= |hs|
    ensures WithValues(hs) == hs <==> forall i :: 0 <= i < |hs| ==> hs[i].value != ""
  {
    if hs != [] {
      var n := |hs| - 1;
      WithValuesAll(hs[..n]);
      assert hs == hs[..n] + [hs[n]];
      if hs[n].value == "" {
        assert |WithValues(hs)| < |hs|;
      } else {
        assert WithValues(hs) == hs ==> WithValues(hs[..n]) == WithValues(hs)[..n] == hs[..n];
        assert forall i :: 0 <= i < n ==> hs[..n][i] == hs[i];
      }
    }
  }

  /** No header is lost exactly when none but the last is without a value. */
  lemma KeptAll(hs: seq<Header>)
    ensures Kept(hs) == hs <==> forall i :: 0 <= i < |hs| - 1 ==> hs[i].value != ""
  {
    hide WithValues;
    if hs != [] {
      var n := |hs| - 1;
      WithValuesAll(hs[..n]);
      assert hs == hs[..n] + [hs[n]];
      assert Kept(hs) == hs ==> WithValues(hs[..n]) == Kept(hs)[..n] == hs[..n];
      assert forall i :: 0 <= i < n ==> hs[..n][i] == hs[i];
    }
  }

  /** The headers that have been read are in the request, the last of them still being assembled. */
  lemma {:induction false} HeadersCollected(r: Request, hs: seq<Header>)
    requires r.headers == [] && r.value == "" && !r.building && hs != []
    ensures var last := hs[|hs| - 1];
            AddAll(r, hs) == r.(headers := WithValues(hs[..|hs| - 1]), field := last.name, value := last.value)
  {
    var n := |hs| - 1;
    if n == 0 {
      assert hs[..0] == [];
      assert AddAll(r, hs[..0]) == r;
    } else {
      HeadersCollected(r, hs[..n]);
      assert hs[..n][..n - 1] == hs[..n - 1] && hs[..n][n - 1] == hs[n - 1];
      assert Header(hs[n - 1].name, hs[n - 1].value) == hs[n - 1];
    }
  }

  lemma {:induction false} OrdinaryLines(c: Conn, hs: seq<Header>) returns (c1: Conn)
    requires Open(c) && AtLine(c.m) && AllOrdinary(hs) && Room(c.m, |LinesText(hs)|)
    ensures Goes(c, LinesText(hs), c1)
    ensures Open(c1) && AtLine(c1.m) && Frame(c1.m) == Frame(c.m) && c1.m.nread == c.m.nread + |LinesText(hs)|
    ensures Caught(c1) == AddAll(Caught(c), hs) && Heard(c.m, hs, c1.m)
  {
    hide Goes, Frame, AddHeader, LowerName, IsName, IsHeaderChar, Heard;
    if hs == [] {
      GoesNowhere(c);
      HeardNothing(c.m);
      c1 := c;
    } else {
      var n := |hs| - 1;
      assert IsOrdinary(hs[n]);
      var c2 := OrdinaryLines(c, hs[..n]);
      SameConfig(c, c2);
      c1 := OrdinaryLine(c2, hs[n]);
      HeardBoth(c.m, hs[..n], c2.m, [hs[n]], c1.m);
      assert hs == hs[..n] + [hs[n]];
      GoesOn(c, LinesText(hs[..n]), c2, Line(hs[n]), c1);
    }
  }

  lemma SameConfig(c: Conn, c1: Conn)
    requires Frame(c1.m) == Frame(c.m)
    ensures c1.m.config == c.m.config && c1.m.flags.contentLength == c.m.flags.contentLength
    ensures c1.m.contentLength == c.m.contentLength
  {
  }

  /** A Content-Length line and a Transfer-Encoding line behind it. */
  lemma BothLines(c: Conn, f: Framing) returns (c1: Conn)
    requires Open(c) && AtLine(c.m) && !c.m.flags.contentLength && f.Both? && IsFraming(f, c.m.config.maxHeaderSize)
    requires Room(c.m, |LinesText(FramingHeaders(f))|)
    ensures Goes(c, LinesText(FramingHeaders(f)), c1)
    ensures Open(c1) && AtLine(c1.m) && c1.m.nread == c.m.nread + |LinesText(FramingHeaders(f))|
    ensures Caught(c1) == AddAll(Caught(c), FramingHeaders(f)) && Heard(c.m, FramingHeaders(f), c1.m)
    ensures Frame(c1.m) ==
              Frame(c.m).(usesTransferEncoding := true, contentLength := c1.m.contentLength,
                          flags := Frame(c.m).flags.(contentLength := true, chunked := f.chunked || Frame(c.m).flags.chunked))
  {
    hide Goes, Frame, AddHeader, LowerName, IsHeader, DigitsValue, Heard, IsList, Announces;
    var hs := FramingHeaders(f);
    TwoLines(Caught(c), f.header, f.coding);
    var k: nat :| IsContentLength(f.header.value, k);
    var c2 := LengthLine(c, f.header, k);
    var v: uint64 := DigitsValue(f.header.value[..k]);
    SameRoom(c, c2, v);
    if f.chunked {
      var items, word, n :| IsList(f.coding.value, items, word, n) && Announces(items, word);
      c1 := CodingsLine(c2, f.coding, items, word, n);
    } else {
      var items, word, n :| IsList(f.coding.value, items, word, n) && !Announces(items, word);
      c1 := CodingsLine(c2, f.coding, items, word, n);
    }
    GoesOn(c, Line(f.header), c2, Line(f.coding), c1);
    HeardBoth(c.m, [f.header], c2.m, [f.coding], c1.m);
    assert [f.header] + [f.coding] == hs;
    BothFrames(c.m, c2.m, c1.m, v, f.chunked);
  }

  lemma TwoLines(r: Request, a: Header, b: Header)
    ensures LinesText([a, b]) == Line(a) + Line(b)
    ensures AddAll(r, [a, b]) == AddHeader(AddHeader(r, a), b)
  {
    hide AddHeader, Line;
    var hs := [a, b];
    assert hs[..|hs| - 1] == [a] && [a][..0] == [];
    assert LinesText([a]) == LinesText([a][..0]) + Line(a) == Line(a);
    assert LinesText(hs) == LinesText(hs[..|hs| - 1]) + Line(hs[|hs| - 1]);
    assert AddAll(r, [a][..0]) == r;
    assert AddAll(r, [a]) == AddHeader(r, a);
    assert AddAll(r, hs) == AddHeader(AddAll(r, hs[..|hs| - 1]), hs[|hs| - 1]);
  }

  lemma SameRoom(c: Conn, c1: Conn, v: uint64)
    requires Frame(c1.m) == Frame(c.m).(contentLength := v, flags := Frame(c.m).flags.(contentLength := true))
    ensures c1.m.config == c.m.config
  {
  }

  lemma BothFrames(m: Machine, m2: Machine, m1: Machine, v: uint64, chunked: bool)
    requires Frame(m2) == Frame(m).(contentLength := v, flags := Frame(m).flags.(contentLength := true))
    requires Frame(m1) == Frame(m2).(usesTransferEncoding := true,
                                     flags := if chunked then Frame(m2).flags.(chunked := true) else Frame(m2).flags)
    ensures Frame(m1) == Frame(m).(usesTransferEncoding := true, contentLength := m1.contentLength,
                                   flags := Frame(m).flags.(contentLength := true, chunked := chunked || Frame(m).flags.chunked))
  {
  }

  lemma SameFlags(m: Machine, m1: Machine)
    requires Frame(m1) == Frame(m).(usesTransferEncoding := true, flags := Frame(m).flags)
    ensures Frame(m1) == Frame(m).(usesTransferEncoding := true)
  {
  }

  /** The header that announces the body, if there is one. */
  lemma FramingLine(c: Conn, f: Framing) returns (c1: Conn)
    requires Open(c) && AtLine(c.m) && !c.m.flags.contentLength && IsFraming(f, c.m.config.maxHeaderSize)
    requires Room(c.m, |LinesText(FramingHeaders(f))|)
    ensures Goes(c, LinesText(FramingHeaders(f)), c1)
    ensures Open(c1) && AtLine(c1.m) && c1.m.nread == c.m.nread + |LinesText(FramingHeaders(f))|
    ensures Caught(c1) == AddAll(Caught(c), FramingHeaders(f)) && Heard(c.m, FramingHeaders(f), c1.m)
    ensures f.Sized? ==> |f.content| < ULLONG_MAX
    ensures Frame(c1.m) ==
            match f
            case NoBody => Frame(c.m)
            case Sized(_, content) => Frame(c.m).(contentLength := |content|,
                                                  flags := Frame(c.m).flags.(contentLength := true))
            case Chunked(_, _, _) => Frame(c.m).(usesTransferEncoding := true, flags := Frame(c.m).flags.(chunked := true))
            case Unchunked(_) => Frame(c.m).(usesTransferEncoding := true)
            case Both(_, _, chunked) =>
              Frame(c.m).(usesTransferEncoding := true, contentLength := c1.m.contentLength,
                          flags := Frame(c.m).flags.(contentLength := true, chunked := chunked || Frame(c.m).flags.chunked))
  {
    hide Goes, Frame, AddHeader, LowerName, IsHeader, DigitsValue, HexValue, Heard, IsList, Announces;
    var hs := FramingHeaders(f);
    if f.NoBody? {
      GoesNowhere(c);
      HeardNothing(c.m);
      c1 := c;
    } else if f.Both? {
      c1 := BothLines(c, f);
    } else {
      assert LinesText(hs) == Line(hs[0]) by { assert hs[..0] == []; assert "" + Line(hs[0]) == Line(hs[0]); }
      var r := Caught(c);
      assert AddAll(r, hs) == AddHeader(r, hs[0]) by { assert hs[..0] == []; assert AddAll(r, hs[..0]) == r; }
      if f.Sized? {
        var k: nat :| IsContentLength(f.header.value, k) && DigitsValue(f.header.value[..k]) == |f.content|;
        c1 := LengthLine(c, f.header, k);
      } else if f.Chunked? {
        var items, word, n :| IsList(f.header.value, items, word, n) && Announces(items, word);
        c1 := CodingsLine(c, f.header, items, word, n);
      } else {
        var items, word, n :| IsList(f.header.value, items, word, n) && !Announces(items, word);
        c1 := CodingsLine(c, f.header, items, word, n);
        SameFlags(c.m, c1.m);
      }
    }
  }

  lemma EndSteps(m: Machine)
    requires AtLine(m)
    ensures HeaderStep(m, CR, false) == Out(NextLine(m).(state := HeadersAlmostDone), Held(m))
    ensures HeaderStep(m.(state := HeadersAlmostDone), LF, false)
         == HeadersAlmostDoneStep(m.(state := HeadersAlmostDone), LF)
  {
    hide FieldStep, ValueStartStep, ValueStep, HeadersAlmostDoneStep, HeadersDoneStep;
  }

  /** What the empty line does, by the headers before it. */
  lemma EmptyLineStep(m: Machine)
    requires m.state.HeadersAlmostDone? && !m.flags.trailing && !m.httpMethod.CONNECT?
    requires m.usesTransferEncoding ==> (m.flags.chunked || m.flags.upgrade) && !m.flags.contentLength
    ensures var o := HeadersAlmostDoneStep(m, LF);
            var up := m.flags.upgrade;
            var done := [HeadersComplete(m.httpMajor, m.httpMinor, m.flags, up)];
            var m1 := m.(upgrade := up, nread := 0);
            o == if up then Out(m1.(state := HeadersDone, halted := true), done + [MessageComplete])
                 else if m.flags.chunked then Out(m1.(state := ChunkSizeStart), done)
                 else if m.contentLength == 0 || m.contentLength == ULLONG_MAX then
                   Out(m1.(state := HeadersDone), done + [MessageComplete])
                 else Out(m1.(state := BodyIdentity), done)
  {
  }

  /** The request once its headers are complete. */
  function Complete(c: Conn): Request {
    OnHeadersComplete(Caught(c), c.m.httpMajor, c.m.httpMinor, Finished(c.m), Finished(c.m).upgrade)
  }

  /** The connection between CR and LF of the empty line. */
  function AtEnd(c: Conn): Conn {
    Conn(NextLine(c.m).(state := HeadersAlmostDone, nread := c.m.nread + 1), Caught(c))
  }

  lemma EndReturn(c: Conn)
    requires Open(c) && AtLine(c.m) && Room(c.m, 1)
    ensures Goes(c, [CR], AtEnd(c)) && Open(AtEnd(c))
  {
    hide Goes, HeaderStep, HeadersAlmostDoneStep, PeeksAt;
    GoesNowhere(c);
    NoPeekHere(c.m, CR);
    EndSteps(c.m.(nread := c.m.nread + 1));
    HeaderByte(c, "", c, CR);
    HeldThen(c, MessageComplete);
    CaughtOpen(c);
    assert "" + [CR] == [CR];
  }

  /** The empty line ends the headers; if another protocol was asked for, it ends the message as well. */
  lemma EmptyLine(c: Conn)
    requires Open(c) && AtLine(c.m) && Room(c.m, 2) && !c.m.flags.trailing && !c.m.httpMethod.CONNECT?
    requires c.m.usesTransferEncoding ==> (Finished(c.m).chunked || Finished(c.m).upgrade) && !c.m.flags.contentLength
    ensures var m1 := NextLine(c.m).(upgrade := Finished(c.m).upgrade, nread := 0);
            Goes(c, CRLF,
                 if m1.upgrade then Conn(m1.(state := HeadersDone, halted := true), Apply(Complete(c), MessageComplete))
                 else if m1.flags.chunked then Conn(m1.(state := ChunkSizeStart), Complete(c))
                 else if m1.contentLength == 0 || m1.contentLength == ULLONG_MAX then
                   Conn(m1.(state := HeadersDone), Apply(Complete(c), MessageComplete))
                 else Conn(m1.(state := BodyIdentity), Complete(c)))
  {
    hide Goes, Open, HeaderStep, HeadersAlmostDoneStep, OnHeadersComplete, PeeksAt, Caught;
    EndReturn(c);
    var c1 := AtEnd(c);
    assert [CR] + [LF] == CRLF;
    NoPeekHere(c1.m, LF);
    EndSteps(c1.m.(nread := c.m.nread + 2, state := HeaderFieldStart));
    EmptyLineStep(c1.m.(nread := c.m.nread + 2));
    HeaderByte(c, [CR], c1, LF);
    EndEvents(c);
  }

  lemma CaughtOpen(c: Conn)
    ensures Caught(c).completions == c.r.completions
  {
  }

  lemma EndEvents(c: Conn)
    ensures var e := HeadersComplete(c.m.httpMajor, c.m.httpMinor, Finished(c.m), Finished(c.m).upgrade);
            && ApplyAll(Caught(c), [e]) == Complete(c)
            && ApplyAll(Caught(c), [e] + [MessageComplete]) == Apply(Complete(c), MessageComplete)
  {
    hide OnHeadersComplete;
    var e := HeadersComplete(c.m.httpMajor, c.m.httpMinor, Finished(c.m), Finished(c.m).upgrade);
    ApplyOne(Caught(c), e);
    ApplyAppend(Caught(c), [e], [MessageComplete]);
    ApplyOne(Complete(c), MessageComplete);
  }

  // ---------------------------------------------------------------------------------------------

  function Start(config: Config): Conn {
    Conn(Init(config), EMPTY_REQUEST)
  }

  /** The connection after the request line. */
  function AfterRequestLine(config: Config, q: Message): Conn
    requires q.httpMajor < 10 && q.httpMinor < 10
  {
    var n := |First(q)|;
    Conn(Init(config).(contentLength := ULLONG_MAX, httpMethod := q.httpMethod,
                       scan := Scan(HGeneral, |MethodName(q.httpMethod)| + 1),
                       httpMajor := q.httpMajor, httpMinor := q.httpMinor, state := HeaderFieldStart, nread := n),
         EMPTY_REQUEST.(httpMethod := q.httpMethod, rawUrl := q.url))
  }

  /** The line ends before the request line, and this line. */
  lemma FirstRead(config: Config, q: Message)
    requires IsLeading(q.leading) && !q.httpMethod.CONNECT? && IsTarget(q.url) && q.httpMajor < 10 && q.httpMinor < 10
    requires |First(q)| <= config.maxHeaderSize
    ensures Goes(Start(config), First(q), AfterRequestLine(config, q)) && Open(AfterRequestLine(config, q))
  {
    hide Goes, IsTarget, MethodName, RequestLine;
    var c0 := Start(config);
    LeadingRead(c0, q.leading, |q.leading|);
    assert q.leading[..|q.leading|] == q.leading;
    var c1 := c0.(m := c0.m.(nread := |q.leading|));
    RequestLineRead(c1, q.httpMethod, q.url, q.httpMajor, q.httpMinor);
    assert c1.r.rawUrl + q.url == q.url;
    GoesOn(c0, q.leading, c1, RequestLine(q.httpMethod, q.url, q.httpMajor, q.httpMinor), AfterRequestLine(config, q));
  }

  /** All header lines, up to the empty line. */
  lemma LinesRead(config: Config, q: Message) returns (c4: Conn)
    requires IsMessage(q, config.maxHeaderSize)
    ensures Goes(Start(config), First(q) + LinesText(q.before)
                                + LinesText(FramingHeaders(q.framing)) + LinesText(q.after), c4)
    ensures Open(c4) && AtLine(c4.m) && Room(c4.m, 2)
    ensures Caught(c4) == AddAll(AfterRequestLine(config, q).r, Headers(q))
    ensures Finished(c4.m).keepAlive == Asked(Headers(q), "keep-alive") && Finished(c4.m).close == Asked(Headers(q), "close")
    ensures Finished(c4.m).upgrade == Upgraded(Headers(q))
    ensures q.framing.Sized? ==> |q.framing.content| < ULLONG_MAX
    ensures var m0 := Frame(AfterRequestLine(config, q).m);
            Frame(c4.m) ==
            match q.framing
            case NoBody => m0
            case Sized(_, content) => m0.(contentLength := |content|,
                                          flags := NO_FLAGS.(contentLength := true))
            case Chunked(_, _, _) => m0.(usesTransferEncoding := true, flags := NO_FLAGS.(chunked := true))
            case Unchunked(_) => m0.(usesTransferEncoding := true)
            case Both(_, _, chunked) =>
              m0.(usesTransferEncoding := true, contentLength := c4.m.contentLength,
                  flags := NO_FLAGS.(contentLength := true, chunked := chunked))
  {
    hide Goes, AddHeader, First, LinesText, IsFraming, AddAll, Frame, IsTarget, AllOrdinary, Heard;
    var a, b, d, e := First(q), LinesText(q.before), LinesText(FramingHeaders(q.framing)), LinesText(q.after);
    var c0, c1 := Start(config), AfterRequestLine(config, q);
    FirstRead(config, q);
    var c2 := OrdinaryLines(c1, q.before);
    SameConfig(c1, c2);
    GoesOn(c0, a, c1, b, c2);
    var c3 := FramingLine(c2, q.framing);
    GoesOn(c0, a + b, c2, d, c3);
    FrameOf(c1, c2, c3, config, q);
    c4 := OrdinaryLines(c3, q.after);
    SameConfig(c3, c4);
    GoesOn(c0, a + b + d, c3, e, c4);
    AddAllAppend(c1.r, q.before, FramingHeaders(q.framing));
    AddAllAppend(c1.r, q.before + FramingHeaders(q.framing), q.after);
    HeardBoth(c1.m, q.before, c2.m, FramingHeaders(q.framing), c3.m);
    HeardBoth(c1.m, q.before + FramingHeaders(q.framing), c3.m, q.after, c4.m);
    HeardAll(config, q, c4.m);
  }

  lemma HeardAll(config: Config, q: Message, m: Machine)
    requires q.httpMajor < 10 && q.httpMinor < 10 && Heard(AfterRequestLine(config, q).m, Headers(q), m)
    ensures Finished(m).keepAlive == Asked(Headers(q), "keep-alive") && Finished(m).close == Asked(Headers(q), "close")
    ensures Finished(m).upgrade == Upgraded(Headers(q))
  {
    hide First, Asked, Upgraded;
  }

  lemma FrameOf(c1: Conn, c2: Conn, c3: Conn, config: Config, q: Message)
    requires q.httpMajor < 10 && q.httpMinor < 10 && c1 == AfterRequestLine(config, q) && Frame(c2.m) == Frame(c1.m)
    ensures Frame(c1.m).flags == NO_FLAGS
    ensures Frame(c2.m).config == config && Frame(c3.m).config == c3.m.config
  {
    hide First;
  }

  /** The whole head.  The request has the headers that are kept; what the body will be is in the machine's state. */
  lemma HeadRead(config: Config, q: Message) returns (c5: Conn)
    requires IsMessage(q, config.maxHeaderSize) && !q.framing.Both?
    requires q.framing.Unchunked? ==> Upgraded(Headers(q))
    ensures Goes(Start(config), Head(q), c5)
    ensures c5.m.errno == NoError && c5.m.halted == Upgraded(Headers(q)) && c5.m.nread == 0 && c5.m.config == config
    ensures c5.r.httpMethod == q.httpMethod && c5.r.rawUrl == q.url && c5.r.headers == Kept(Headers(q))
            && c5.r.httpMajor == q.httpMajor && c5.r.httpMinor == q.httpMinor && c5.r.body == ""
    ensures c5.r.keepAlive == KeepsAlive(q) && c5.r.closeConnection == Closes(q) && c5.r.upgrade == Upgraded(Headers(q))
    ensures Upgraded(Headers(q)) ==> c5.r.completions == 1
    ensures !Upgraded(Headers(q)) ==>
            match q.framing
            case NoBody => c5.r.completions == 1
            case Sized(_, content) =>
              if content == "" then c5.r.completions == 1
              else c5.m.state.BodyIdentity? && c5.m.contentLength == |content| && c5.r.completions == 0
            case Chunked(_, _, _) => c5.m.state.ChunkSizeStart? && c5.m.flags.chunked && c5.r.completions == 0
  {
    hide Goes, AddHeader, First, LinesText, IsFraming, AddAll, IsTarget, AllOrdinary, OnHeadersComplete,
         KeepsAlive, Closes, Asked, Upgraded;
    var c4 := LinesRead(config, q);
    FrameFacts(config, q, c4);
    EmptyLine(c4);
    var m1 := NextLine(c4.m).(upgrade := Finished(c4.m).upgrade, nread := 0);
    c5 := if m1.upgrade then Conn(m1.(state := HeadersDone, halted := true), Apply(Complete(c4), MessageComplete))
          else if m1.flags.chunked then Conn(m1.(state := ChunkSizeStart), Complete(c4))
          else if m1.contentLength == 0 || m1.contentLength == ULLONG_MAX then
            Conn(m1.(state := HeadersDone), Apply(Complete(c4), MessageComplete))
          else Conn(m1.(state := BodyIdentity), Complete(c4));
    var s := First(q) + LinesText(q.before)
             + LinesText(FramingHeaders(q.framing)) + LinesText(q.after);
    GoesOn(Start(config), s, c4, CRLF, c5);
    AllHeaders(config, q, c4);
    LastWord(Caught(c4), q, Finished(c4.m));
  }

  /** What the connection does after the request, by its version and its Connection lines. */
  lemma LastWord(r: Request, q: Message, flags: Flags)
    requires flags.keepAlive == Asked(Headers(q), "keep-alive") && flags.close == Asked(Headers(q), "close")
    ensures var r1 := OnHeadersComplete(r, q.httpMajor, q.httpMinor, flags, flags.upgrade);
            r1.keepAlive == KeepsAlive(q) && r1.closeConnection == Closes(q) && r1.upgrade == flags.upgrade
  {
    hide Asked, Headers;
  }

  lemma FrameFacts(config: Config, q: Message, c4: Conn)
    requires q.httpMajor < 10 && q.httpMinor < 10
    requires q.framing.Sized? ==> |q.framing.content| < ULLONG_MAX
    requires var m0 := Frame(AfterRequestLine(config, q).m);
             Frame(c4.m) ==
             match q.framing
             case NoBody => m0
             case Sized(_, content) => m0.(contentLength := |content|,
                                           flags := NO_FLAGS.(contentLength := true))
             case Chunked(_, _, _) => m0.(usesTransferEncoding := true, flags := NO_FLAGS.(chunked := true))
             case Unchunked(_) => m0.(usesTransferEncoding := true)
             case Both(_, _, chunked) =>
               m0.(usesTransferEncoding := true, contentLength := c4.m.contentLength,
                   flags := NO_FLAGS.(contentLength := true, chunked := chunked))
    ensures var m := c4.m;
            && m.config == config && m.errno == NoError && !m.halted && m.httpMethod == q.httpMethod
            && m.httpMajor == q.httpMajor && m.httpMinor == q.httpMinor
            && !m.flags.trailing
            && (m.usesTransferEncoding <==> q.framing.Chunked? || q.framing.Unchunked? || q.framing.Both?)
            && (Finished(m).chunked <==> q.framing.Chunked? || (q.framing.Both? && q.framing.chunked))
            && (m.flags.contentLength <==> q.framing.Sized? || q.framing.Both?)
            && (!q.framing.Both? ==> m.contentLength == if q.framing.Sized? then |q.framing.content| else ULLONG_MAX)
  {
    hide First;
  }

  /** When the headers are complete the request has those that are kept, in order. */
  lemma AllHeaders(config: Config, q: Message, c4: Conn)
    requires IsMessage(q, config.maxHeaderSize)
    requires Caught(c4) == AddAll(AfterRequestLine(config, q).r, Headers(q))
    ensures var r := Complete(c4);
            && r.headers == Kept(Headers(q)) && r.httpMethod == q.httpMethod && r.rawUrl == q.url && r.body == ""
            && r.completions == 0 && r.httpMajor == c4.m.httpMajor && r.httpMinor == c4.m.httpMinor
  {
    hide First, LinesText, LowerName, AddHeader, IsTarget, Frame, Finished;
    var hs, r0 := Headers(q), AfterRequestLine(config, q).r;
    if hs == [] {
      assert AddAll(r0, hs) == r0;
    } else {
      var n := |hs| - 1;
      NamesOf(q);
      HeadersCollected(r0, hs);
      assert Header(hs[n].name, hs[n].value) == hs[n];
    }
  }

  lemma NamesOf(q: Message)
    requires AllOrdinary(q.before) && AllOrdinary(q.after)
    requires forall h :: h in FramingHeaders(q.framing) ==> IsHeader(h)
    ensures forall i :: 0 <= i < |Headers(q)| ==> Headers(q)[i].name != ""
  {
    hide LowerName;
    var a, b, d := q.before, FramingHeaders(q.framing), q.after;
    forall i | 0 <= i < |Headers(q)| ensures IsHeader(Headers(q)[i]) {
      if i < |a| { assert IsOrdinary(a[i]); }
      else if i < |a| + |b| { assert Headers(q)[i] == b[i - |a|]; }
      else { assert Headers(q)[i] == d[i - |a| - |b|] && IsOrdinary(d[i - |a| - |b|]); }
    }
  }

  /** HTTP/1.1 stays open; HTTP/1.0 does if some Connection line asks for it; any other version does not say. */
  predicate KeepsAlive(q: Message) {
    q.httpMajor == 1 && (q.httpMinor == 1 || (q.httpMinor == 0 && Asked(Headers(q), "keep-alive")))
  }

  /** HTTP/1.1 is closed if some Connection line asks for it, HTTP/1.0 unless one asks to stay. */
  predicate Closes(q: Message) {
    q.httpMajor == 1
    && ((q.httpMinor == 1 && Asked(Headers(q), "close")) || (q.httpMinor == 0 && !Asked(Headers(q), "keep-alive")))
  }

  /** What is sent: with an Upgrade line no body follows, as the other protocol begins behind the empty line. */
  function Sent(q: Message): string
    requires q.httpMajor < 10 && q.httpMinor < 10
  {
    if Upgraded(Headers(q)) then Head(q) else Encode(q)
  }

  /** The parser has exactly the request `q`, once, but for headers that are not kept; it knows whether the
      connection stays open afterwards, and stops if another protocol was asked for. */
  predicate Parsed(c: Conn, q: Message) {
    && c.m.errno == NoError && c.m.halted == Upgraded(Headers(q)) && c.r.completions == 1
    && c.r.httpMethod == q.httpMethod && c.r.rawUrl == q.url && c.r.headers == Kept(Headers(q))
    && c.r.httpMajor == q.httpMajor && c.r.httpMinor == q.httpMinor
    && c.r.body == (if Upgraded(Headers(q)) then "" else Content(q.framing))
    && c.r.keepAlive == KeepsAlive(q) && c.r.closeConnection == Closes(q) && c.r.upgrade == Upgraded(Headers(q))
  }

  /** Parsing undoes writing: for every request, whatever its method, target, headers and body, and whether
      the body is sent by length or in chunks, the parser ends with that request and completes it at its
      last byte and not before; it never has to look ahead.  What becomes of the headers is `Kept`. */
  lemma RoundTrip(config: Config, q: Message) returns (c: Conn)
    requires IsMessage(q, config.maxHeaderSize) && !q.framing.Both?
    requires q.framing.Unchunked? ==> Upgraded(Headers(q))
    ensures Goes(Start(config), Sent(q), c) && Parsed(c, q)
  {
    hide Goes, Head, Headers, HexValue, AllHex, IsTarget, AllOrdinary, IsChunk, ChunksText, ChunksData,
         IsHeader, LowerName, KeepsAlive, Closes, Upgraded;
    var c5 := HeadRead(config, q);
    if Upgraded(Headers(q)) {
      c := c5;
      return;
    }
    match q.framing {
      case NoBody =>
        c := c5;
        assert Head(q) + "" == Head(q);
      case Sized(_, content) =>
        if content == "" {
          c := c5;
          assert Head(q) + content == Head(q);
        } else {
          SizedBody(c5, content);
          c := Conn(c5.m.(contentLength := 0, state := MessageDone), Apply(Apply(c5.r, BodyData(content)), MessageComplete));
          assert "" + content == content;
          GoesOn(Start(config), Head(q), c5, content, c);
        }
      case Chunked(_, chunks, last) =>
        ChunksRead(c5, chunks);
        var c6 := AfterChunks(c5, chunks);
        assert "" + ChunksData(chunks) == ChunksData(chunks);
        LastChunk(c6, last);
        c := Conn(c6.m.(contentLength := 0, flags := c6.m.flags.(trailing := true), state := HeadersAlmostDone, nread := 2),
                  Apply(c6.r, MessageComplete));
        GoesOn(c5, ChunksText(chunks), c6, last + CRLF + CRLF, c);
        GoesOn(Start(config), Head(q), c5, Payload(q.framing), c);
    }
  }

  /** A step at the end of headers with a Transfer-Encoding that announces no chunks. */
  lemma UnchunkedStep(m: Machine)
    requires m.state.HeadersAlmostDone? && !m.flags.trailing && !m.httpMethod.CONNECT? && !m.flags.upgrade
    requires m.usesTransferEncoding && !m.flags.chunked && !m.flags.contentLength
    ensures var o := HeadersAlmostDoneStep(m, LF);
            && o.m.errno == (if m.config.lenient then m.errno else InvalidTransferEncoding)
            && (m.config.lenient ==> o.m.state.BodyIdentityEof?)
            && o.events == [HeadersComplete(m.httpMajor, m.httpMinor, m.flags, false)]
  {
  }

  /** A request whose Transfer-Encoding announces no chunks is refused at the empty line; a lenient parser takes
      all that follows for its body. */
  lemma UnchunkedRefused(config: Config, q: Message) returns (c: Conn)
    requires IsMessage(q, config.maxHeaderSize) && q.framing.Unchunked? && !Upgraded(Headers(q))
    ensures Goes(Start(config), Head(q), c) && c.r.completions == 0
    ensures c.m.errno == if config.lenient then NoError else InvalidTransferEncoding
    ensures config.lenient ==> c.m.state.BodyIdentityEof?
  {
    hide Goes, Open, First, LinesText, IsFraming, AddAll, IsTarget, AllOrdinary, OnHeadersComplete, Asked, Upgraded,
         HeaderStep, HeadersAlmostDoneStep, PeeksAt, Caught, IsHeader;
    var c4 := LinesRead(config, q);
    FrameFacts(config, q, c4);
    EndReturn(c4);
    var c1 := AtEnd(c4);
    NoPeekHere(c1.m, LF);
    EndSteps(c1.m.(nread := c4.m.nread + 2, state := HeaderFieldStart));
    UnchunkedStep(c1.m.(nread := c4.m.nread + 2));
    HeaderByte(c4, [CR], c1, LF);
    assert [CR] + [LF] == CRLF;
    var o := HeadersAlmostDoneStep(c1.m.(nread := c4.m.nread + 2), LF);
    c := Conn(o.m, ApplyAll(c1.r, o.events));
    ApplyOne(c1.r, HeadersComplete(c1.m.httpMajor, c1.m.httpMinor, c1.m.flags, false));
    StillIncomplete(c1, c1.m);
    var s := First(q) + LinesText(q.before) + LinesText(FramingHeaders(q.framing)) + LinesText(q.after);
    GoesOn(Start(config), s, c4, CRLF, c);
  }

  lemma BothStep(m: Machine)
    requires m.state.HeadersAlmostDone? && !m.flags.trailing && m.errno == NoError
    requires m.usesTransferEncoding && m.flags.contentLength
    requires if m.flags.chunked then !m.config.allowChunkedLength else !m.config.lenient
    ensures HeadersAlmostDoneStep(m, LF) == Out(m.(errno := UnexpectedContentLength), [])
  {
  }

  /** A request with a Content-Length and a Transfer-Encoding is refused at the empty line, whatever else it says:
      if it announces chunks, unless the switch for that is set, and if it does not, unless the parser is lenient. */
  lemma BothRefused(config: Config, q: Message) returns (c: Conn)
    requires IsMessage(q, config.maxHeaderSize) && q.framing.Both?
    requires if q.framing.chunked then !config.allowChunkedLength else !config.lenient
    ensures Goes(Start(config), Head(q), c) && c.r.completions == 0 && c.m.errno == UnexpectedContentLength
  {
    hide Goes, Open, First, LinesText, IsFraming, AddAll, IsTarget, AllOrdinary, Asked, Upgraded,
         HeaderStep, HeadersAlmostDoneStep, PeeksAt, Caught, IsHeader;
    var c4 := LinesRead(config, q);
    FrameFacts(config, q, c4);
    EndReturn(c4);
    var c1 := AtEnd(c4);
    NoPeekHere(c1.m, LF);
    EndSteps(c1.m.(nread := c4.m.nread + 2, state := HeaderFieldStart));
    BothStep(c1.m.(nread := c4.m.nread + 2));
    HeaderByte(c4, [CR], c1, LF);
    assert [CR] + [LF] == CRLF;
    c := Conn(c1.m.(nread := c4.m.nread + 2, errno := UnexpectedContentLength), c1.r);
    assert ApplyAll(c1.r, []) == c1.r;
    StillIncomplete(c1, c1.m);
    var s := First(q) + LinesText(q.before) + LinesText(FramingHeaders(q.framing)) + LinesText(q.after);
    GoesOn(Start(config), s, c4, CRLF, c);
  }

  lemma StillIncomplete(c: Conn, m: Machine)
    requires Open(c)
    ensures c.r.completions == 0 && OnHeadersComplete(c.r, m.httpMajor, m.httpMinor, m.flags, false).completions == 0
  {
  }

  /** The same for the parser itself: fed the request in any non-empty slices, it has parsed it. */
  method FeedMessage(config: Config, ghost q: Message, slices: seq<string>) returns (p: HttpParser)
    requires IsMessage(q, config.maxHeaderSize) && !q.framing.Both?
    requires q.framing.Unchunked? ==> Upgraded(Headers(q))
    requires Join(slices) == Sent(q) && forall i :: 0 <= i < |slices| ==> slices[i] != ""
    ensures Parsed(Conn(p.m, p.r), q)
  {
    hide IsMessage, Sent, Join, RunTo, PeeksAt, CutSeen, FailedIn, KeepsAlive, Closes, Upgraded;
    p := new HttpParser(config);
    ghost var c := RoundTrip(config, q);
    NoPeekCutsUnseen(Start(config), slices);
    ghost var _ := FeedSlices(p, slices);
  }
}
