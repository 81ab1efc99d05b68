/** The byte-driven machine behind `http_parser_execute`: its saved state, and one pure step per byte.

    A byte is a `char`; bytes from 128 up behave alike wherever the code looks at them.  The five
    `http_parser_settings` callbacks become events; what they do to a request is in HttpRequest. */
module HttpMachine {
  import opened Wrappers

  const CR := '\r'
  const LF := '\n'
  const ULLONG_MAX := 0xFFFF_FFFF_FFFF_FFFF

  type uint64 = x: int | 0 <= x <= ULLONG_MAX

  datatype State =
    | Dead | StartReq | ReqMethod | ReqSpacesBeforeUrl
    | ReqSchema | ReqSchemaSlash | ReqSchemaSlashSlash | ReqServerStart
    | ReqServer | ReqServerWithAt | ReqPath | ReqQueryStringStart | ReqQueryString
    | ReqHttpStart | ReqHttpH | ReqHttpHT | ReqHttpHTT | ReqHttpHTTP | ReqHttpI | ReqHttpIC
    | ReqHttpMajor | ReqHttpDot | ReqHttpMinor | ReqHttpEnd | ReqLineAlmostDone
    | HeaderFieldStart | HeaderField
    | ValueDiscardWs | ValueDiscardWsAlmostDone | ValueDiscardLws
    | ValueStart | HeaderValue | ValueLws | HeaderAlmostDone
    | ChunkSizeStart | ChunkSize | ChunkParameters | ChunkSizeAlmostDone
    | HeadersAlmostDone | HeadersDone
    | ChunkData | ChunkDataAlmostDone | ChunkDataDone
    | BodyIdentity | BodyIdentityEof | MessageDone

  datatype HeaderState =
    | HGeneral | HC | HCO | HCON
    | HMatchingConnection | HMatchingProxyConnection | HMatchingContentLength
    | HMatchingTransferEncoding | HMatchingUpgrade
    | HConnection | HContentLength | HContentLengthNum | HContentLengthWs
    | HTransferEncoding | HUpgrade
    | HMatchingTeTokenStart | HMatchingTeChunked | HMatchingTeToken
    | HMatchingKeepAlive | HMatchingClose
    | HTeChunked | HKeepAlive | HClose

  /** `AssertFailed` is not an errno of the source: it stands for a failing `assert(0)`. */
  datatype Errno =
    | NoError | InvalidEofState | HeaderOverflow | ClosedConnection | InvalidVersion | InvalidMethod
    | InvalidUrl | LfExpected | InvalidHeaderToken | InvalidContentLength | UnexpectedContentLength
    | InvalidChunkSize | InvalidConstant | Strict | InvalidTransferEncoding | AssertFailed

  datatype Method =
    | DELETE | GET | HEAD | POST | PUT | CONNECT | OPTIONS | TRACE | PATCH | PURGE | COPY | LOCK
    | MKCOL | MOVE | PROPFIND | PROPPATCH | SEARCH | UNLOCK | BIND | REBIND | UNBIND | ACL | REPORT
    | MKACTIVITY | CHECKOUT | MERGE | MSEARCH | NOTIFY | SUBSCRIBE | UNSUBSCRIBE | MKCALENDAR
    | LINK | UNLINK | SOURCE

  datatype Flags = Flags(chunked: bool, keepAlive: bool, close: bool, trailing: bool,
                         upgrade: bool, contentLength: bool)

  const NO_FLAGS := Flags(false, false, false, false, false, false)

  /** `max_header_size` and the two lenient switches; fixed while requests are parsed. */
  datatype Config = Config(maxHeaderSize: nat, lenient: bool, allowChunkedLength: bool)

  /** The fields of `struct http_parser`.  `halted` says that the current call of
      `http_parser_execute` has returned early because the connection changes protocol. */
  datatype Machine = Machine(config: Config, state: State, scan: Scan, flags: Flags,
                             usesTransferEncoding: bool, nread: nat, contentLength: uint64,
                             httpMajor: nat, httpMinor: nat, httpMethod: Method, errno: Errno,
                             upgrade: bool, halted: bool)

  datatype Event =
    | MethodSeen(httpMethod: Method)
    | UrlData(data: string)
    | FieldData(data: string)
    | ValueData(data: string)
    | HeadersComplete(httpMajor: nat, httpMinor: nat, flags: Flags, upgrade: bool)
    | BodyData(data: string)
    | MessageComplete

  datatype Out = Out(m: Machine, events: seq<Event>)

  /** `http_parser_init`. */
  function Init(config: Config): Machine {
    Machine(config, StartReq, Scan(HGeneral, 0), NO_FLAGS, false, 0, 0, 0, 0, DELETE, NoError, false, false)
  }

  function Fail(m: Machine, e: Errno): Machine {
    m.(errno := e)
  }

  predicate Stopped(m: Machine) {
    m.errno != NoError || m.halted
  }

  // ---------------------------------------------------------------------------------------------
  // Character classes

  /** CROW_LOWER, which sets bit 5 of the byte. */
  function Lower(c: char): char {
    if c < '\U{80}' && c as int % 64 < 32 then (c as int + 32) as char else c
  }

  predicate IsNum(c: char) { '0' <= c <= '9' }

  predicate IsAlpha(c: char) { 'a' <= Lower(c) <= 'z' }

  predicate IsMark(c: char) {
    c == '-' || c == '_' || c == '.' || c == '!' || c == '~' || c == '*' || c == '\'' || c == '(' || c == ')'
  }

  predicate IsUserinfoChar(c: char) {
    IsAlpha(c) || IsNum(c) || IsMark(c) || c == '%' || c == ';' || c == ':' || c == '&' || c == '='
    || c == '+' || c == '$' || c == ','
  }

  /** The bit table `normal_url_char`: the visible ASCII characters other than '#' and '?'. */
  predicate IsUrlChar(c: char) { '!' <= c <= '~' && c != '#' && c != '?' }

  /** The table `tokens` is zero exactly outside the token characters; elsewhere it lowercases. */
  predicate IsToken(c: char) {
    'a' <= c <= 'z' || 'A' <= c <= 'Z' || IsNum(c)
    || c == '!' || c == '#' || c == '$' || c == '%' || c == '&' || c == '\'' || c == '*' || c == '+'
    || c == '-' || c == '.' || c == '^' || c == '_' || c == '`' || c == '|' || c == '~'
  }

  function TokenLower(c: char): char {
    if 'A' <= c <= 'Z' then (c as int + 32) as char else c
  }

  predicate IsHeaderChar(c: char) {
    c == CR || c == LF || c == '\t' || (c > '\U{1f}' && c != '\U{7f}')
  }

  /** The table `unhex`.  Only its first 128 entries are written out, so every byte from 128 up has
      entry 0 and passes for the digit 0. */
  function Unhex(c: char): (v: int)
    ensures -1 <= v < 16
  {
    if '0' <= c <= '9' then c as int - '0' as int
    else if 'A' <= c <= 'F' then c as int - 'A' as int + 10
    else if 'a' <= c <= 'f' then c as int - 'a' as int + 10
    else if c >= '\U{80}' then 0
    else -1
  }

  // ---------------------------------------------------------------------------------------------
  // Request line

  function MethodName(h: Method): string {
    match h
    case DELETE => "DELETE" case GET => "GET" case HEAD => "HEAD" case POST => "POST" case PUT => "PUT"
    case CONNECT => "CONNECT" case OPTIONS => "OPTIONS" case TRACE => "TRACE" case PATCH => "PATCH"
    case PURGE => "PURGE" case COPY => "COPY" case LOCK => "LOCK" case MKCOL => "MKCOL" case MOVE => "MOVE"
    case PROPFIND => "PROPFIND" case PROPPATCH => "PROPPATCH" case SEARCH => "SEARCH"
    case UNLOCK => "UNLOCK" case BIND => "BIND" case REBIND => "REBIND" case UNBIND => "UNBIND"
    case ACL => "ACL" case REPORT => "REPORT" case MKACTIVITY => "MKACTIVITY" case CHECKOUT => "CHECKOUT"
    case MERGE => "MERGE" case MSEARCH => "M-SEARCH" case NOTIFY => "NOTIFY" case SUBSCRIBE => "SUBSCRIBE"
    case UNSUBSCRIBE => "UNSUBSCRIBE" case MKCALENDAR => "MKCALENDAR" case LINK => "LINK"
    case UNLINK => "UNLINK" case SOURCE => "SOURCE"
  }

  /** The method guessed from its first letter. */
  function FirstGuess(ch: char): Option<Method> {
    match ch
    case 'A' => Some(ACL) case 'B' => Some(BIND) case 'C' => Some(CONNECT) case 'D' => Some(DELETE)
    case 'G' => Some(GET) case 'H' => Some(HEAD) case 'L' => Some(LOCK) case 'M' => Some(MKCOL)
    case 'N' => Some(NOTIFY) case 'O' => Some(OPTIONS) case 'P' => Some(POST) case 'R' => Some(REPORT)
    case 'S' => Some(SUBSCRIBE) case 'T' => Some(TRACE) case 'U' => Some(UNLOCK)
    case _ => None
  }

  /** The table of corrections: at this position of that method, this letter means another one. */
  function Correction(h: Method, index: nat, ch: char): Option<Method> {
    match (h, index, ch)
    case (POST, 1, 'U') => Some(PUT) case (POST, 1, 'A') => Some(PATCH) case (POST, 1, 'R') => Some(PROPFIND)
    case (PUT, 2, 'R') => Some(PURGE) case (CONNECT, 1, 'H') => Some(CHECKOUT)
    case (CONNECT, 2, 'P') => Some(COPY) case (MKCOL, 1, 'O') => Some(MOVE) case (MKCOL, 1, 'E') => Some(MERGE)
    case (MKCOL, 1, '-') => Some(MSEARCH) case (MKCOL, 2, 'A') => Some(MKACTIVITY)
    case (MKCOL, 3, 'A') => Some(MKCALENDAR) case (SUBSCRIBE, 1, 'E') => Some(SEARCH)
    case (SUBSCRIBE, 1, 'O') => Some(SOURCE) case (REPORT, 2, 'B') => Some(REBIND)
    case (PROPFIND, 4, 'P') => Some(PROPPATCH) case (LOCK, 1, 'I') => Some(LINK)
    case (UNLOCK, 2, 'S') => Some(UNSUBSCRIBE) case (UNLOCK, 2, 'B') => Some(UNBIND)
    case (UNLOCK, 3, 'I') => Some(UNLINK)
    case _ => None
  }

  function StartReqStep(m: Machine, ch: char): Out {
    if ch == CR || ch == LF then Out(m, [])
    else
      var m1 := m.(flags := NO_FLAGS, usesTransferEncoding := false, contentLength := ULLONG_MAX);
      match FirstGuess(ch)
      case None => Out(Fail(m1, InvalidMethod), [])
      case Some(h) => Out(m1.(httpMethod := h, scan := Scan(m.scan.state, 1), state := ReqMethod), [])
  }

  function MethodStep(m: Machine, ch: char): Out {
    var name := MethodName(m.httpMethod);
    var i := m.scan.index;
    var next := m.scan.(index := i + 1);
    if ch == '\0' then Out(Fail(m, InvalidMethod), [])
    else if ch == ' ' && i == |name| then
      Out(m.(state := ReqSpacesBeforeUrl, scan := next), [MethodSeen(m.httpMethod)])
    else if i < |name| && ch == name[i] then
      Out(m.(scan := next), [MethodSeen(m.httpMethod)])
    else
      match Correction(m.httpMethod, i, ch)
      case None => Out(Fail(m, InvalidMethod), [])
      case Some(h) => Out(m.(httpMethod := h, scan := next), [MethodSeen(h)])
  }

  /** `parse_url_char`. */
  function ParseUrlChar(s: State, ch: char): State {
    if ch == ' ' || ch == CR || ch == LF || ch == '\t' || ch == '\U{c}' then Dead
    else match s
      case ReqSpacesBeforeUrl =>
        if ch == '/' || ch == '*' then ReqPath else if IsAlpha(ch) then ReqSchema else Dead
      case ReqSchema => if IsAlpha(ch) then ReqSchema else if ch == ':' then ReqSchemaSlash else Dead
      case ReqSchemaSlash => if ch == '/' then ReqSchemaSlashSlash else Dead
      case ReqSchemaSlashSlash => if ch == '/' then ReqServerStart else Dead
      case ReqServerWithAt => if ch == '@' then Dead else ServerChar(ch)
      case ReqServerStart => ServerChar(ch)
      case ReqServer => ServerChar(ch)
      case ReqPath => if IsUrlChar(ch) then ReqPath else if ch == '?' then ReqQueryStringStart else Dead
      case ReqQueryStringStart => if IsUrlChar(ch) || ch == '?' then ReqQueryString else Dead
      case ReqQueryString => if IsUrlChar(ch) || ch == '?' then ReqQueryString else Dead
      case _ => Dead
  }

  lemma UrlOrDead(s: State, ch: char)
    ensures ParseUrlChar(s, ch).Dead? || InUrl(ParseUrlChar(s, ch))
  {
  }

  function ServerChar(ch: char): State {
    if ch == '/' then ReqPath
    else if ch == '?' then ReqQueryStringStart
    else if ch == '@' then ReqServerWithAt
    else if IsUserinfoChar(ch) || ch == '[' || ch == ']' then ReqServer
    else Dead
  }

  /** States in which `url_mark` is set. */
  predicate InUrl(s: State) {
    s.ReqSchema? || s.ReqSchemaSlash? || s.ReqSchemaSlashSlash? || s.ReqServerStart? || UrlMayEnd(s)
  }

  /** States in which a space or a line end closes the URL. */
  predicate UrlMayEnd(s: State) {
    s.ReqServer? || s.ReqServerWithAt? || s.ReqPath? || s.ReqQueryStringStart? || s.ReqQueryString?
  }

  function UrlByte(m: Machine, ch: char): Out {
    var s := ParseUrlChar(m.state, ch);
    if s.Dead? then Out(Fail(m.(state := Dead), InvalidUrl), []) else Out(m.(state := s), [UrlData([ch])])
  }

  function UrlStep(m: Machine, ch: char): Out {
    if m.state.ReqSpacesBeforeUrl? then
      if ch == ' ' then Out(m, [])
      else UrlByte(if m.httpMethod.CONNECT? then m.(state := ReqServerStart) else m, ch)
    else if UrlMayEnd(m.state) && ch == ' ' then Out(m.(state := ReqHttpStart), [])
    else if UrlMayEnd(m.state) && (ch == CR || ch == LF) then
      if !m.httpMethod.GET? then Out(Fail(m.(state := Dead), InvalidVersion), [])
      else Out(m.(httpMajor := 0, httpMinor := 9,
                  state := if ch == CR then ReqLineAlmostDone else HeaderFieldStart), [])
    else UrlByte(m, ch)
  }

  function Expect(m: Machine, ok: bool, next: State, e: Errno): Machine {
    if ok then m.(state := next) else Fail(m, e)
  }

  predicate InVersion(s: State) {
    s.ReqHttpStart? || s.ReqHttpH? || s.ReqHttpHT? || s.ReqHttpHTT? || s.ReqHttpHTTP? || s.ReqHttpI?
    || s.ReqHttpIC? || s.ReqHttpMajor? || s.ReqHttpDot? || s.ReqHttpMinor? || s.ReqHttpEnd?
    || s.ReqLineAlmostDone?
  }

  function VersionStep(m: Machine, ch: char): Machine
    requires InVersion(m.state)
  {
    match m.state
    case ReqHttpStart =>
      if ch == ' ' then m
      else if ch == 'H' then m.(state := ReqHttpH)
      else Expect(m, ch == 'I' && m.httpMethod.SOURCE?, ReqHttpI, InvalidConstant)
    case ReqHttpH => Expect(m, ch == 'T', ReqHttpHT, Strict)
    case ReqHttpHT => Expect(m, ch == 'T', ReqHttpHTT, Strict)
    case ReqHttpHTT => Expect(m, ch == 'P', ReqHttpHTTP, Strict)
    case ReqHttpI => Expect(m, ch == 'C', ReqHttpIC, Strict)
    case ReqHttpIC => Expect(m, ch == 'E', ReqHttpHTTP, Strict)
    case ReqHttpHTTP => Expect(m, ch == '/', ReqHttpMajor, Strict)
    case ReqHttpMajor =>
      if IsNum(ch) then m.(httpMajor := ch as int - '0' as int, state := ReqHttpDot) else Fail(m, InvalidVersion)
    case ReqHttpDot => Expect(m, ch == '.', ReqHttpMinor, InvalidVersion)
    case ReqHttpMinor =>
      if IsNum(ch) then m.(httpMinor := ch as int - '0' as int, state := ReqHttpEnd) else Fail(m, InvalidVersion)
    case ReqHttpEnd =>
      if ch == CR then m.(state := ReqLineAlmostDone) else Expect(m, ch == LF, HeaderFieldStart, InvalidVersion)
    case ReqLineAlmostDone => Expect(m, ch == LF, HeaderFieldStart, LfExpected)
  }

  // ---------------------------------------------------------------------------------------------
  // Header fields

  /** The keyword that a matching state compares with. */
  function KeywordText(h: HeaderState): string {
    match h
    case HMatchingConnection => "connection"
    case HMatchingProxyConnection => "proxy-connection"
    case HMatchingContentLength => "content-length"
    case HMatchingTransferEncoding => "transfer-encoding"
    case HMatchingUpgrade => "upgrade"
    case HMatchingTeChunked => "chunked"
    case HMatchingKeepAlive => "keep-alive"
    case HMatchingClose => "close"
    case _ => ""
  }

  /** How far the current header name or value has been recognised: `header_state` and `index`. */
  datatype Scan = Scan(state: HeaderState, index: nat)

  /** One character of a keyword: on the last one the header state becomes `hit`, on a mismatch `miss`. */
  function Keyword(s: Scan, c: char, hit: HeaderState, miss: HeaderState): Scan {
    var keyword := KeywordText(s.state);
    var i := s.index + 1;
    Scan(if i >= |keyword| || c != keyword[i] then miss else if i == |keyword| - 1 then hit else s.state, i)
  }

  function FieldStartStep(m: Machine, ch: char): Out {
    if ch == CR then Out(m.(state := HeadersAlmostDone), [])
    else if ch == LF then HeadersAlmostDoneStep(m.(state := HeadersAlmostDone), ch)
    else if !IsToken(ch) then Out(Fail(m, InvalidHeaderToken), [])
    else
      var c := TokenLower(ch);
      var h := if c == 'c' then HC
               else if c == 'p' then HMatchingProxyConnection
               else if c == 't' then HMatchingTransferEncoding
               else if c == 'u' then HMatchingUpgrade
               else HGeneral;
      Out(m.(scan := Scan(h, 0), state := HeaderField), [FieldData([ch])])
  }

  /** The switch over `header_state` for a token character of a field name; None is its failing assert. */
  function FieldScan(s: Scan, ch: char): Option<Scan> {
    var c := TokenLower(ch);
    var i := s.index + 1;
    match s.state
    case HGeneral => Some(s)
    case HC => Some(Scan(if c == 'o' then HCO else HGeneral, i))
    case HCO => Some(Scan(if c == 'n' then HCON else HGeneral, i))
    case HCON =>
      Some(Scan(if c == 'n' then HMatchingConnection else if c == 't' then HMatchingContentLength else HGeneral, i))
    case HMatchingConnection => Some(Keyword(s, c, HConnection, HGeneral))
    case HMatchingProxyConnection => Some(Keyword(s, c, HConnection, HGeneral))
    case HMatchingContentLength => Some(Keyword(s, c, HContentLength, HGeneral))
    case HMatchingTransferEncoding => Some(Keyword(s, c, HTransferEncoding, HGeneral))
    case HMatchingUpgrade => Some(Keyword(s, c, HUpgrade, HGeneral))
    case HConnection => Some(s.(state := HGeneral))
    case HContentLength => Some(s.(state := HGeneral))
    case HTransferEncoding => Some(s.(state := HGeneral))
    case HUpgrade => Some(s.(state := HGeneral))
    case _ => None
  }

  function FieldChar(m: Machine, ch: char): Machine {
    match FieldScan(m.scan, ch)
    case None => Fail(m, AssertFailed)
    case Some(s) => m.(scan := s, usesTransferEncoding := m.usesTransferEncoding || s.state.HTransferEncoding?)
  }

  function FieldStep(m: Machine, ch: char): Out {
    if IsToken(ch) then
      var m1 := FieldChar(m, ch);
      Out(m1, if m1.errno == NoError then [FieldData([ch])] else [])
    else if ch == ':' then Out(m.(state := ValueDiscardWs), [])
    else Out(Fail(m, InvalidHeaderToken), [])
  }

  // ---------------------------------------------------------------------------------------------
  // Header values

  /** First byte of a value.  `h2` says whether the next byte of the same buffer is '2'. */
  function ValueStartStep(m: Machine, ch: char, h2: bool): Out {
    var m1 := m.(state := HeaderValue, scan := Scan(m.scan.state, 0));
    var c := Lower(ch);
    var m2 :=
      match m.scan.state
      case HUpgrade =>
        m1.(flags := if ch == 'h' && h2 then m1.flags else m1.flags.(upgrade := true), scan := Scan(HGeneral, 0))
      case HTransferEncoding => m1.(scan := Scan(if c == 'c' then HMatchingTeChunked else HMatchingTeToken, 0))
      case HMatchingTeTokenStart => m1
      case HContentLength =>
        if !IsNum(ch) then Fail(m1, InvalidContentLength)
        else if m1.flags.contentLength then Fail(m1, UnexpectedContentLength)
        else m1.(flags := m1.flags.(contentLength := true), contentLength := ch as int - '0' as int,
                 scan := Scan(HContentLengthNum, 0))
      case HContentLengthWs => m1
      case HConnection =>
        if c == 'k' then m1.(scan := Scan(HMatchingKeepAlive, 0))
        else if c == 'c' then m1.(scan := Scan(HMatchingClose, 0))
        else if c == ' ' || c == '\t' then m1
        else m1.(scan := Scan(HGeneral, 0))
      case _ => m1.(scan := Scan(HGeneral, 0));
    Out(m2, if m2.errno == NoError then [ValueData([ch])] else [])
  }

  datatype Scanned = Scanned(scan: Scan, contentLength: uint64) | Rejected(errno: Errno)

  /** A further digit of a Content-Length, with the overflow guard (ULLONG_MAX - 10) / 10.
      Past the guard the 64-bit product cannot wrap, as the type of the result says. */
  function LengthDigit(s: Scan, length: uint64, ch: char): Scanned {
    if !IsNum(ch) || (ULLONG_MAX - 10) / 10 < length then Rejected(InvalidContentLength)
    else Scanned(s, length * 10 + (ch as int - '0' as int))
  }

  /** The switch over `h_state` for a value byte that is no line end. */
  function ValueScan(s: Scan, length: uint64, ch: char): Scanned {
    var c := Lower(ch);
    match s.state
    case HGeneral => Scanned(s, length)
    case HConnection => Rejected(AssertFailed)
    case HTransferEncoding => Rejected(AssertFailed)
    case HContentLength =>
      if ch == ' ' then Scanned(s, length) else LengthDigit(s.(state := HContentLengthNum), length, ch)
    case HContentLengthNum =>
      if ch == ' ' then Scanned(s.(state := HContentLengthWs), length) else LengthDigit(s, length, ch)
    case HContentLengthWs => if ch == ' ' then Scanned(s, length) else Rejected(InvalidContentLength)
    case HMatchingTeTokenStart =>
      Scanned(if c == 'c' then s.(state := HMatchingTeChunked)
              else if IsToken(c) then s.(state := HMatchingTeToken)
              else if c == ' ' || c == '\t' then s
              else s.(state := HGeneral), length)
    case HMatchingTeChunked => Scanned(Keyword(s, c, HTeChunked, HMatchingTeToken), length)
    case HMatchingTeToken => Scanned(if ch == ',' then Scan(HMatchingTeTokenStart, 0) else s, length)
    case HMatchingKeepAlive => Scanned(Keyword(s, c, HKeepAlive, HGeneral), length)
    case HMatchingClose => Scanned(Keyword(s, c, HClose, HGeneral), length)
    case HTeChunked => Scanned(if ch != ' ' then s.(state := HMatchingTeToken) else s, length)
    case HKeepAlive => Scanned(if ch != ' ' then s.(state := HGeneral) else s, length)
    case HClose => Scanned(if ch != ' ' then s.(state := HGeneral) else s, length)
    case _ => Scanned(s.(state := HGeneral), length)
  }

  function ValueChar(m: Machine, ch: char): Machine {
    match ValueScan(m.scan, m.contentLength, ch)
    case Rejected(e) => Fail(m, e)
    case Scanned(s, length) => m.(scan := s, contentLength := length)
  }

  function ValueStep(m: Machine, ch: char): Out {
    if ch == CR then Out(m.(state := HeaderAlmostDone), [])
    else if ch == LF then Out(HeaderAlmostDoneStep(m.(state := HeaderAlmostDone), ch), [])
    else if !m.config.lenient && !IsHeaderChar(ch) then Out(Fail(m, InvalidHeaderToken), [])
    else
      var m1 := ValueChar(m, ch);
      Out(m1, if m1.errno == NoError then [ValueData([ch])] else [])
  }

  function HeaderAlmostDoneStep(m: Machine, ch: char): Machine {
    Expect(m, ch == LF, ValueLws, LfExpected)
  }

  function ValueLwsStep(m: Machine, ch: char, h2: bool): Out {
    if ch == ' ' || ch == '\t' then
      ValueStartStep(m.(state := ValueStart,
                        scan := if m.scan.state.HContentLengthNum? then m.scan.(state := HContentLengthWs) else m.scan),
                     ch, h2)
    else
      var f := m.flags;
      var f1 := match m.scan.state
                case HKeepAlive => f.(keepAlive := true)
                case HClose => f.(close := true)
                case HTeChunked => f.(chunked := true)
                case _ => f;
      FieldStartStep(m.(flags := f1, state := HeaderFieldStart), ch)
  }

  function DiscardWsStep(m: Machine, ch: char, h2: bool): Out {
    if ch == ' ' || ch == '\t' then Out(m, [])
    else if ch == CR then Out(m.(state := ValueDiscardWsAlmostDone), [])
    else if ch == LF then Out(m.(state := ValueDiscardLws), [])
    else ValueStartStep(m, ch, h2)
  }

  function DiscardLwsStep(m: Machine, ch: char): Out {
    if ch == ' ' || ch == '\t' then Out(m.(state := ValueDiscardWs), [])
    else
      var o := FieldStartStep(m.(state := HeaderFieldStart), ch);
      Out(o.m, [ValueData("")] + o.events)
  }

  // ---------------------------------------------------------------------------------------------
  // End of headers, body

  function HeadersAlmostDoneStep(m: Machine, ch: char): Out {
    if ch != LF then Out(Fail(m, Strict), [])
    else if m.flags.trailing then Out(m, [MessageComplete])
    else if m.usesTransferEncoding && m.flags.contentLength
            && (if m.flags.chunked then !m.config.allowChunkedLength else !m.config.lenient) then
      Out(Fail(m, UnexpectedContentLength), [])
    else
      var up := m.flags.upgrade || m.httpMethod.CONNECT?;
      var o := HeadersDoneStep(m.(state := HeadersDone, upgrade := up), ch);
      Out(o.m, [HeadersComplete(m.httpMajor, m.httpMinor, m.flags, up)] + o.events)
  }

  function HeadersDoneStep(m: Machine, ch: char): Out {
    if ch != LF then Out(Fail(m, Strict), [])
    else
      var m1 := m.(nread := 0);
      if m.upgrade then Out(m1.(halted := true), [MessageComplete])
      else if m.flags.chunked then Out(m1.(state := ChunkSizeStart), [])
      else if m.usesTransferEncoding then
        if !m.config.lenient then Out(Fail(m1, InvalidTransferEncoding), [])
        else Out(m1.(state := BodyIdentityEof), [])
      else if m.contentLength == 0 || m.contentLength == ULLONG_MAX then Out(m1, [MessageComplete])
      else Out(m1.(state := BodyIdentity), [])
  }

  function BodyIdentityStep(m: Machine, ch: char): Out {
    if m.contentLength == 0 || m.contentLength == ULLONG_MAX then Out(Fail(m, AssertFailed), [])
    else if m.contentLength == 1 then
      Out(m.(contentLength := 0, state := MessageDone), [BodyData([ch]), MessageComplete])
    else Out(m.(contentLength := m.contentLength - 1), [BodyData([ch])])
  }

  predicate InChunk(s: State) {
    s.ChunkSizeStart? || s.ChunkSize? || s.ChunkParameters? || s.ChunkSizeAlmostDone? || s.ChunkData?
    || s.ChunkDataAlmostDone? || s.ChunkDataDone?
  }

  /** A further digit of a chunk size, with the overflow guard (ULLONG_MAX - 16) / 16.
      Past the guard the 64-bit product cannot wrap, as the type of the result says. */
  function ChunkSizeStep(m: Machine, ch: char): Machine {
    if ch == CR then m.(state := ChunkSizeAlmostDone)
    else if Unhex(ch) == -1 then
      Expect(m, ch == ';' || ch == ' ', ChunkParameters, InvalidChunkSize)
    else if (ULLONG_MAX - 16) / 16 < m.contentLength then Fail(m, InvalidContentLength)
    else m.(contentLength := m.contentLength * 16 + Unhex(ch))
  }

  function ChunkDataStep(m: Machine, ch: char): Out {
    if m.contentLength == 0 || m.contentLength == ULLONG_MAX then Out(Fail(m, AssertFailed), [])
    else
      var left := m.contentLength - 1;
      Out(m.(contentLength := left, state := if left == 0 then ChunkDataAlmostDone else ChunkData), [BodyData([ch])])
  }

  function ChunkStep(m: Machine, ch: char): Out
    requires InChunk(m.state)
  {
    if !m.flags.chunked then Out(Fail(m, AssertFailed), [])
    else match m.state
      case ChunkSizeStart =>
        if m.nread != 1 then Out(Fail(m, AssertFailed), [])
        else if Unhex(ch) == -1 then Out(Fail(m, InvalidChunkSize), [])
        else Out(m.(contentLength := Unhex(ch), state := ChunkSize), [])
      case ChunkSize => Out(ChunkSizeStep(m, ch), [])
      case ChunkParameters => Out(if ch == CR then m.(state := ChunkSizeAlmostDone) else m, [])
      case ChunkSizeAlmostDone =>
        if ch != LF then Out(Fail(m, Strict), [])
        else if m.contentLength == 0 then
          Out(m.(nread := 0, flags := m.flags.(trailing := true), state := HeaderFieldStart), [])
        else Out(m.(nread := 0, state := ChunkData), [])
      case ChunkData => ChunkDataStep(m, ch)
      case ChunkDataAlmostDone =>
        if m.contentLength != 0 then Out(Fail(m, AssertFailed), [])
        else Out(Expect(m, ch == CR, ChunkDataDone, Strict), [])
      case ChunkDataDone =>
        if ch != LF then Out(Fail(m, Strict), []) else Out(m.(nread := 0, state := ChunkSizeStart), [])
  }

  // ---------------------------------------------------------------------------------------------
  // One byte

  /** CROW_PARSING_HEADER: the states whose bytes count against the header limit. */
  predicate ParsingHeader(s: State) {
    !(s.ChunkData? || s.ChunkDataAlmostDone? || s.ChunkDataDone? || s.BodyIdentity? || s.BodyIdentityEof?
      || s.MessageDone?)
  }

  function Count(m: Machine, n: nat): Machine {
    var m1 := m.(nread := m.nread + n);
    if m1.nread > m.config.maxHeaderSize then Fail(m1, HeaderOverflow) else m1
  }

  predicate InRequestLine(s: State) {
    s.Dead? || s.StartReq? || s.ReqMethod? || s.ReqSpacesBeforeUrl? || InUrl(s) || InVersion(s)
  }

  predicate InHeader(s: State) {
    s.HeaderFieldStart? || s.HeaderField? || s.ValueDiscardWs? || s.ValueDiscardWsAlmostDone?
    || s.ValueDiscardLws? || s.ValueStart? || s.HeaderValue? || s.ValueLws? || s.HeaderAlmostDone?
    || s.HeadersAlmostDone? || s.HeadersDone?
  }

  function RequestLineStep(m: Machine, ch: char): Out
    requires InRequestLine(m.state)
  {
    if m.state.ReqSpacesBeforeUrl? || InUrl(m.state) then UrlStep(m, ch)
    else if InVersion(m.state) then Out(VersionStep(m, ch), [])
    else match m.state
      case Dead => Out(if ch == CR || ch == LF then m else Fail(m, ClosedConnection), [])
      case StartReq => StartReqStep(m, ch)
      case ReqMethod => MethodStep(m, ch)
  }

  function HeaderStep(m: Machine, ch: char, h2: bool): Out
    requires InHeader(m.state)
  {
    match m.state
    case HeaderFieldStart => FieldStartStep(m, ch)
    case HeaderField => FieldStep(m, ch)
    case ValueDiscardWs => DiscardWsStep(m, ch, h2)
    case ValueDiscardWsAlmostDone => Out(Expect(m, ch == LF, ValueDiscardLws, Strict), [])
    case ValueDiscardLws => DiscardLwsStep(m, ch)
    case ValueStart => ValueStartStep(m, ch, h2)
    case HeaderValue => ValueStep(m, ch)
    case ValueLws => ValueLwsStep(m, ch, h2)
    case HeaderAlmostDone => Out(HeaderAlmostDoneStep(m, ch), [])
    case HeadersAlmostDone => HeadersAlmostDoneStep(m, ch)
    case HeadersDone => HeadersDoneStep(m, ch)
  }

  function BodyStep(m: Machine, ch: char): Out
    requires m.state.BodyIdentity? || m.state.BodyIdentityEof? || m.state.MessageDone?
  {
    match m.state
    case BodyIdentity => BodyIdentityStep(m, ch)
    case BodyIdentityEof => Out(m, [BodyData([ch])])
    case MessageDone => Out(m, [MessageComplete])
  }

  function Dispatch(m: Machine, ch: char, h2: bool): Out {
    if InRequestLine(m.state) then RequestLineStep(m, ch)
    else if InHeader(m.state) then HeaderStep(m, ch, h2)
    else if InChunk(m.state) then ChunkStep(m, ch)
    else BodyStep(m, ch)
  }

  function Step(m: Machine, ch: char, h2: bool): Out {
    if Stopped(m) then Out(m, [])
    else
      var m1 := if ParsingHeader(m.state) then Count(m, 1) else m;
      if m1.errno != NoError then Out(m1, []) else Dispatch(m1, ch, h2)
  }
}
