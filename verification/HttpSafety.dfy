/** The asserts of `http_parser_execute`: an invariant under which all of them hold but one. */
module HttpSafety {
  import opened Wrappers
  import opened HttpMachine
  import opened HttpRequest
  import opened HttpGoes
  import opened HttpNames

  /** Header states a field name can be in. */
  predicate NameState(h: HeaderState) {
    h.HGeneral? || h.HC? || h.HCO? || h.HCON? || h.HMatchingConnection? || h.HMatchingProxyConnection?
    || h.HMatchingContentLength? || h.HMatchingTransferEncoding? || h.HMatchingUpgrade?
    || h.HConnection? || h.HContentLength? || h.HTransferEncoding? || h.HUpgrade?
  }

  /** What every reachable machine that has not failed satisfies. */
  predicate Sound(m: Machine) {
    && (m.state.HeaderField? ==> NameState(m.scan.state))
    && (m.state.HeaderValue? || m.state.HeaderAlmostDone? || m.state.ValueLws? ==> !m.scan.state.HTransferEncoding?)
    && (InChunk(m.state) ==> m.flags.chunked)
    && (m.state.ChunkSizeStart? ==> m.nread == 0)
    && (m.state.ChunkData? || m.state.BodyIdentity? ==> 0 < m.contentLength < ULLONG_MAX)
    && (m.state.ChunkSize? || m.state.ChunkParameters? || m.state.ChunkSizeAlmostDone? ==> m.contentLength < ULLONG_MAX)
    && (m.state.ChunkDataAlmostDone? ==> m.contentLength == 0)
  }

  /** The machine once the byte it is about to read is counted. */
  predicate SoundCounted(m: Machine) {
    (m.state.ChunkSizeStart? ==> m.nread == 1) && Sound(if m.state.ChunkSizeStart? then m.(nread := 0) else m)
  }

  /** The one byte at which an assert fails: in the value of a Connection header that is still compared with
      nothing, which only a NUL as its first byte leaves behind. */
  predicate FailsAssert(m: Machine, ch: char) {
    && m.state.HeaderValue? && m.scan.state.HConnection?
    && ch != CR && ch != LF && (m.config.lenient || IsHeaderChar(ch))
  }

  /** A step leaves a sound machine, and fails an assert exactly at such a byte. */
  predicate StepsSoundly(m: Machine, ch: char, m1: Machine) {
    && (m1.errno == NoError ==> Sound(m1))
    && (m1.errno == AssertFailed <==> FailsAssert(m, ch))
  }

  lemma VersionSound(m: Machine, ch: char)
    requires m.errno == NoError && InVersion(m.state)
    ensures StepsSoundly(m, ch, VersionStep(m, ch))
  {
  }

  lemma UrlSound(m: Machine, ch: char)
    requires m.errno == NoError && (m.state.ReqSpacesBeforeUrl? || InUrl(m.state))
    ensures StepsSoundly(m, ch, UrlStep(m, ch).m)
  {
    UrlOrDead(m.state, ch);
    UrlOrDead(ReqServerStart, ch);
    hide ParseUrlChar;
  }

  lemma MethodSound(m: Machine, ch: char)
    requires m.errno == NoError
    ensures m.state.ReqMethod? ==> StepsSoundly(m, ch, MethodStep(m, ch).m)
    ensures m.state.StartReq? ==> StepsSoundly(m, ch, StartReqStep(m, ch).m)
  {
    hide MethodName, Correction, FirstGuess;
  }

  lemma LineSound(m: Machine, ch: char)
    requires m.errno == NoError && InRequestLine(m.state)
    ensures StepsSoundly(m, ch, RequestLineStep(m, ch).m)
  {
    hide UrlStep, VersionStep, MethodStep, StartReqStep;
    if m.state.ReqSpacesBeforeUrl? || InUrl(m.state) { UrlSound(m, ch); }
    else if InVersion(m.state) { VersionSound(m, ch); }
    else { MethodSound(m, ch); }
  }

  lemma HeadersDoneSound(m: Machine, ch: char)
    requires m.errno == NoError && (m.state.HeadersAlmostDone? || m.state.HeadersDone?)
    ensures StepsSoundly(m, ch, HeadersDoneStep(m, ch).m)
  {
  }

  lemma HeadersEndSound(m: Machine, ch: char)
    requires m.errno == NoError && (m.state.HeadersAlmostDone? || m.state.HeadersDone?)
    ensures StepsSoundly(m, ch, HeadersDoneStep(m, ch).m)
    ensures StepsSoundly(m, ch, HeadersAlmostDoneStep(m, ch).m)
  {
    hide HeadersDoneStep;
    HeadersDoneSound(m, ch);
    HeadersDoneSound(m.(state := HeadersDone, upgrade := m.flags.upgrade || m.httpMethod.CONNECT?), ch);
  }

  lemma FieldStartSound(m: Machine, ch: char)
    requires m.errno == NoError && m.state.HeaderFieldStart?
    ensures StepsSoundly(m, ch, FieldStartStep(m, ch).m)
  {
    hide HeadersAlmostDoneStep;
    HeadersEndSound(m.(state := HeadersAlmostDone), ch);
  }

  lemma FieldSound(m: Machine, ch: char)
    requires m.errno == NoError && m.state.HeaderField? && NameState(m.scan.state)
    ensures StepsSoundly(m, ch, FieldStep(m, ch).m)
  {
    FieldScanSound(m.scan, ch);
    hide FieldScan;
  }

  lemma FieldScanSound(s: Scan, ch: char)
    requires NameState(s.state)
    ensures FieldScan(s, ch).Some? && NameState(FieldScan(s, ch).value.state)
  {
    hide KeywordText;
  }

  lemma ValueStartSound(m: Machine, ch: char, h2: bool)
    requires m.errno == NoError && !m.state.HeaderValue?
    ensures StepsSoundly(m, ch, ValueStartStep(m, ch, h2).m)
  {
  }

  lemma ValueScanSound(s: Scan, n: uint64, ch: char)
    requires !s.state.HTransferEncoding?
    ensures ValueScan(s, n, ch).Scanned? ==> !ValueScan(s, n, ch).scan.state.HTransferEncoding?
    ensures ValueScan(s, n, ch) == Rejected(AssertFailed) <==> s.state.HConnection?
  {
    hide KeywordText;
  }

  lemma ValueSound(m: Machine, ch: char)
    requires m.errno == NoError && m.state.HeaderValue? && !m.scan.state.HTransferEncoding?
    ensures StepsSoundly(m, ch, ValueStep(m, ch).m)
  {
    ValueScanSound(m.scan, m.contentLength, ch);
    hide ValueScan;
  }

  lemma HeaderSound(m: Machine, ch: char, h2: bool)
    requires m.errno == NoError && InHeader(m.state) && Sound(m)
    ensures StepsSoundly(m, ch, HeaderStep(m, ch, h2).m)
  {
    hide FieldStartStep, FieldStep, ValueStartStep, ValueStep, ValueLwsStep, HeadersAlmostDoneStep, HeadersDoneStep,
         DiscardWsStep, DiscardLwsStep, HeaderAlmostDoneStep, StepsSoundly;
    if m.state.HeaderField? { FieldSound(m, ch); }
    else if m.state.HeaderValue? { ValueSound(m, ch); }
    else if m.state.HeaderFieldStart? { FieldStartSound(m, ch); }
    else if m.state.HeadersAlmostDone? || m.state.HeadersDone? { HeadersEndSound(m, ch); }
    else if m.state.ValueLws? { LwsSound(m, ch, h2); }
    else if m.state.ValueStart? { ValueStartSound(m, ch, h2); }
    else if m.state.ValueDiscardWs? { DiscardSound(m, ch, h2); }
    else if m.state.ValueDiscardLws? { FieldStartSound(m.(state := HeaderFieldStart), ch); DiscardLineSound(m, ch); }
    else { EndSound(m, ch, h2); }
  }

  lemma DiscardSound(m: Machine, ch: char, h2: bool)
    requires m.errno == NoError && m.state.ValueDiscardWs?
    ensures StepsSoundly(m, ch, DiscardWsStep(m, ch, h2).m)
  {
    hide ValueStartStep, NameState;
    ValueStartSound(m, ch, h2);
  }

  lemma DiscardLineSound(m: Machine, ch: char)
    requires m.errno == NoError && m.state.ValueDiscardLws?
    requires var m0 := m.(state := HeaderFieldStart); StepsSoundly(m0, ch, FieldStartStep(m0, ch).m)
    ensures StepsSoundly(m, ch, DiscardLwsStep(m, ch).m)
  {
    hide FieldStartStep, NameState;
  }

  lemma EndSound(m: Machine, ch: char, h2: bool)
    requires m.errno == NoError && Sound(m) && (m.state.ValueDiscardWsAlmostDone? || m.state.HeaderAlmostDone?)
    ensures StepsSoundly(m, ch, HeaderStep(m, ch, h2).m)
  {
    hide NameState;
  }

  lemma LwsSound(m: Machine, ch: char, h2: bool)
    requires m.errno == NoError && m.state.ValueLws?
    ensures StepsSoundly(m, ch, ValueLwsStep(m, ch, h2).m)
  {
    hide FieldStartStep, ValueStartStep;
    if ch == ' ' || ch == '\t' {
      ValueStartSound(m.(state := ValueStart,
                         scan := if m.scan.state.HContentLengthNum? then m.scan.(state := HContentLengthWs) else m.scan),
                      ch, h2);
    } else {
      var f := match m.scan.state
               case HKeepAlive => m.flags.(keepAlive := true)
               case HClose => m.flags.(close := true)
               case HTeChunked => m.flags.(chunked := true)
               case _ => m.flags;
      FieldStartSound(m.(flags := f, state := HeaderFieldStart), ch);
    }
  }

  lemma ChunkSound(m: Machine, ch: char)
    requires m.errno == NoError && InChunk(m.state) && SoundCounted(m)
    ensures StepsSoundly(m, ch, ChunkStep(m, ch).m)
  {
    if m.state.ChunkSizeStart? || m.state.ChunkSize? || m.state.ChunkParameters? || m.state.ChunkSizeAlmostDone? {
      ChunkHeadSound(m, ch);
    } else {
      ChunkDataSound(m, ch);
    }
  }

  lemma ChunkHeadSound(m: Machine, ch: char)
    requires m.errno == NoError && SoundCounted(m)
    requires m.state.ChunkSizeStart? || m.state.ChunkSize? || m.state.ChunkParameters? || m.state.ChunkSizeAlmostDone?
    ensures StepsSoundly(m, ch, ChunkStep(m, ch).m)
  {
    hide Unhex, ChunkDataStep;
  }

  lemma ChunkDataSound(m: Machine, ch: char)
    requires m.errno == NoError && InChunk(m.state) && Sound(m)
    requires m.state.ChunkData? || m.state.ChunkDataAlmostDone? || m.state.ChunkDataDone?
    ensures StepsSoundly(m, ch, ChunkStep(m, ch).m)
  {
    hide Unhex, ChunkSizeStep;
  }

  lemma BodySound(m: Machine, ch: char)
    requires m.errno == NoError && Sound(m) && (m.state.BodyIdentity? || m.state.BodyIdentityEof? || m.state.MessageDone?)
    ensures StepsSoundly(m, ch, BodyStep(m, ch).m)
  {
  }

  /** Every step of a sound machine is sound: the asserts about `nread`, F_CHUNKED, `content_length` and the
      field name's header state never fail, and the one about the value's fails at exactly one kind of byte. */
  lemma StepSound(m: Machine, ch: char, h2: bool)
    requires !Stopped(m) && Sound(m)
    ensures StepsSoundly(m, ch, Step(m, ch, h2).m) || Step(m, ch, h2).m.errno == HeaderOverflow
  {
    hide RequestLineStep, HeaderStep, ChunkStep, BodyStep;
    var m1 := if ParsingHeader(m.state) then m.(nread := m.nread + 1) else m;
    if InRequestLine(m.state) { LineSound(m1, ch); }
    else if InHeader(m.state) { HeaderSound(m1, ch, h2); }
    else if InChunk(m.state) { ChunkSound(m1, ch); }
    else { BodySound(m1, ch); }
  }

  /** The byte at `k` fails an assert: it is read at all, and counted, in a state that has no case for it. */
  predicate FailsBy(c: Conn, data: string, k: nat)
    requires k < |data|
  {
    var m := RunTo(c, data, k).m;
    !Stopped(m) && Room(m, 1) && FailsAssert(m, data[k])
  }

  lemma FailingStep(m: Machine, ch: char, h2: bool)
    requires !Stopped(m) && Sound(m)
    ensures Step(m, ch, h2).m.errno == AssertFailed <==> Room(m, 1) && FailsAssert(m, ch)
    ensures Step(m, ch, h2).m.errno == NoError ==> Sound(Step(m, ch, h2).m)
  {
    hide Sound, Dispatch;
    StepSound(m, ch, h2);
    if Room(m, 1) && FailsAssert(m, ch) { ByteAfterNul(m, ch, h2); }
  }

  /** Over a whole buffer: an assert fails exactly when such a byte is met. */
  lemma {:induction false} RunSound(c: Conn, data: string, p: nat)
    requires p <= |data| && !Stopped(c.m) && Sound(c.m)
    ensures RunTo(c, data, p).m.errno == AssertFailed <==> exists k :: 0 <= k < p && FailsBy(c, data, k)
    ensures RunTo(c, data, p).m.errno == NoError ==> Sound(RunTo(c, data, p).m)
  {
    hide Sound, FailsAssert, ApplyAll, Step, Room;
    if p > 0 {
      RunSound(c, data, p - 1);
      var m := RunTo(c, data, p - 1).m;
      if !Stopped(m) {
        FailingStep(m, data[p - 1], Ahead(data, p - 1));
        assert RunTo(c, data, p).m.errno == AssertFailed <==> FailsBy(c, data, p - 1);
      } else {
        StoppedStays(c, data, p - 1, p);
        assert !FailsBy(c, data, p - 1);
      }
    }
  }

  // ---------------------------------------------------------------------------------------------
  // Which byte leads there

  /** The value of a Connection header is compared with something. */
  predicate Quiet(m: Machine) {
    && (m.state.HeaderValue? || m.state.HeaderAlmostDone? || m.state.ValueLws? ==> !m.scan.state.HConnection?)
    && !m.state.ValueStart?
  }

  /** States in which a value is skipped to, and in which it is read. */
  predicate Skipping(s: State) {
    s.ValueDiscardWs? || s.ValueDiscardWsAlmostDone? || s.ValueDiscardLws?
  }

  predicate Reading(s: State) {
    s.HeaderValue? || s.HeaderAlmostDone? || s.ValueLws?
  }

  predicate InLine(s: State) {
    s.HeaderField? || Skipping(s) || Reading(s)
  }

  /** States outside of header lines. */
  predicate Outside(s: State) {
    !InLine(s) && !s.ValueStart?
  }

  lemma VersionOutside(m: Machine, ch: char)
    requires InVersion(m.state)
    ensures Outside(VersionStep(m, ch).state)
  {
  }

  lemma UrlOutside(m: Machine, ch: char)
    requires m.state.ReqSpacesBeforeUrl? || InUrl(m.state)
    ensures Outside(UrlStep(m, ch).m.state)
  {
    hide ParseUrlChar;
    UrlOrDead(m.state, ch);
    UrlOrDead(ReqServerStart, ch);
  }

  lemma LineOutside(m: Machine, ch: char)
    requires InRequestLine(m.state)
    ensures Outside(RequestLineStep(m, ch).m.state)
  {
    hide UrlStep, VersionStep, MethodStep;
    if m.state.ReqSpacesBeforeUrl? || InUrl(m.state) { UrlOutside(m, ch); }
    else if InVersion(m.state) { VersionOutside(m, ch); }
    else if m.state.ReqMethod? { MethodOutside(m, ch); }
  }

  lemma MethodOutside(m: Machine, ch: char)
    requires m.state.ReqMethod?
    ensures Outside(MethodStep(m, ch).m.state)
  {
  }

  lemma HeadersEndOutside(m: Machine, ch: char)
    requires Outside(m.state)
    ensures Outside(HeadersDoneStep(m, ch).m.state) && Outside(HeadersAlmostDoneStep(m, ch).m.state)
  {
  }

  /** The first byte of a header line begins a name, or ends the headers. */
  lemma FieldStarts(m: Machine, ch: char)
    requires Outside(m.state)
    ensures var m1 := FieldStartStep(m, ch).m;
            Outside(m1.state)
            || (IsToken(ch) && m1 == m.(state := HeaderField, scan := Scan(FirstLetterState(ch), 0)))
  {
    hide HeadersAlmostDoneStep;
    HeadersEndOutside(m.(state := HeadersAlmostDone), ch);
  }

  lemma ValueStartQuiet(m: Machine, ch: char, h2: bool)
    requires m.scan.state.HConnection? ==> ch != '\0' && ch != ' '
    ensures Quiet(ValueStartStep(m, ch, h2).m)
  {
  }

  lemma ValueQuiet(m: Machine, ch: char)
    requires m.errno == NoError && m.state.HeaderValue? && !m.scan.state.HConnection?
    ensures Quiet(ValueStep(m, ch).m)
  {
    hide ValueScan;
    ValueScanQuiet(m.scan, m.contentLength, ch);
  }

  lemma ValueScanQuiet(s: Scan, n: uint64, ch: char)
    requires !s.state.HConnection?
    ensures ValueScan(s, n, ch).Scanned? ==> !ValueScan(s, n, ch).scan.state.HConnection?
  {
    hide KeywordText;
  }

  lemma LwsQuiet(m: Machine, ch: char, h2: bool)
    requires m.state.ValueLws? && !m.scan.state.HConnection?
    ensures Quiet(ValueLwsStep(m, ch, h2).m)
  {
    hide FieldStartStep, ValueStartStep;
    forall m1: Machine | Outside(m1.state) ensures Quiet(FieldStartStep(m1, ch).m) { FieldStarts(m1, ch); }
    ValueStartQuiet(m.(state := ValueStart,
                       scan := if m.scan.state.HContentLengthNum? then m.scan.(state := HContentLengthWs) else m.scan),
                    ch, h2);
  }

  lemma HeaderQuiet(m: Machine, ch: char, h2: bool)
    requires m.errno == NoError && InHeader(m.state) && Quiet(m)
    requires !(m.state.ValueDiscardWs? && m.scan.state.HConnection? && ch == '\0')
    ensures Quiet(HeaderStep(m, ch, h2).m)
  {
    hide FieldStartStep, FieldScan, ValueStartStep, ValueStep, ValueLwsStep, HeadersAlmostDoneStep, HeadersDoneStep;
    if m.state.HeaderValue? { ValueQuiet(m, ch); }
    else if m.state.ValueLws? { LwsQuiet(m, ch, h2); }
    else if m.state.ValueDiscardWs? { if ch != ' ' { ValueStartQuiet(m, ch, h2); } }
    else if m.state.HeaderFieldStart? || m.state.ValueDiscardLws? { FieldStarts(m.(state := HeaderFieldStart), ch); }
    else if m.state.HeadersAlmostDone? || m.state.HeadersDone? { HeadersEndOutside(m, ch); }
  }

  lemma ChunkOutside(m: Machine, ch: char)
    requires InChunk(m.state)
    ensures Outside(ChunkStep(m, ch).m.state)
  {
    hide Unhex, ChunkSizeStep, Stopped, Count;
    if m.state.ChunkSize? { ChunkSizeOutside(m, ch); }
  }

  lemma ChunkSizeOutside(m: Machine, ch: char)
    requires m.state.ChunkSize?
    ensures Outside(ChunkSizeStep(m, ch).state)
  {
    hide Unhex;
  }

  /** Only a NUL at the beginning of a Connection value leaves a quiet machine unquiet, and a quiet machine fails no
      assert. */
  lemma StepQuiet(m: Machine, ch: char, h2: bool)
    requires !Stopped(m) && Quiet(m)
    ensures !(m.state.ValueDiscardWs? && m.scan.state.HConnection? && ch == '\0') ==> Quiet(Step(m, ch, h2).m)
    ensures !FailsAssert(m, ch)
  {
    hide RequestLineStep, HeaderStep, ChunkStep;
    var m1 := if ParsingHeader(m.state) then Count(m, 1) else m;
    if m1.errno == NoError && !(m.state.ValueDiscardWs? && m.scan.state.HConnection? && ch == '\0') {
      if InRequestLine(m.state) { LineOutside(m1, ch); }
      else if InHeader(m.state) { HeaderQuiet(m1, ch, h2); }
      else if InChunk(m.state) { ChunkOutside(m1, ch); }
    }
  }

  /** The assert that does fail: "Connection:" followed by a NUL and any other visible byte. */
  lemma NulFailsAssert(c: Conn, ch: char)
    requires !Stopped(c.m) && c.m.state.ValueDiscardWs? && c.m.scan.state.HConnection? && Room(c.m, 2)
    requires IsHeaderChar(ch) && ch != CR && ch != LF
    ensures RunTo(c, ['\0', ch], 2).m.errno == AssertFailed
  {
    hide Step;
    var data := ['\0', ch];
    assert RunTo(c, data, 0) == c;
    NulRead(c.m, Ahead(data, 0));
    var m1 := Step(c.m, '\0', Ahead(data, 0)).m;
    assert RunTo(c, data, 1).m == m1;
    ByteAfterNul(m1, ch, Ahead(data, 1));
  }

  lemma NulRead(m: Machine, h2: bool)
    requires !Stopped(m) && m.state.ValueDiscardWs? && m.scan.state.HConnection? && Room(m, 2)
    ensures Step(m, '\0', h2).m == m.(nread := m.nread + 1, state := HeaderValue, scan := Scan(HConnection, 0))
  {
    hide HeaderStep, Step;
    CountedStep(m, '\0', h2);
    NulStep(m.(nread := m.nread + 1), h2);
  }

  lemma ByteAfterNul(m: Machine, ch: char, h2: bool)
    requires !Stopped(m) && m.state.HeaderValue? && m.scan.state.HConnection? && Room(m, 1)
    requires (m.config.lenient || IsHeaderChar(ch)) && ch != CR && ch != LF
    ensures Step(m, ch, h2).m.errno == AssertFailed
  {
    hide HeaderStep, Step;
    CountedStep(m, ch, h2);
    ConnectionStep(m.(nread := m.nread + 1), ch);
  }

  lemma NulStep(m: Machine, h2: bool)
    requires m.errno == NoError && m.state.ValueDiscardWs? && m.scan.state.HConnection?
    ensures HeaderStep(m, '\0', h2).m == m.(state := HeaderValue, scan := Scan(HConnection, 0))
  {
    hide FieldStartStep, FieldStep, ValueStep, HeadersAlmostDoneStep, HeadersDoneStep;
  }

  lemma ConnectionStep(m: Machine, ch: char)
    requires m.errno == NoError && m.state.HeaderValue? && m.scan.state.HConnection?
    requires (m.config.lenient || IsHeaderChar(ch)) && ch != CR && ch != LF
    ensures forall h2 :: HeaderStep(m, ch, h2).m.errno == AssertFailed
  {
    hide FieldStartStep, FieldStep, ValueStartStep, HeadersAlmostDoneStep, HeadersDoneStep;
  }
}
