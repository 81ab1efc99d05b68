/** The one look-ahead, seen from the text: only an Upgrade header whose value begins with "h2" is affected by where
    a request is cut. */
module HttpUpgrade {
  import opened Wrappers
  import opened HttpMachine
  import opened HttpRequest
  import opened HttpSplit
  import opened HttpGoes
  import opened HttpRequestLine
  import opened HttpNames
  import opened HttpHeaderLines

  const UPGRADE: string := KeywordText(HMatchingUpgrade)

  /** The text has "upgrade", in any case, at `k`. */
  predicate UpgradeAt(data: string, k: nat) {
    k + |UPGRADE| <= |data| && LowerName(data[k..k + |UPGRADE|]) == UPGRADE
  }

  /** In a field name that is compared with "upgrade", as much of it has been read. */
  predicate Comparing(m: Machine, data: string, p: nat)
    requires p <= |data|
  {
    m.state.HeaderField? && m.scan.state.HMatchingUpgrade? ==>
      var n := m.scan.index + 1;
      n <= p && n <= |UPGRADE| && LowerName(data[p - n..p]) == UPGRADE[..n]
  }

  /** A step sets HUpgrade only with the last letter of "upgrade", and goes on comparing only with its letters. */
  predicate UpgradeStep(m: Machine, ch: char, m1: Machine) {
    && (m1.scan.state.HUpgrade? ==>
          m.scan.state.HUpgrade?
          || (m.state.HeaderField? && m.scan.state.HMatchingUpgrade? && m.scan.index + 2 == |UPGRADE|
              && TokenLower(ch) == UPGRADE[m.scan.index + 1]))
    && (m1.state.HeaderField? && m1.scan.state.HMatchingUpgrade? ==>
          if m.state.HeaderField? then
            m.scan.state.HMatchingUpgrade? && m1.scan.index == m.scan.index + 1
            && m1.scan.index < |UPGRADE| && TokenLower(ch) == UPGRADE[m1.scan.index]
          else m1.scan.index == 0 && TokenLower(ch) == UPGRADE[0])
  }

  /** No header name is being read, and the scanner knows as much as before. */
  predicate NoName(m: Machine, m1: Machine) {
    !m1.state.HeaderField? && (m1.scan.state.HUpgrade? ==> m.scan.state.HUpgrade?)
  }

  lemma LineUpgrade(m: Machine, ch: char)
    requires InRequestLine(m.state)
    ensures NoName(m, RequestLineStep(m, ch).m)
  {
    hide ParseUrlChar, VersionStep, MethodStep;
    if InVersion(m.state) { VersionUpgrade(m, ch); }
    else if m.state.ReqMethod? { MethodUpgrade(m, ch); }
    UrlOrDead(m.state, ch);
    UrlOrDead(ReqServerStart, ch);
  }

  lemma VersionUpgrade(m: Machine, ch: char)
    requires InVersion(m.state)
    ensures NoName(m, VersionStep(m, ch))
  {
  }

  lemma MethodUpgrade(m: Machine, ch: char)
    requires m.state.ReqMethod?
    ensures NoName(m, MethodStep(m, ch).m)
  {
  }

  lemma HeadersEndUpgrade(m: Machine, ch: char)
    requires !m.state.HeaderField?
    ensures NoName(m, HeadersDoneStep(m, ch).m) && NoName(m, HeadersAlmostDoneStep(m, ch).m)
  {
  }

  lemma FieldStartUpgrade(m: Machine, ch: char)
    requires !m.state.HeaderField?
    ensures UpgradeStep(m, ch, FieldStartStep(m, ch).m)
  {
    hide HeadersAlmostDoneStep;
    HeadersEndUpgrade(m.(state := HeadersAlmostDone), ch);
  }

  lemma FieldScanUpgrade(s: Scan, ch: char)
    requires FieldScan(s, ch).Some?
    ensures var t := FieldScan(s, ch).value;
            && (t.state.HUpgrade? ==> s.state.HMatchingUpgrade? && s.index + 2 == |UPGRADE| && TokenLower(ch) == UPGRADE[s.index + 1])
            && (t.state.HMatchingUpgrade? ==> s.state.HMatchingUpgrade? && t.index == s.index + 1 < |UPGRADE|
                                              && TokenLower(ch) == UPGRADE[t.index])
  {
  }

  lemma FieldUpgrade(m: Machine, ch: char)
    requires m.state.HeaderField?
    ensures FieldStep(m, ch).m.errno == NoError ==> UpgradeStep(m, ch, FieldStep(m, ch).m)
  {
    hide FieldScan;
    if FieldScan(m.scan, ch).Some? { FieldScanUpgrade(m.scan, ch); }
  }

  lemma StartUpgrade(m: Machine, ch: char, h2: bool)
    ensures NoName(m, ValueStartStep(m, ch, h2).m)
  {
    hide KeywordText, ValueScan, Lower, IsNum;
  }

  lemma ValueUpgrade(m: Machine, ch: char)
    requires m.state.HeaderValue?
    ensures NoName(m, ValueStep(m, ch).m)
  {
    hide ValueScan;
    ScanUpgrade(m.scan, m.contentLength, ch);
  }

  lemma ScanUpgrade(s: Scan, length: uint64, ch: char)
    ensures ValueScan(s, length, ch).Scanned? && ValueScan(s, length, ch).scan.state.HUpgrade? ==> s.state.HUpgrade?
  {
    hide KeywordText;
  }

  lemma HeaderUpgrade(m: Machine, ch: char, h2: bool)
    requires InHeader(m.state)
    ensures HeaderStep(m, ch, h2).m.errno == NoError ==> UpgradeStep(m, ch, HeaderStep(m, ch, h2).m)
  {
    hide FieldStartStep, FieldStep, ValueStartStep, ValueStep, ValueLwsStep, HeadersAlmostDoneStep, HeadersDoneStep;
    if m.state.HeaderField? { FieldUpgrade(m, ch); }
    else if m.state.HeaderValue? { ValueUpgrade(m, ch); }
    else if m.state.ValueLws? { LwsUpgrade(m, ch, h2); }
    else if m.state.HeaderFieldStart? || m.state.ValueDiscardLws? { FieldStartUpgrade(m.(state := HeaderFieldStart), ch); }
    else if m.state.HeadersAlmostDone? || m.state.HeadersDone? { HeadersEndUpgrade(m, ch); }
    else { StartUpgrade(m, ch, h2); }
  }

  lemma LwsUpgrade(m: Machine, ch: char, h2: bool)
    requires m.state.ValueLws?
    ensures UpgradeStep(m, ch, ValueLwsStep(m, ch, h2).m)
  {
    hide FieldStartStep, ValueStartStep;
    if ch == ' ' || ch == '\t' {
      StartUpgrade(m.(state := ValueStart,
                      scan := if m.scan.state.HContentLengthNum? then m.scan.(state := HContentLengthWs) else m.scan),
                   ch, h2);
    } else {
      var f := match m.scan.state
               case HKeepAlive => m.flags.(keepAlive := true)
               case HClose => m.flags.(close := true)
               case HTeChunked => m.flags.(chunked := true)
               case _ => m.flags;
      FieldStartUpgrade(m.(flags := f, state := HeaderFieldStart), ch);
    }
  }

  lemma ChunkUpgrade(m: Machine, ch: char)
    requires InChunk(m.state)
    ensures NoName(m, ChunkStep(m, ch).m)
  {
    hide Unhex, ChunkSizeStep;
    if m.state.ChunkSize? { ChunkSizeUpgrade(m, ch); }
  }

  lemma ChunkSizeUpgrade(m: Machine, ch: char)
    requires m.state.ChunkSize?
    ensures NoName(m, ChunkSizeStep(m, ch))
  {
    hide Unhex;
  }

  lemma StepUpgrade(m: Machine, ch: char, h2: bool)
    requires !Stopped(m)
    ensures Step(m, ch, h2).m.errno == NoError ==> UpgradeStep(m, ch, Step(m, ch, h2).m)
  {
    hide RequestLineStep, HeaderStep, ChunkStep;
    var m1 := if ParsingHeader(m.state) then Count(m, 1) else m;
    if m1.errno == NoError {
      if InRequestLine(m.state) { LineUpgrade(m1, ch); }
      else if InHeader(m.state) { HeaderUpgrade(m1, ch, h2); }
      else if InChunk(m.state) { ChunkUpgrade(m1, ch); }
    }
  }

  lemma LowerMore(s: string, ch: char)
    ensures LowerName(s + [ch]) == LowerName(s) + [TokenLower(ch)]
  {
  }

  lemma LettersRead(data: string, p: nat, n: nat)
    requires n < p <= |data| && n < |UPGRADE|
    requires LowerName(data[p - 1 - n..p - 1]) == UPGRADE[..n] && TokenLower(data[p - 1]) == UPGRADE[n]
    ensures LowerName(data[p - 1 - n..p]) == UPGRADE[..n + 1]
  {
    hide LowerName, KeywordText;
    LowerMore(data[p - 1 - n..p - 1], data[p - 1]);
    assert data[p - 1 - n..p] == data[p - 1 - n..p - 1] + [data[p - 1]];
    assert UPGRADE[..n + 1] == UPGRADE[..n] + [UPGRADE[n]];
  }

  /** One byte more of a text without "upgrade". */
  lemma ComparesOn(m: Machine, m1: Machine, data: string, p: nat)
    requires 0 < p <= |data| && UpgradeStep(m, data[p - 1], m1) && Comparing(m, data, p - 1) && !m.scan.state.HUpgrade?
    requires forall k: nat :: k < |data| ==> !UpgradeAt(data, k)
    ensures !m1.scan.state.HUpgrade? && Comparing(m1, data, p)
  {
    hide UpgradeAt, LowerName, KeywordText;
    var ch := data[p - 1];
    if m.state.HeaderField? && m.scan.state.HMatchingUpgrade? {
      var n := m.scan.index + 1;
      if n < |UPGRADE| && TokenLower(ch) == UPGRADE[n] {
        LettersRead(data, p, n);
        if n + 1 == |UPGRADE| { Found(data, p - 1 - n); }
      }
    } else if m1.state.HeaderField? && m1.scan.state.HMatchingUpgrade? {
      assert data[p - 1..p - 1] == "" && UPGRADE[..0] == "";
      NoLetters();
      LettersRead(data, p, 0);
    }
  }

  /** As long as the text has no "upgrade" in it, no header is taken for an Upgrade header. */
  lemma {:induction false} RunUpgrade(c: Conn, data: string, p: nat)
    requires p <= |data| && !c.m.scan.state.HUpgrade? && !c.m.state.HeaderField?
    requires forall k: nat :: k < |data| ==> !UpgradeAt(data, k)
    ensures var m := RunTo(c, data, p).m;
            && (m.errno == NoError ==> !m.scan.state.HUpgrade?)
            && (!Stopped(m) ==> Comparing(m, data, p))
  {
    hide Step, ApplyAll, UpgradeAt, UpgradeStep, LowerName;
    if p > 0 {
      RunUpgrade(c, data, p - 1);
      var m := RunTo(c, data, p - 1).m;
      if Stopped(m) {
        StoppedStays(c, data, p - 1, p);
      } else {
        StepUpgrade(m, data[p - 1], Ahead(data, p - 1));
        if RunTo(c, data, p).m.errno == NoError { ComparesOn(m, RunTo(c, data, p).m, data, p); }
      }
    }
  }

  lemma NoLetters()
    ensures LowerName("") == "" && |UPGRADE| > 0
  {
  }

  lemma Found(data: string, k: nat)
    requires k + |UPGRADE| <= |data| && LowerName(data[k..k + |UPGRADE|]) == UPGRADE[..|UPGRADE|]
    ensures UpgradeAt(data, k) && k < |data|
  {
    assert UPGRADE[..|UPGRADE|] == UPGRADE;
  }

  /** A text without "upgrade" may be cut anywhere. */
  lemma NoUpgradeNoPeek(config: Config, data: string)
    requires forall k: nat :: k < |data| ==> !UpgradeAt(data, k)
    ensures NoPeek(Conn(Init(config), EMPTY_REQUEST), data)
  {
    hide RunTo, UpgradeAt;
    var c := Conn(Init(config), EMPTY_REQUEST);
    forall k | 0 <= k < |data| ensures !PeeksAt(RunTo(c, data, k).m, data[k]) {
      RunUpgrade(c, data, k);
    }
  }

  /** The other way round: after any text up to the beginning of a header line, an Upgrade header whose value
      begins with "h2" is ignored when these bytes come together, and obeyed when they are cut apart. */
  lemma UpgradeHeader(config: Config, before: string, c: Conn, name: string)
    requires Goes(Conn(Init(config), EMPTY_REQUEST), before, c)
    requires Open(c) && AtLine(c.m) && !Finished(c.m).upgrade && IsName(name) && LowerName(name) == "upgrade"
    requires Room(c.m, |name| + 4)
    ensures var start, a := Conn(Init(config), EMPTY_REQUEST), before + (name + ": ") + "h";
            && CutSeen(start, a, "2")
            && !RunTo(start, a + "2", |a| + 1).m.flags.upgrade
            && RunTo(RunTo(start, a, |a|), "2", 1).m.flags.upgrade
  {
    hide Goes, RunTo, LowerName, IsName, NameScan, SawTransferEncoding, OnHeaderField, PeeksAt;
    var start, h := Conn(Init(config), EMPTY_REQUEST), Header(name, "");
    FramingNames(name);
    NameRead(c, h);
    var c1 := Conn(AtValue(c.m, h), OnHeaderField(Caught(c), name));
    GoesOn(start, before, c, name + ": ", c1);
    var s := before + (name + ": ");
    GoesRuns(start, s, c1);
    UpgradePeeks(c.m, h);
    UpgradeCut(c1);
    NoPeekNoCut(start, s, "h2");
    NoPeekNoCut(start, s, "h");
    RunSuffix(start, s, "h2", 2);
    RunSuffix(start, s, "h", 1);
    assert s + "h" + "2" == s + "h2";
    RunPrefix(start, s, "h", |s|);
    assert (s + "h")[|s|] == 'h';
  }

  lemma UpgradePeeks(m: Machine, h: Header)
    requires !Stopped(m) && IsHeader(h) && NameScan(h.name).Some? && NameScan(h.name).value.state.HUpgrade?
    requires Room(m, |h.name| + 4) && !Finished(m).upgrade
    ensures PeeksAt(AtValue(m, h), 'h') && AtValue(m, h).nread + 2 <= m.config.maxHeaderSize
  {
    hide NameScan, SawTransferEncoding;
  }

  /** From the first byte on: a request line and an Upgrade header. */
  lemma UpgradeFromStart(config: Config, h: Method, url: string)
    requires !h.CONNECT? && IsTarget(url) && |RequestLine(h, url, 1, 1)| + 11 <= config.maxHeaderSize
    ensures var start, a := Conn(Init(config), EMPTY_REQUEST), RequestLine(h, url, 1, 1) + "Upgrade: " + "h";
            && !RunTo(start, a + "2", |a| + 1).m.flags.upgrade
            && RunTo(RunTo(start, a, |a|), "2", 1).m.flags.upgrade
  {
    hide Goes, RunTo, IsTarget, MethodName, RequestLine;
    var start, line := Conn(Init(config), EMPTY_REQUEST), RequestLine(h, url, 1, 1);
    RequestLineRead(start, h, url, 1, 1);
    var c := Conn(start.m.(contentLength := ULLONG_MAX, httpMethod := h, scan := Scan(HGeneral, |MethodName(h)| + 1),
                           httpMajor := 1, httpMinor := 1, state := HeaderFieldStart, nread := |line|),
                  EMPTY_REQUEST.(httpMethod := h, rawUrl := EMPTY_REQUEST.rawUrl + url));
    assert start.m.(flags := NO_FLAGS, usesTransferEncoding := false) == start.m;
    assert LowerName("Upgrade") == "upgrade";
    assert "Upgrade" + ": " == "Upgrade: ";
    UpgradeHeader(config, line, c, "Upgrade");
  }
}
