/** Requests that fail: what has been delivered does depend on the slices. */
module HttpCuts {
  import opened HttpMachine
  import opened HttpRequest
  import opened HttpPieces
  import opened HttpSplit
  import opened HttpGoes
  import opened HttpMethodWord
  import opened HttpRequestLine

  function Begin(config: Config): Conn {
    Conn(Init(config), EMPTY_REQUEST)
  }

  function Opening(h: Method): string {
    MethodName(h) + " "
  }

  /** A request that fails in its target, at a control character. */
  function Broken(h: Method, url: string, bad: char): string {
    Opening(h) + (url + [bad])
  }

  predicate IsControl(ch: char) {
    ch < ' ' && ch != CR && ch != LF
  }

  /** The connection before the target. */
  function AtTarget(config: Config, h: Method): Conn {
    var n := |Opening(h)|;
    Conn(Init(config).(contentLength := ULLONG_MAX, httpMethod := h, scan := Scan(HGeneral, n),
                       state := ReqSpacesBeforeUrl, nread := n),
         EMPTY_REQUEST.(httpMethod := h))
  }

  lemma BeforeTarget(config: Config, h: Method)
    requires |Opening(h)| <= config.maxHeaderSize
    ensures Goes(Begin(config), Opening(h), AtTarget(config, h))
  {
    hide Goes, MethodName;
    MethodWord(Begin(config), h);
    assert Init(config).(flags := NO_FLAGS, usesTransferEncoding := false) == Init(config);
  }

  /** Where the run is after `j` bytes of the target. */
  lemma InsideTarget(config: Config, h: Method, url: string, bad: char, j: nat)
    requires !h.CONNECT? && IsTarget(url) && j <= |url| && |Broken(h, url, bad)| <= config.maxHeaderSize
    ensures RunTo(Begin(config), Broken(h, url, bad), |Opening(h)| + j) == InTarget(AtTarget(config, h), url, j)
  {
    hide Goes, RunTo, IsTarget, Opening, PeeksAt;
    var a, start, c := Opening(h), Begin(config), AtTarget(config, h);
    BeforeTarget(config, h);
    TargetPrefix(c, url, j);
    GoesOn(start, a, c, url[..j], InTarget(c, url, j));
    var rest := url[j..] + [bad];
    assert Broken(h, url, bad) == (a + url[..j]) + rest;
    GoesRuns(start, a + url[..j], InTarget(c, url, j));
    NoPeekNoCut(start, a + url[..j], rest);
    RunPrefix(start, a + url[..j], rest, |a + url[..j]|);
  }

  lemma UrlData1(config: Config, h: Method, url: string, bad: char, j: nat)
    requires !h.CONNECT? && IsTarget(url) && j < |url| && |Broken(h, url, bad)| <= config.maxHeaderSize
    ensures StepAt(Begin(config), Broken(h, url, bad), |Opening(h)| + j).events == [UrlData([url[j]])]
  {
    hide RunTo, IsTarget, Opening, PeeksAt, Step, ParseUrlChar;
    var c1, p := InTarget(AtTarget(config, h), url, j), |Opening(h)| + j;
    InsideTarget(config, h, url, bad, j);
    UrlInside(url, j + 1);
    if j > 0 { UrlInside(url, j); }
    assert Broken(h, url, bad)[p] == url[j];
    UrlByteStep(c1.m, url[j]);
    StepPeeks(c1.m, url[j]);
  }

  lemma {:induction false} UrlPiece(config: Config, h: Method, url: string, bad: char, i: nat, j: nat)
    requires !h.CONNECT? && IsTarget(url) && i <= j <= |url| && |Broken(h, url, bad)| <= config.maxHeaderSize
    ensures var n := |Opening(h)|; PieceFrom(Begin(config), Broken(h, url, bad), n + i, n + j) == n + i
    decreases j
  {
    hide RunTo, IsTarget, Opening, StepAt;
    if i < j {
      UrlData1(config, h, url, bad, j - 1);
      UrlPiece(config, h, url, bad, i, j - 1);
    }
  }

  lemma ControlFails(m: Machine, ch: char, h2: bool)
    requires !Stopped(m) && Room(m, 1) && InUrl(m.state) && IsControl(ch)
    ensures Step(m, ch, h2).m.errno == InvalidUrl && Step(m, ch, h2).events == []
  {
    hide VersionStep, StartReqStep, MethodStep;
  }

  lemma TargetFails(config: Config, h: Method, url: string, bad: char)
    requires !h.CONNECT? && IsTarget(url) && IsControl(bad)
    requires |Broken(h, url, bad)| <= config.maxHeaderSize
    ensures var start, data, k := Begin(config), Broken(h, url, bad), |Opening(h)| + |url|;
            && |data| == k + 1 && FailsAt(start, data, k) && StepAt(start, data, k).events == []
            && RunTo(start, data, k + 1).m.errno == InvalidUrl
  {
    hide RunTo, IsTarget, Opening, Step, ParseUrlChar, ApplyAll;
    var start, data, k := Begin(config), Broken(h, url, bad), |Opening(h)| + |url|;
    InsideTarget(config, h, url, bad, |url|);
    NotEmpty(url);
    UrlInside(url, |url|);
    assert data[k] == bad && |data| == k + 1;
    ControlFails(InTarget(AtTarget(config, h), url, |url|).m, bad, Ahead(data, k));
    StepApplied(start, data, k);
  }

  /** The same request, cut before byte `i` of its target: it fails whole or cut, but the request has just the
      part of the target before the cut.  So two ways to slice it that cut the target differently differ. */
  lemma CutInTarget(config: Config, h: Method, url: string, bad: char, i: nat)
    requires !h.CONNECT? && IsTarget(url) && i <= |url| && IsControl(bad)
    requires |Broken(h, url, bad)| <= config.maxHeaderSize
    ensures var start, data, n := Begin(config), Broken(h, url, bad), |Opening(h)|;
            && |data| == n + |url| + 1 && FailsAt(start, data, n + |url|)
            && RunTo(start, data, |data|).m.errno == InvalidUrl
            && FinalAt(start, data, n + i, n + |url|).rawUrl == url[..i]
  {
    hide RunTo, IsTarget, Opening, StepAt, ParseUrlChar, PieceFrom, UrlState, FailsAt;
    var start, data, n := Begin(config), Broken(h, url, bad), |Opening(h)|;
    TargetFails(config, h, url, bad);
    InsideTarget(config, h, url, bad, i);
    UrlPiece(config, h, url, bad, i, |url|);
    assert EMPTY_REQUEST.rawUrl + url[..i] == url[..i];
    Nothing(RequestAt(start, data, n + i, n + |url|));
    if i < |url| {
      UrlData1(config, h, url, bad, i);
      assert Front([UrlData([url[i]])]) == [];
      Nothing(RunTo(start, data, n + i).r);
    }
  }
}
