/** The request line: method, target in origin or absolute form, version. */
module HttpRequestLine {
  import opened HttpMachine
  import opened HttpRequest
  import opened HttpSplit
  import opened HttpGoes
  import opened HttpMethodWord

  /** Bytes of a path and its query. */
  predicate IsPath(s: string) {
    forall i :: 0 <= i < |s| ==> IsUrlChar(s[i]) || s[i] == '?'
  }

  /** A target in origin form (or "*"), as section 5.3 of RFC 7230 has it. */
  predicate IsOrigin(url: string) {
    |url| > 0 && (url[0] == '/' || url[0] == '*') && IsPath(url[1..])
  }

  predicate IsServerChar(ch: char) {
    IsUserinfoChar(ch) || ch == '[' || ch == ']' || ch == '@'
  }

  /** Bytes of an authority: what the table of user information has, brackets, and at signs that do not follow
      each other. */
  predicate IsAuthority(s: string) {
    && (forall i :: 0 <= i < |s| ==> IsServerChar(s[i]))
    && forall i :: 0 < i < |s| && s[i] == '@' ==> s[i - 1] != '@'
  }

  /** What may follow an authority. */
  predicate IsRestOfTarget(s: string) {
    s == "" || ((s[0] == '/' || s[0] == '?') && IsPath(s[1..]))
  }

  function Absolute(scheme: string, authority: string, rest: string): string {
    scheme + "://" + authority + rest
  }

  /** The parts of a target in absolute form.  The authority may be empty only if something follows it. */
  predicate IsAbsolute(scheme: string, authority: string, rest: string) {
    && scheme != "" && (forall i :: 0 <= i < |scheme| ==> IsAlpha(scheme[i]))
    && IsAuthority(authority) && IsRestOfTarget(rest) && (authority != "" || rest != "")
  }

  ghost predicate IsTarget(url: string) {
    IsOrigin(url)
    || exists scheme: string, authority: string, rest: string ::
         IsAbsolute(scheme, authority, rest) && url == Absolute(scheme, authority, rest)
  }

  predicate InPath(s: State) {
    s.ReqPath? || s.ReqQueryStringStart? || s.ReqQueryString?
  }

  function UrlState(url: string, i: nat): State
    requires i <= |url|
  {
    if i == 0 then ReqSpacesBeforeUrl else ParseUrlChar(UrlState(url, i - 1), url[i - 1])
  }

  lemma {:induction false} PathStates(url: string, j: nat, i: nat)
    requires 1 <= j <= i <= |url| && InPath(UrlState(url, j)) && IsPath(url[j..])
    ensures InPath(UrlState(url, i))
  {
    if j < i {
      PathStates(url, j, i - 1);
      assert url[j..][i - 1 - j] == url[i - 1];
    }
  }

  lemma {:induction false} SchemeStates(url: string, scheme: string, i: nat)
    requires 1 <= i <= |scheme| && scheme <= url && forall k :: 0 <= k < |scheme| ==> IsAlpha(scheme[k])
    ensures UrlState(url, i) == ReqSchema
  {
    assert url[i - 1] == scheme[i - 1];
    if i > 1 { SchemeStates(url, scheme, i - 1); }
    AlphaByte(url[i - 1]);
  }

  lemma AlphaByte(ch: char)
    requires IsAlpha(ch)
    ensures ParseUrlChar(ReqSpacesBeforeUrl, ch) == ReqSchema && ParseUrlChar(ReqSchema, ch) == ReqSchema
  {
  }

  lemma SlashStates(url: string, scheme: string)
    requires scheme != "" && scheme + "://" <= url && forall k :: 0 <= k < |scheme| ==> IsAlpha(scheme[k])
    ensures var n := |scheme|;
            && UrlState(url, n + 1) == ReqSchemaSlash && UrlState(url, n + 2) == ReqSchemaSlashSlash
            && UrlState(url, n + 3) == ReqServerStart
  {
    var n, front := |scheme|, scheme + "://";
    assert front[..n] == scheme && url[..|front|] == front;
    SchemeStates(url, scheme, n);
    assert url[n] == front[n] == ':' && url[n + 1] == front[n + 1] == '/' && url[n + 2] == front[n + 2] == '/';
  }

  predicate InServer(s: State) {
    s.ReqServer? || s.ReqServerWithAt?
  }

  lemma ServerByte(s: State, ch: char)
    requires s.ReqServerStart? || InServer(s)
    requires IsServerChar(ch) && (ch == '@' ==> !s.ReqServerWithAt?)
    ensures ParseUrlChar(s, ch) == if ch == '@' then ReqServerWithAt else ReqServer
  {
  }

  lemma {:induction false} ServerStates(url: string, from: nat, authority: string, i: nat)
    requires from + |authority| <= |url| && url[from..from + |authority|] == authority && IsAuthority(authority)
    requires from > 0 && UrlState(url, from) == ReqServerStart && 1 <= i <= |authority|
    ensures UrlState(url, from + i) == if authority[i - 1] == '@' then ReqServerWithAt else ReqServer
  {
    hide ParseUrlChar;
    assert url[from + i - 1] == authority[i - 1];
    if i > 1 { ServerStates(url, from, authority, i - 1); }
    ServerByte(UrlState(url, from + i - 1), authority[i - 1]);
  }

  /** Every byte of a target is read in one of the states of the url, and after the last the url may end. */
  lemma UrlInside(url: string, i: nat)
    requires IsTarget(url) && 1 <= i <= |url|
    ensures InUrl(UrlState(url, i)) && (i == |url| ==> UrlMayEnd(UrlState(url, i)))
  {
    hide UrlState, ParseUrlChar, IsAbsolute, Absolute;
    if IsOrigin(url) {
      FirstInPath(url);
      PathStates(url, 1, i);
    } else {
      var scheme: string, authority: string, rest: string :|
        IsAbsolute(scheme, authority, rest) && url == Absolute(scheme, authority, rest);
      AbsoluteInside(scheme, authority, rest, i);
    }
  }

  lemma FirstInPath(url: string)
    requires |url| > 0 && (url[0] == '/' || url[0] == '*')
    ensures InPath(UrlState(url, 1))
  {
  }

  lemma AbsoluteInside(scheme: string, authority: string, rest: string, i: nat)
    requires IsAbsolute(scheme, authority, rest) && 1 <= i <= |Absolute(scheme, authority, rest)|
    ensures var url := Absolute(scheme, authority, rest);
            InUrl(UrlState(url, i)) && (i == |url| ==> UrlMayEnd(UrlState(url, i)))
  {
    hide UrlState, ParseUrlChar, IsAuthority, IsUserinfoChar, IsAlpha;
    var url, n := Absolute(scheme, authority, rest), |scheme|;
    assert scheme <= url && scheme + "://" <= url && url[n + 3..n + 3 + |authority|] == authority;
    SlashStates(url, scheme);
    var j := n + 3 + |authority|;
    if i <= n {
      SchemeStates(url, scheme, i);
    } else if n + 3 < i <= j {
      ServerStates(url, n + 3, authority, i - (n + 3));
    } else if j < i {
      if authority != "" { ServerStates(url, n + 3, authority, |authority|); }
      assert url[j] == rest[0] && url[j + 1..] == rest[1..];
      RestStarts(url, j);
      PathStates(url, j + 1, i);
    }
  }

  lemma RestStarts(url: string, j: nat)
    requires j < |url| && (url[j] == '/' || url[j] == '?')
    requires UrlState(url, j).ReqServerStart? || InServer(UrlState(url, j))
    ensures InPath(UrlState(url, j + 1))
  {
  }

  lemma UrlByteStep(m: Machine, ch: char)
    requires !Stopped(m) && Room(m, 1) && !m.httpMethod.CONNECT?
    requires m.state.ReqSpacesBeforeUrl? || InUrl(m.state)
    requires InUrl(ParseUrlChar(m.state, ch))
    ensures !PeeksAt(m, ch)
    ensures Step(m, ch, false) == Out(m.(nread := m.nread + 1, state := ParseUrlChar(m.state, ch)), [UrlData([ch])])
  {
    hide VersionStep, StartReqStep, MethodStep;
  }

  /** The connection after `i` bytes of the target. */
  function InTarget(c: Conn, url: string, i: nat): Conn
    requires i <= |url|
  {
    Conn(c.m.(state := UrlState(url, i), nread := c.m.nread + i), c.r.(rawUrl := c.r.rawUrl + url[..i]))
  }

  lemma {:induction false} TargetPrefix(c: Conn, url: string, i: nat)
    requires Open(c) && c.m.state.ReqSpacesBeforeUrl? && !c.m.httpMethod.CONNECT? && IsTarget(url)
    requires i <= |url| && Room(c.m, i)
    ensures Goes(c, url[..i], InTarget(c, url, i))
  {
    hide Goes, PeeksAt, Step, ParseUrlChar, IsTarget;
    if i == 0 {
      assert url[..0] == "" && c.r.rawUrl + "" == c.r.rawUrl;
      GoesNowhere(c);
    } else {
      TargetPrefix(c, url, i - 1);
      var c1, ch := InTarget(c, url, i - 1), url[i - 1];
      UrlInside(url, i);
      if i > 1 { UrlInside(url, i - 1); }
      UrlByteStep(c1.m, ch);
      ApplyOne(c1.r, UrlData([ch]));
      assert url[..i] == url[..i - 1] + [ch];
      assert c.r.rawUrl + url[..i] == c.r.rawUrl + url[..i - 1] + [ch];
      GoesByteOn(c, url[..i - 1], c1, ch);
    }
  }

  lemma NotEmpty(url: string)
    requires IsTarget(url)
    ensures url != ""
  {
  }

  lemma TargetEnds(m: Machine)
    requires !Stopped(m) && Room(m, 1) && UrlMayEnd(m.state)
    ensures !PeeksAt(m, ' ')
    ensures Step(m, ' ', false) == Out(m.(nread := m.nread + 1, state := ReqHttpStart), [])
  {
    hide VersionStep, StartReqStep, MethodStep, ParseUrlChar;
  }

  /** Reading a target and the space after it. */
  lemma Target(c: Conn, url: string)
    requires Open(c) && c.m.state.ReqSpacesBeforeUrl? && !c.m.httpMethod.CONNECT? && IsTarget(url)
    requires Room(c.m, |url| + 1)
    ensures Goes(c, url + " ", Conn(c.m.(state := ReqHttpStart, nread := c.m.nread + |url| + 1),
                                    c.r.(rawUrl := c.r.rawUrl + url)))
  {
    hide Goes, PeeksAt, Step, ParseUrlChar, IsTarget;
    TargetPrefix(c, url, |url|);
    NotEmpty(url);
    UrlInside(url, |url|);
    assert url[..|url|] == url;
    var c1 := InTarget(c, url, |url|);
    TargetEnds(c1.m);
    GoesByteOn(c, url, c1, ' ');
    assert [' '] == " ";
  }

  lemma VersionByte(c: Conn, s: string, c1: Conn, ch: char)
    requires Goes(c, s, c1) && Open(c1) && Room(c1.m, 1) && InVersion(c1.m.state)
    ensures Goes(c, s + [ch], Conn(VersionStep(c1.m.(nread := c1.m.nread + 1), ch), c1.r))
  {
    hide Goes, UrlStep, VersionStep, StartReqStep, MethodStep;
    GoesByteOn(c, s, c1, ch);
  }

  /** "HTTP/" */
  lemma VersionName(c: Conn)
    requires Open(c) && Room(c.m, 5) && c.m.state.ReqHttpStart?
    ensures Goes(c, "HTTP/", Conn(c.m.(state := ReqHttpMajor, nread := c.m.nread + 5), c.r))
  {
    hide Goes;
    var m, n := c.m, c.m.nread;
    assert "" + ['H'] == "H" && "H" + ['T'] == "HT" && "HT" + ['T'] == "HTT" && "HTT" + ['P'] == "HTTP"
           && "HTTP" + ['/'] == "HTTP/";
    GoesNowhere(c);
    VersionByte(c, "", c, 'H');
    VersionByte(c, "H", Conn(m.(state := ReqHttpH, nread := n + 1), c.r), 'T');
    VersionByte(c, "HT", Conn(m.(state := ReqHttpHT, nread := n + 2), c.r), 'T');
    VersionByte(c, "HTT", Conn(m.(state := ReqHttpHTT, nread := n + 3), c.r), 'P');
    VersionByte(c, "HTTP", Conn(m.(state := ReqHttpHTTP, nread := n + 4), c.r), '/');
  }

  function Digit(d: nat): char
    requires d < 10
  {
    ('0' as int + d) as char
  }

  function VersionNumber(major: nat, minor: nat): string
    requires major < 10 && minor < 10
  {
    [Digit(major), '.', Digit(minor), CR, LF]
  }

  lemma VersionDigits(c: Conn, major: nat, minor: nat)
    requires Open(c) && Room(c.m, 5) && c.m.state.ReqHttpMajor? && major < 10 && minor < 10
    ensures Goes(c, VersionNumber(major, minor),
                 Conn(c.m.(state := HeaderFieldStart, httpMajor := major, httpMinor := minor, nread := c.m.nread + 5), c.r))
  {
    hide Goes;
    var m, n, a, b := c.m.(httpMajor := major), c.m.nread, Digit(major), Digit(minor);
    var m2 := m.(httpMinor := minor);
    assert "" + [a] == [a] && [a] + ['.'] == [a, '.'] && [a, '.'] + [b] == [a, '.', b]
           && [a, '.', b] + [CR, LF] == [a, '.', b, CR, LF];
    GoesNowhere(c);
    VersionByte(c, "", c, a);
    VersionByte(c, [a], Conn(m.(state := ReqHttpDot, nread := n + 1), c.r), '.');
    VersionByte(c, [a, '.'], Conn(m.(state := ReqHttpMinor, nread := n + 2), c.r), b);
    VersionEnd(c, [a, '.', b], Conn(m2.(state := ReqHttpEnd, nread := n + 3), c.r));
  }

  lemma VersionEnd(c: Conn, s: string, c1: Conn)
    requires Goes(c, s, c1) && Open(c1) && Room(c1.m, 2) && c1.m.state.ReqHttpEnd?
    ensures Goes(c, s + [CR, LF], Conn(c1.m.(state := HeaderFieldStart, nread := c1.m.nread + 2), c1.r))
  {
    hide Goes;
    VersionByte(c, s, c1, CR);
    VersionByte(c, s + [CR], Conn(c1.m.(state := ReqLineAlmostDone, nread := c1.m.nread + 1), c1.r), LF);
    assert s + [CR] + [LF] == s + [CR, LF];
  }

  function RequestLine(h: Method, url: string, major: nat, minor: nat): string
    requires major < 10 && minor < 10
  {
    MethodName(h) + " " + (url + " ") + "HTTP/" + VersionNumber(major, minor)
  }

  /** Line ends before a request. */
  predicate IsLeading(s: string) {
    forall k :: 0 <= k < |s| ==> s[k] == CR || s[k] == LF
  }

  lemma LeadingStep(m: Machine, ch: char)
    requires !Stopped(m) && m.state.StartReq? && (ch == CR || ch == LF) && Room(m, 1)
    ensures !PeeksAt(m, ch) && Step(m, ch, false) == Out(m.(nread := m.nread + 1), [])
  {
  }

  /** Line ends before a request are passed over; they count against the header limit. */
  lemma {:induction false} LeadingRead(c: Conn, s: string, i: nat)
    requires Open(c) && c.m.state.StartReq? && IsLeading(s) && i <= |s| && Room(c.m, i)
    ensures Goes(c, s[..i], c.(m := c.m.(nread := c.m.nread + i)))
  {
    hide Goes, Step, PeeksAt;
    if i == 0 {
      GoesNowhere(c);
      assert s[..0] == "";
    } else {
      LeadingRead(c, s, i - 1);
      var c1 := c.(m := c.m.(nread := c.m.nread + i - 1));
      LeadingStep(c1.m, s[i - 1]);
      GoesByteOn(c, s[..i - 1], c1, s[i - 1]);
      assert s[..i] == s[..i - 1] + [s[i - 1]];
    }
  }

  /** Reading a whole request line. */
  lemma RequestLineRead(c: Conn, h: Method, url: string, major: nat, minor: nat)
    requires Open(c) && c.m.state.StartReq? && !h.CONNECT? && IsTarget(url) && major < 10 && minor < 10
    requires Room(c.m, |RequestLine(h, url, major, minor)|)
    ensures var n := |RequestLine(h, url, major, minor)|;
            Goes(c, RequestLine(h, url, major, minor),
                 Conn(c.m.(flags := NO_FLAGS, usesTransferEncoding := false, contentLength := ULLONG_MAX,
                           httpMethod := h, scan := Scan(c.m.scan.state, |MethodName(h)| + 1),
                           httpMajor := major, httpMinor := minor, state := HeaderFieldStart, nread := c.m.nread + n),
                      c.r.(httpMethod := h, rawUrl := c.r.rawUrl + url)))
  {
    hide Goes, MethodName;
    var a, b := MethodName(h) + " ", url + " ";
    var m1 := c.m.(flags := NO_FLAGS, usesTransferEncoding := false, contentLength := ULLONG_MAX,
                   httpMethod := h, scan := Scan(c.m.scan.state, |MethodName(h)| + 1),
                   state := ReqSpacesBeforeUrl, nread := c.m.nread + |a|);
    var c1 := Conn(m1, c.r.(httpMethod := h));
    MethodWord(c, h);
    Target(c1, url);
    var c2 := Conn(m1.(state := ReqHttpStart, nread := m1.nread + |b|), c1.r.(rawUrl := c.r.rawUrl + url));
    GoesOn(c, a, c1, b, c2);
    VersionName(c2);
    var c3 := Conn(c2.m.(state := ReqHttpMajor, nread := c2.m.nread + 5), c2.r);
    GoesOn(c, a + b, c2, "HTTP/", c3);
    VersionDigits(c3, major, minor);
    var c4 := Conn(c3.m.(state := HeaderFieldStart, httpMajor := major, httpMinor := minor, nread := c3.m.nread + 5), c3.r);
    GoesOn(c, a + b + "HTTP/", c3, VersionNumber(major, minor), c4);
  }
}
