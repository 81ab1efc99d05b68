/** Feeding a request in slices: where the cuts are matters only at the one look-ahead. */
module HttpSplit {
  import opened HttpMachine
  import opened HttpRequest
  import opened HttpPieces
  import opened HttpParser

  /** The one byte at which `http_parser_execute` looks past the byte it is given: an 'h' that begins the
      value of an Upgrade header. */
  predicate PeeksAt(m: Machine, ch: char) {
    && !Stopped(m) && m.nread + 1 <= m.config.maxHeaderSize
    && (m.state.ValueDiscardWs? || m.state.ValueStart?) && m.scan.state.HUpgrade?
    && ch == 'h' && !m.flags.upgrade
  }

  lemma ValueStartPeeks(m: Machine, ch: char)
    ensures ValueStartStep(m, ch, true) != ValueStartStep(m, ch, false)
            <==> m.scan.state.HUpgrade? && ch == 'h' && !m.flags.upgrade
  {
  }

  lemma HeaderPeeks(m: Machine, ch: char)
    requires InHeader(m.state)
    ensures HeaderStep(m, ch, true) != HeaderStep(m, ch, false)
            <==> (m.state.ValueDiscardWs? || m.state.ValueStart?) && m.scan.state.HUpgrade? && ch == 'h' && !m.flags.upgrade
  {
    hide FieldStartStep, FieldStep, ValueStartStep, ValueStep, HeadersAlmostDoneStep, HeadersDoneStep;
    ValueStartPeeks(m, ch);
    if m.state.ValueLws? && (ch == ' ' || ch == '\t') {
      ValueStartPeeks(m.(state := ValueStart,
                         scan := if m.scan.state.HContentLengthNum? then m.scan.(state := HContentLengthWs) else m.scan), ch);
    }
  }

  /** The look-ahead changes a step at exactly these bytes. */
  lemma StepPeeks(m: Machine, ch: char)
    ensures Step(m, ch, true) != Step(m, ch, false) <==> PeeksAt(m, ch)
  {
    hide RequestLineStep, HeaderStep, ChunkStep, BodyStep;
    var m1 := if ParsingHeader(m.state) then Count(m, 1) else m;
    if InHeader(m1.state) { HeaderPeeks(m1, ch); }
  }

  /** A cut between `a` and `b` that the machine notices: right behind such an 'h', with a '2' to follow. */
  predicate CutSeen(c: Conn, a: string, b: string) {
    && a != "" && b != "" && b[0] == '2'
    && PeeksAt(RunTo(c, a, |a| - 1).m, a[|a| - 1])
  }

  /** What follows a buffer does not change the run over it. */
  lemma {:induction false} RunPrefix(c: Conn, a: string, b: string, k: nat)
    requires k < |a| || (k == |a| && !CutSeen(c, a, b))
    ensures RunTo(c, a + b, k) == RunTo(c, a, k)
  {
    hide Step, ApplyAll;
    if k > 0 {
      RunPrefix(c, a, b, k - 1);
      assert (a + b)[k - 1] == a[k - 1];
      if k == |a| {
        StepPeeks(RunTo(c, a, k - 1).m, a[k - 1]);
        assert !Ahead(a, k - 1) && (Ahead(a + b, k - 1) <==> b != "" && b[0] == '2');
      } else {
        assert Ahead(a + b, k - 1) == Ahead(a, k - 1);
      }
    }
  }

  /** Running over a concatenation is running over its parts in turn. */
  lemma {:induction false} RunSuffix(c: Conn, a: string, b: string, k: nat)
    requires k <= |b| && !CutSeen(c, a, b)
    ensures RunTo(c, a + b, |a| + k) == RunTo(RunTo(c, a, |a|), b, k)
  {
    hide Step, ApplyAll;
    if k == 0 {
      RunPrefix(c, a, b, |a|);
    } else {
      RunSuffix(c, a, b, k - 1);
      assert (a + b)[|a| + (k - 1)] == b[k - 1];
    }
  }

  /** A cut that is not noticed leaves the run as it is, and one that is noticed does not. */
  lemma CutMatters(c: Conn, a: string, b: string)
    ensures RunTo(c, a + b, |a|) == RunTo(c, a, |a|) <==> !CutSeen(c, a, b)
  {
    hide Step, ApplyAll;
    if CutSeen(c, a, b) {
      var k := |a| - 1;
      RunPrefix(c, a, b, k);
      UpgradeByte(RunTo(c, a, k).m, true);
      UpgradeByte(RunTo(c, a, k).m, false);
      assert (a + b)[k] == a[k] && Ahead(a + b, k) && !Ahead(a, k);
    } else {
      RunPrefix(c, a, b, |a|);
    }
  }

  /** No byte of `data` is one at which the machine looks ahead. */
  predicate NoPeek(c: Conn, data: string) {
    forall k :: 0 <= k < |data| ==> !PeeksAt(RunTo(c, data, k).m, data[k])
  }

  lemma NoPeekNoCut(c: Conn, a: string, b: string)
    requires NoPeek(c, a) || NoPeek(c, a + b)
    ensures !CutSeen(c, a, b)
  {
    hide RunTo, PeeksAt;
    if a != "" {
      RunPrefix(c, a, b, |a| - 1);
      assert (a + b)[|a| - 1] == a[|a| - 1];
    }
  }

  // ---------------------------------------------------------------------------------------------
  // A slice of a buffer

  /** What happens at a byte is the same in the slice `s` alone and in the whole of which it is a part. */
  lemma SameStep(c: Conn, a: string, s: string, rest: string, j: nat)
    requires j <= |s| && !CutSeen(c, a, s + rest) && !CutSeen(c, a + s, rest)
    ensures RunTo(c, a + (s + rest), |a| + j) == RunTo(RunTo(c, a, |a|), s, j)
    ensures j < |s| ==> StepAt(c, a + (s + rest), |a| + j) == StepAt(RunTo(c, a, |a|), s, j)
  {
    hide RunTo, Step, PeeksAt;
    var whole, c1 := a + (s + rest), RunTo(c, a, |a|);
    assert whole == a + s + rest;
    RunPrefix(c, a + s, rest, |a| + j);
    assert !CutSeen(c, a, s) by { if s != "" { assert (s + rest)[0] == s[0]; } }
    RunSuffix(c, a, s, j);
    if j < |s| {
      assert whole[|a| + j] == s[j] == (a + s)[|a| + j];
      StepPeeks(RunTo(c1, s, j).m, s[j]);
      if j + 1 < |s| {
        assert whole[|a| + j + 1] == s[j + 1];
      } else {
        assert Ahead(whole, |a| + j) <==> rest != "" && rest[0] == '2';
      }
    }
  }

  lemma {:induction false} SamePiece(c: Conn, a: string, s: string, rest: string, j: nat)
    requires j <= |s| && !CutSeen(c, a, s + rest) && !CutSeen(c, a + s, rest)
    ensures PieceFrom(c, a + (s + rest), |a|, |a| + j) == |a| + PieceFrom(RunTo(c, a, |a|), s, 0, j)
  {
    hide RunTo, StepAt, CutSeen, IsData;
    if j > 0 {
      SameStep(c, a, s, rest, j - 1);
      SamePiece(c, a, s, rest, j - 1);
    }
  }

  /** What is delivered when a slice fails, in terms of the whole. */
  lemma SliceFails(c: Conn, a: string, s: string, rest: string, j: nat)
    requires j < |s| && !CutSeen(c, a, s + rest) && !CutSeen(c, a + s, rest)
    ensures FinalAt(c, a + (s + rest), |a|, |a| + j) == FinalAt(RunTo(c, a, |a|), s, 0, j)
    ensures FailsAt(c, a + (s + rest), |a| + j) <==> FailsAt(RunTo(c, a, |a|), s, j)
  {
    hide RunTo, StepAt, CutSeen, IsData, PieceFrom;
    SameStep(c, a, s, rest, j);
    SameStep(c, a, s, rest, j + 1);
    SamePiece(c, a, s, rest, j);
    SameStep(c, a, s, rest, PieceFrom(RunTo(c, a, |a|), s, 0, j));
  }

  function Join(slices: seq<string>): string {
    if slices == [] then "" else Join(slices[..|slices| - 1]) + slices[|slices| - 1]
  }

  lemma {:induction false} JoinPrefix(slices: seq<string>, i: nat)
    requires i <= |slices|
    ensures Join(slices[..i]) <= Join(slices)
  {
    if i == |slices| {
      assert slices[..i] == slices;
    } else {
      JoinPrefix(slices[..|slices| - 1], i);
      assert slices[..|slices| - 1][..i] == slices[..i];
    }
  }

  /** `data` has no cut after which the request would be complete already. */
  predicate CompletesAtMostAtEnd(c: Conn, data: string) {
    forall k :: 0 <= k < |data| ==> RunTo(c, data, k).r.completions == 0 && !RunTo(c, data, k).m.halted
  }

  /** A call has failed at some byte from `lo` on, having delivered `r`. */
  ghost predicate FailedIn(c: Conn, data: string, lo: nat, hi: nat, r: Request)
    requires hi <= |data|
  {
    exists k :: lo <= k < hi && FailsAt(c, data, k) && r == FinalAt(c, data, lo, k)
  }

  /** `HTTPParser::feed`. */
  method Feed(p: HttpParser, buffer: string) returns (ok: bool)
    requires p.m.errno == NoError ==> Settled(p.m, p.r)
    modifies p
    ensures old(p.r).completions > 0 ==> ok && p.m == old(p.m) && p.r == old(p.r)
    ensures old(p.r).completions == 0 && old(p.m).errno == NoError && buffer != "" ==>
              var c0 := Conn(old(p.m).(halted := false), old(p.r));
              var c := RunTo(c0, buffer, |buffer|);
              && (p.m.errno == NoError ==> c == Conn(p.m, p.r))
              && (p.m.errno != NoError ==>
                    && !ok && (c.m.errno == p.m.errno || c.m.errno == HeaderOverflow)
                    && (c.m.errno != HeaderOverflow ==> FailedIn(c0, buffer, 0, |buffer|, p.r)))
              && (p.m.errno == NoError && !p.m.halted ==> ok && Settled(p.m, p.r))
  {
    hide RunTo, Settled, FailsAt, FinalAt;
    if p.r.completions > 0 { return true; }
    var n := p.Execute(buffer);
    ok := p.m.errno == NoError && n == |buffer|;
  }

  /** No slice ends where the machine notices it. */
  predicate CutsUnseen(c: Conn, slices: seq<string>) {
    forall i :: 0 < i < |slices| ==> !CutSeen(c, Join(slices[..i]), slices[i])
  }

  /** Slice number `i` fails: everything before the piece in which the error is has been delivered, as far as that
      piece is in this slice. */
  ghost predicate FailedSlice(c: Conn, slices: seq<string>, i: nat, r: Request)
    requires i < |slices| && |Join(slices[..i + 1])| <= |Join(slices)|
  {
    FailedIn(c, Join(slices), |Join(slices[..i])|, |Join(slices[..i + 1])|, r)
  }

  /** Split invariance.  Fed slice by slice, the parser ends where one pass of the machine over the whole
      request ends: it reports an error exactly when that pass does, with the same errno unless the header
      limit is met, and otherwise method, URL, version, headers, body and completion are all those of the
      pass, whichever slices the request came in.  When it fails, what it has delivered depends on the slices by
      nothing but where the failing slice begins. */
  method FeedSlices(p: HttpParser, slices: seq<string>) returns (ghost failed: nat)
    requires !Stopped(p.m) && Settled(p.m, p.r) && p.r.completions == 0
    requires forall i :: 0 <= i < |slices| ==> slices[i] != ""
    requires CutsUnseen(Conn(p.m, p.r), slices) && CompletesAtMostAtEnd(Conn(p.m, p.r), Join(slices))
    modifies p
    ensures var c := RunTo(Conn(old(p.m), old(p.r)), Join(slices), |Join(slices)|);
            if p.m.errno == NoError then Conn(p.m, p.r) == c
            else
              && (c.m.errno == p.m.errno || c.m.errno == HeaderOverflow)
              && (c.m.errno != HeaderOverflow ==>
                    && failed < |slices| && |Join(slices[..failed + 1])| <= |Join(slices)|
                    && FailedSlice(Conn(old(p.m), old(p.r)), slices, failed, p.r))
  {
    hide RunTo, Settled, Join, PeeksAt, FailedIn;
    ghost var c0, whole := Conn(p.m, p.r), Join(slices);
    NothingRead(c0, slices);
    var i := 0;
    failed := 0;
    while i < |slices|
      invariant 0 <= i <= |slices|
      invariant Join(slices[..i]) <= whole
      invariant var c := RunTo(c0, whole, |Join(slices[..i])|);
                if p.m.errno == NoError then
                  Conn(p.m, p.r) == c && (i < |slices| ==> Settled(p.m, p.r) && p.r.completions == 0 && !p.m.halted)
                else
                  && (c.m.errno == p.m.errno || c.m.errno == HeaderOverflow)
                  && (c.m.errno != HeaderOverflow ==>
                        failed < i && |Join(slices[..failed + 1])| <= |whole| && FailedSlice(c0, slices, failed, p.r))
    {
      ghost var before := Conn(p.m, p.r);
      NextSlice(c0, slices, i);
      if p.m.errno != NoError {
        StoppedStays(c0, whole, |Join(slices[..i])|, |Join(slices[..i + 1])|);
      } else {
        var ok := Feed(p, slices[i]);
        assert before.m.(halted := false) == before.m;
        if p.m.errno != NoError && RunTo(before, slices[i], |slices[i]|).m.errno != HeaderOverflow {
          failed := i;
          FailureLifts(c0, slices, i, p.r);
        }
      }
      i := i + 1;
    }
    assert slices[..i] == slices;
  }

  lemma NothingRead(c: Conn, slices: seq<string>)
    ensures Join(slices[..0]) <= Join(slices)
    ensures RunTo(c, Join(slices), |Join(slices[..0])|) == c
  {
  }

  /** The whole around slice number `i`. */
  lemma Around(c: Conn, slices: seq<string>, i: nat) returns (rest: string)
    requires i < |slices| && slices[i] != "" && CutsUnseen(c, slices)
    requires forall k :: 0 <= k < |slices| ==> slices[k] != ""
    ensures var a, s := Join(slices[..i]), slices[i];
            && Join(slices) == a + (s + rest) && Join(slices[..i + 1]) == a + s
            && !CutSeen(c, a, s + rest) && !CutSeen(c, a + s, rest)
            && (rest == "" <==> i + 1 == |slices|)
  {
    hide CutSeen;
    var a, s, whole := Join(slices[..i]), slices[i], Join(slices);
    assert slices[..i + 1][..i] == slices[..i];
    JoinPrefix(slices, i + 1);
    rest := whole[|a + s|..];
    assert whole == a + (s + rest);
    FirstTells(c, a, s + rest, s);
    if i + 1 < |slices| {
      assert slices[..i + 2][..i + 1] == slices[..i + 1];
      JoinPrefix(slices, i + 2);
      assert Join(slices[..i + 2]) == a + s + slices[i + 1];
      assert rest[0] == whole[|a + s|] == slices[i + 1][0];
      FirstTells(c, a + s, rest, slices[i + 1]);
    } else {
      assert slices[..i + 1] == slices;
      FirstTells(c, a + s, rest, rest);
    }
  }

  /** Only the first byte behind a cut matters. */
  lemma FirstTells(c: Conn, a: string, b: string, b': string)
    requires b != "" && b' != "" ==> b[0] == b'[0]
    ensures b != "" && b' != "" ==> (CutSeen(c, a, b) <==> CutSeen(c, a, b'))
    ensures a == "" || b == "" ==> !CutSeen(c, a, b)
  {
    hide RunTo, PeeksAt;
  }

  /** Where the machine is after one slice more. */
  lemma NextSlice(c: Conn, slices: seq<string>, i: nat)
    requires i < |slices| && CutsUnseen(c, slices) && CompletesAtMostAtEnd(c, Join(slices))
    requires forall k :: 0 <= k < |slices| ==> slices[k] != ""
    ensures Join(slices[..i]) <= Join(slices[..i + 1]) <= Join(slices)
    ensures |Join(slices[..i + 1])| == |Join(slices[..i])| + |slices[i]|
    ensures RunTo(c, Join(slices), |Join(slices[..i + 1])|)
         == RunTo(RunTo(c, Join(slices), |Join(slices[..i])|), slices[i], |slices[i]|)
    ensures i + 1 < |slices| ==>
              RunTo(c, Join(slices), |Join(slices[..i + 1])|).r.completions == 0
              && !RunTo(c, Join(slices), |Join(slices[..i + 1])|).m.halted
  {
    hide RunTo, PeeksAt, CutSeen;
    var a, s := Join(slices[..i]), slices[i];
    var rest := Around(c, slices, i);
    SameStep(c, a, s, rest, |s|);
    SameStep(c, a, s, rest, 0);
    RunStarts(RunTo(c, a, |a|), s);
  }

  lemma FailureLifts(c: Conn, slices: seq<string>, i: nat, r: Request)
    requires i < |slices| && CutsUnseen(c, slices) && CompletesAtMostAtEnd(c, Join(slices))
    requires forall k :: 0 <= k < |slices| ==> slices[k] != ""
    requires Join(slices[..i]) <= Join(slices)
    requires FailedIn(RunTo(c, Join(slices), |Join(slices[..i])|), slices[i], 0, |slices[i]|, r)
    ensures |Join(slices[..i + 1])| <= |Join(slices)| && FailedSlice(c, slices, i, r)
  {
    hide RunTo, PeeksAt, CutSeen, FailsAt, FinalAt;
    var a, s := Join(slices[..i]), slices[i];
    var rest := Around(c, slices, i);
    SameStep(c, a, s, rest, 0);
    var c1 := RunTo(c, a, |a|);
    RunStarts(c1, s);
    var j :| 0 <= j < |s| && FailsAt(c1, s, j) && r == FinalAt(c1, s, 0, j);
    SliceFails(c, a, s, rest, j);
    assert FailsAt(c, Join(slices), |a| + j) && r == FinalAt(c, Join(slices), |a|, |a| + j);
  }

  /** Where the machine never looks ahead, no cut is noticed. */
  lemma NoPeekCutsUnseen(c: Conn, slices: seq<string>)
    requires NoPeek(c, Join(slices))
    ensures CutsUnseen(c, slices)
  {
    hide RunTo, PeeksAt, NoPeek;
    forall i | 0 < i < |slices| ensures !CutSeen(c, Join(slices[..i]), slices[i]) {
      var a, whole := Join(slices[..i]), Join(slices);
      assert slices[..i + 1][..i] == slices[..i];
      JoinPrefix(slices, i);
      JoinPrefix(slices, i + 1);
      var rest := whole[|a|..];
      assert whole == a + rest;
      NoPeekNoCut(c, a, rest);
      if slices[i] != "" { assert rest[0] == whole[|a|] == slices[i][0]; }
    }
  }

  lemma UpgradeByte(m: Machine, h2: bool)
    requires PeeksAt(m, 'h')
    ensures Step(m, 'h', h2).m
         == m.(nread := m.nread + 1, state := HeaderValue, scan := Scan(HGeneral, 0),
               flags := m.flags.(upgrade := !h2))
  {
    hide RequestLineStep, ChunkStep, BodyStep, FieldStartStep, FieldStep, ValueStep, ValueLwsStep, ValueStartStep;
    StartByte(m.(nread := m.nread + 1), h2);
  }

  lemma StartByte(m: Machine, h2: bool)
    requires m.scan.state.HUpgrade? && !m.flags.upgrade
    ensures ValueStartStep(m, 'h', h2).m
         == m.(state := HeaderValue, scan := Scan(HGeneral, 0), flags := m.flags.(upgrade := !h2))
  {
  }

  lemma PlainValueByte(m: Machine, ch: char, h2: bool)
    requires !Stopped(m) && m.state.HeaderValue? && m.scan.state.HGeneral? && m.nread + 1 <= m.config.maxHeaderSize
    requires ch != CR && ch != LF && IsHeaderChar(ch)
    ensures Step(m, ch, h2).m == m.(nread := m.nread + 1)
  {
    hide RequestLineStep, ChunkStep, BodyStep;
  }

  /** The look-ahead does make a cut visible: an Upgrade header whose value begins with "h2" is ignored,
      unless a slice ends between these two bytes. */
  lemma UpgradeCut(c: Conn)
    requires PeeksAt(c.m, 'h') && c.m.nread + 2 <= c.m.config.maxHeaderSize
    ensures !RunTo(c, "h2", 2).m.flags.upgrade
    ensures RunTo(RunTo(c, "h", 1), "2", 1).m.flags.upgrade
  {
    hide Step, ApplyAll;
    UpgradeByte(c.m, true);
    UpgradeByte(c.m, false);
    assert RunTo(c, "h2", 1).m == Step(c.m, 'h', true).m;
    assert RunTo(c, "h", 1).m == Step(c.m, 'h', false).m;
    PlainValueByte(RunTo(c, "h2", 1).m, '2', false);
    PlainValueByte(RunTo(c, "h", 1).m, '2', false);
    assert RunTo(RunTo(c, "h", 1), "2", 1).m == Step(RunTo(c, "h", 1).m, '2', false).m;
  }
}
