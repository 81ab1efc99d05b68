/** The assert that can fail, seen from the text: exactly which Connection values fail it. */
module HttpAsserts {
  import opened Wrappers
  import opened HttpMachine
  import opened HttpRequest
  import opened HttpSplit
  import opened HttpGoes
  import opened HttpRequestLine
  import opened HttpNames
  import opened HttpHeaderLines
  import opened HttpSafety

  // ---------------------------------------------------------------------------------------------
  // Header lines as texts

  predicate IsConnectionName(name: string) {
    IsName(name) && LowerName(name) in {"connection", "proxy-connection"}
  }

  function Last(t: string): char
    requires t != ""
  {
    t[|t| - 1]
  }

  function Front(t: string): (r: string)
    requires t != ""
    ensures |r| < |t|
  {
    t[..|t| - 1]
  }

  predicate IsBlank(ch: char) {
    ch == ' ' || ch == '\t'
  }

  /** What is skipped before a value: blanks, and line ends that a blank follows. */
  predicate Skipped(t: string)
    decreases |t|
  {
    t == "" || (IsBlank(Last(t)) && (Skipped(Front(t)) || SkippedLine(Front(t))))
  }

  predicate SkippedLine(t: string)
    decreases |t|
  {
    t != "" && Last(t) == LF && (Skipped(Front(t)) || SkippedReturn(Front(t)))
  }

  predicate SkippedReturn(t: string)
    decreases |t|
  {
    t != "" && Last(t) == CR && Skipped(Front(t))
  }

  /** Line ends that a space follows. */
  predicate Folded(t: string)
    decreases |t|
  {
    t == "" || (Last(t) == ' ' && FoldedLine(Front(t)))
  }

  predicate FoldedLine(t: string)
    decreases |t|
  {
    t != "" && Last(t) == LF && (Folded(Front(t)) || FoldedReturn(Front(t)))
  }

  predicate FoldedReturn(t: string)
    decreases |t|
  {
    t != "" && Last(t) == CR && Folded(Front(t))
  }

  // ---------------------------------------------------------------------------------------------
  // Behind the name of a Connection header

  /** How the machine goes on behind such a name as long as its value is compared with nothing. */
  function Move(s: State, ch: char): Option<State> {
    match s
    case HeaderField => if ch == ':' then Some(ValueDiscardWs) else None
    case ValueDiscardWs =>
      if IsBlank(ch) then Some(ValueDiscardWs)
      else if ch == CR then Some(ValueDiscardWsAlmostDone)
      else if ch == LF then Some(ValueDiscardLws)
      else if ch == '\0' then Some(HeaderValue)
      else None
    case ValueDiscardWsAlmostDone => if ch == LF then Some(ValueDiscardLws) else None
    case ValueDiscardLws => if IsBlank(ch) then Some(ValueDiscardWs) else None
    case HeaderValue => if ch == CR then Some(HeaderAlmostDone) else if ch == LF then Some(ValueLws) else None
    case HeaderAlmostDone => if ch == LF then Some(ValueLws) else None
    case ValueLws => if ch == ' ' then Some(HeaderValue) else None
    case _ => None
  }

  function After(t: string): Option<State>
    decreases |t|
  {
    if t == "" then Some(HeaderField)
    else match After(Front(t))
      case None => None
      case Some(s) => Move(s, Last(t))
  }

  /** Such a text, taken apart. */
  function Behind(skip: string, folds: string): string {
    ":" + skip + ['\0'] + folds
  }

  lemma AppendLast(a: string, t: string)
    requires t != ""
    ensures a + t != "" && Last(a + t) == Last(t) && Front(a + t) == a + Front(t)
  {
  }

  lemma {:induction false} AfterSkipped(t: string)
    ensures Skipped(t) ==> After(":" + t) == Some(ValueDiscardWs)
    ensures SkippedLine(t) ==> After(":" + t) == Some(ValueDiscardLws)
    ensures SkippedReturn(t) ==> After(":" + t) == Some(ValueDiscardWsAlmostDone)
    decreases |t|
  {
    if t == "" {
      assert ":" + t == ":" && Front(":") == "" && Last(":") == ':';
      assert After("") == Some(HeaderField);
    } else {
      AppendLast(":", t);
      AfterSkipped(Front(t));
    }
  }

  lemma AfterNul(skip: string)
    requires Skipped(skip)
    ensures After(Behind(skip, "")) == Some(HeaderValue)
  {
    hide Skipped;
    var s := ":" + skip;
    AfterSkipped(skip);
    assert Behind(skip, "") == s + ['\0'];
    AppendLast(s, ['\0']);
    assert Front(['\0']) == "" && s + "" == s;
  }

  lemma AfterOn(t: string)
    requires t != ""
    ensures After(t) == if After(Front(t)).None? then None else Move(After(Front(t)).value, Last(t))
  {
    hide Move;
  }

  lemma BehindOn(skip: string, t: string)
    requires t != ""
    ensures Behind(skip, t) != "" && Front(Behind(skip, t)) == Behind(skip, Front(t)) && Last(Behind(skip, t)) == Last(t)
  {
    AppendLast(":" + skip + ['\0'], t);
  }

  lemma {:induction false} AfterFolded(skip: string, t: string)
    requires Skipped(skip)
    ensures Folded(t) ==> After(Behind(skip, t)) == Some(HeaderValue)
    ensures FoldedLine(t) ==> After(Behind(skip, t)) == Some(ValueLws)
    ensures FoldedReturn(t) ==> After(Behind(skip, t)) == Some(HeaderAlmostDone)
    decreases |t|
  {
    hide Skipped, After, Behind;
    if t == "" {
      AfterNul(skip);
    } else {
      BehindOn(skip, t);
      AfterFolded(skip, Front(t));
      AfterOn(Behind(skip, t));
    }
  }

  /** Where the text leads tells what it consists of. */
  ghost predicate Consists(t: string, s: State, skip: string, folds: string) {
    match s
    case HeaderField => t == ""
    case ValueDiscardWs => t == ":" + skip && Skipped(skip)
    case ValueDiscardLws => t == ":" + skip && SkippedLine(skip)
    case ValueDiscardWsAlmostDone => t == ":" + skip && SkippedReturn(skip)
    case HeaderValue => t == Behind(skip, folds) && Skipped(skip) && Folded(folds)
    case ValueLws => t == Behind(skip, folds) && Skipped(skip) && FoldedLine(folds)
    case HeaderAlmostDone => t == Behind(skip, folds) && Skipped(skip) && FoldedReturn(folds)
    case _ => false
  }

  lemma {:induction false} TakenApart(t: string) returns (skip: string, folds: string)
    requires After(t).Some?
    ensures Consists(t, After(t).value, skip, folds)
    decreases |t|
  {
    hide Consists;
    skip, folds := "", "";
    if t == "" {
      NothingTaken();
    } else {
      skip, folds := TakenApart(Front(t));
      skip, folds := TakenOn(t, After(Front(t)).value, skip, folds);
    }
  }

  lemma NothingTaken()
    ensures Consists("", HeaderField, "", "")
  {
  }

  lemma {:induction false} TakenOn(t: string, s: State, skip: string, folds: string) returns (skip1: string, folds1: string)
    requires t != "" && Consists(Front(t), s, skip, folds) && Move(s, Last(t)).Some?
    ensures Consists(t, Move(s, Last(t)).value, skip1, folds1)
  {
    var ch := Last(t);
    skip1, folds1 := skip, folds;
    assert t == Front(t) + [ch];
    if s.HeaderField? {
      skip1 := "";
      assert t == ":" + skip1;
    } else if Skipping(s) && ch != '\0' {
      skip1 := skip + [ch];
      assert Front(skip1) == skip && Last(skip1) == ch;
      assert t == ":" + skip1;
    } else if Skipping(s) {
      folds1 := "";
      assert t == Behind(skip, "");
    } else {
      folds1 := folds + [ch];
      assert Front(folds1) == folds && Last(folds1) == ch;
      assert t == Behind(skip, folds1);
    }
  }

  // ---------------------------------------------------------------------------------------------
  // One step

  /** A machine whose Connection header is compared with nothing. */
  predicate Waits(m: Machine) {
    m.scan.state.HConnection? && InLine(m.state)
  }

  /** Where a byte leads in a header line. */
  predicate LineStep(m: Machine, ch: char, m1: Machine) {
    && !m1.state.ValueStart?
    && (InLine(m1.state) ==> m1.nread == m.nread && m1.config == m.config && m1.halted == m.halted)
    && (m1.state.HeaderField? ==>
          && IsToken(ch)
          && if m.state.HeaderField? then FieldScan(m.scan, ch) == Some(m1.scan)
             else AtLine(m) && m1.scan == Scan(FirstLetterState(ch), 0))
    && (Waits(m1) && !m1.state.HeaderField? ==> Waits(m) && Move(m.state, ch) == Some(m1.state))
  }

  lemma OutsideLine(m: Machine, ch: char, m1: Machine)
    requires Outside(m1.state)
    ensures LineStep(m, ch, m1)
  {
  }

  lemma FieldLine(m: Machine, ch: char)
    requires m.errno == NoError && m.state.HeaderField?
    ensures FieldStep(m, ch).m.errno == NoError ==> LineStep(m, ch, FieldStep(m, ch).m)
    ensures m.scan.state.HConnection? && ch == ':' ==>
              FieldStep(m, ch).m == m.(state := ValueDiscardWs)
  {
    hide FieldScan;
  }

  lemma StartLine(m: Machine, ch: char, h2: bool)
    requires m.errno == NoError && !IsBlank(ch) && ch != CR && ch != LF
    ensures var m1 := ValueStartStep(m, ch, h2).m;
            && m1.state.HeaderValue? && m1.nread == m.nread && m1.config == m.config && m1.halted == m.halted
            && (m1.scan.state.HConnection? <==> m.scan.state.HConnection? && ch == '\0')
            && (m.scan.state.HConnection? ==> m1.errno == NoError)
  {
  }

  lemma ValueLine(m: Machine, ch: char)
    requires m.errno == NoError && m.state.HeaderValue?
    ensures ValueStep(m, ch).m.errno == NoError ==> LineStep(m, ch, ValueStep(m, ch).m)
    ensures m.scan.state.HConnection? && Move(HeaderValue, ch).Some? ==>
              ValueStep(m, ch).m == m.(state := Move(HeaderValue, ch).value)
  {
    hide ValueScan;
    ScannedOn(m.scan, m.contentLength, ch);
  }

  lemma ScannedOn(s: Scan, n: uint64, ch: char)
    ensures if ValueScan(s, n, ch).Scanned? then !ValueScan(s, n, ch).scan.state.HConnection?
            else ValueScan(s, n, ch).errno != NoError
  {
    hide KeywordText;
  }

  /** The first byte of a line, and what it leaves behind. */
  lemma NewLine(m: Machine, m0: Machine, ch: char)
    requires m.errno == NoError && AtLine(m) && m0.state.HeaderFieldStart?
    requires m0.nread == m.nread && m0.config == m.config && m0.halted == m.halted
    ensures LineStep(m, ch, FieldStartStep(m0, ch).m)
  {
    hide FieldStartStep;
    FieldStarts(m0, ch);
  }

  lemma LwsLine(m: Machine, ch: char, h2: bool)
    requires m.errno == NoError && m.state.ValueLws?
    ensures LineStep(m, ch, ValueLwsStep(m, ch, h2).m)
  {
    hide FieldStartStep, ValueStartStep, LineStep;
    if ch == ' ' || ch == '\t' {
      var m0 := m.(state := ValueStart,
                   scan := if m.scan.state.HContentLengthNum? then m.scan.(state := HContentLengthWs) else m.scan);
      FoldLine(m0, ch, h2);
      FoldLineStep(m, m0, ch, h2);
    } else {
      var m0 := Finishing(m);
      NewLine(m, m0, ch);
    }
  }

  /** The machine of the next line. */
  function Finishing(m: Machine): Machine {
    var f := match m.scan.state
             case HKeepAlive => m.flags.(keepAlive := true)
             case HClose => m.flags.(close := true)
             case HTeChunked => m.flags.(chunked := true)
             case _ => m.flags;
    m.(flags := f, state := HeaderFieldStart)
  }

  lemma FoldLine(m: Machine, ch: char, h2: bool)
    requires m.errno == NoError && IsBlank(ch)
    ensures var m1 := ValueStartStep(m, ch, h2).m;
            && m1.state.HeaderValue? && m1.nread == m.nread && m1.config == m.config && m1.halted == m.halted
            && (m1.scan.state.HConnection? <==> m.scan.state.HConnection? && ch == ' ')
            && (m.scan.state.HConnection? ==> m1.errno == NoError)
  {
  }

  lemma FoldLineStep(m: Machine, m0: Machine, ch: char, h2: bool)
    requires m.state.ValueLws? && IsBlank(ch)
    requires m0.nread == m.nread && m0.config == m.config && m0.halted == m.halted
    requires m0.scan.state.HConnection? ==> m.scan.state.HConnection?
    requires var m1 := ValueStartStep(m0, ch, h2).m;
             && m1.state.HeaderValue? && m1.nread == m0.nread && m1.config == m0.config && m1.halted == m0.halted
             && (m1.scan.state.HConnection? <==> m0.scan.state.HConnection? && ch == ' ')
    ensures LineStep(m, ch, ValueStartStep(m0, ch, h2).m)
  {
    hide ValueStartStep;
  }

  lemma SkipLine(m: Machine, ch: char, h2: bool)
    requires m.errno == NoError && Skipping(m.state)
    ensures HeaderStep(m, ch, h2).m.errno == NoError ==> LineStep(m, ch, HeaderStep(m, ch, h2).m)
  {
    hide FieldStartStep, ValueStartStep, FieldStep, ValueStep, ValueLwsStep, HeadersAlmostDoneStep, HeadersDoneStep;
    if m.state.ValueDiscardLws? && !IsBlank(ch) { NewLine(m, m.(state := HeaderFieldStart), ch); }
    if m.state.ValueDiscardWs? && !IsBlank(ch) && ch != CR && ch != LF { StartLine(m, ch, h2); }
  }

  /** What a byte of the text that is followed does to a machine that waits. */
  predicate MovesOn(m: Machine, ch: char, m1: Machine) {
    Waits(m) && Move(m.state, ch).Some? ==>
      && Waits(m1) && m1.state == Move(m.state, ch).value && m1.errno == NoError
      && m1.nread == m.nread && m1.config == m.config && m1.halted == m.halted
  }

  lemma SkipMoves(m: Machine, ch: char, h2: bool)
    requires m.errno == NoError && Skipping(m.state)
    ensures MovesOn(m, ch, HeaderStep(m, ch, h2).m)
  {
    hide FieldStartStep, ValueStartStep, FieldStep, ValueStep, ValueLwsStep, HeadersAlmostDoneStep, HeadersDoneStep;
    if m.state.ValueDiscardWs? && !IsBlank(ch) && ch != CR && ch != LF { StartLine(m, ch, h2); }
  }

  lemma LwsMoves(m: Machine, ch: char, h2: bool)
    requires m.errno == NoError && m.state.ValueLws?
    ensures MovesOn(m, ch, ValueLwsStep(m, ch, h2).m)
  {
    hide FieldStartStep, ValueStartStep;
    if ch == ' ' && m.scan.state.HConnection? { FoldLine(m.(state := ValueStart), ch, h2); }
  }

  /** Every step inside a header line, both ways. */
  lemma HeaderLine(m: Machine, ch: char, h2: bool)
    requires m.errno == NoError && InHeader(m.state) && !m.state.ValueStart?
    ensures HeaderStep(m, ch, h2).m.errno == NoError ==> LineStep(m, ch, HeaderStep(m, ch, h2).m)
  {
    hide FieldStartStep, ValueStartStep, FieldStep, ValueStep, ValueLwsStep, HeadersAlmostDoneStep, HeadersDoneStep,
         DiscardWsStep, DiscardLwsStep, LineStep;
    if m.state.HeaderField? { FieldLine(m, ch); }
    else if m.state.HeaderValue? { ValueLine(m, ch); }
    else if m.state.ValueLws? { LwsLine(m, ch, h2); }
    else if Skipping(m.state) { SkipLine(m, ch, h2); }
    else if m.state.HeaderFieldStart? { NewLine(m, m, ch); }
    else if m.state.HeaderAlmostDone? { EndLine(m, ch); }
    else {
      HeadersEndOutside(m, ch);
      OutsideLine(m, ch, HeaderStep(m, ch, h2).m);
    }
  }

  lemma EndLine(m: Machine, ch: char)
    requires m.errno == NoError && m.state.HeaderAlmostDone?
    ensures HeaderAlmostDoneStep(m, ch).errno == NoError ==> LineStep(m, ch, HeaderAlmostDoneStep(m, ch))
    ensures MovesOn(m, ch, HeaderAlmostDoneStep(m, ch))
  {
  }

  lemma HeaderMoves(m: Machine, ch: char, h2: bool)
    requires m.errno == NoError && InLine(m.state)
    ensures MovesOn(m, ch, HeaderStep(m, ch, h2).m)
  {
    hide ValueStartStep, FieldStep, ValueStep, ValueLwsStep, DiscardWsStep, DiscardLwsStep, FieldStartStep;
    if m.state.HeaderField? { FieldLine(m, ch); }
    else if m.state.HeaderValue? { ValueLine(m, ch); }
    else if m.state.ValueLws? { LwsMoves(m, ch, h2); }
    else if Skipping(m.state) { SkipMoves(m, ch, h2); }
    else { EndLine(m, ch); }
  }

  lemma StepLine(m: Machine, ch: char, h2: bool)
    requires !Stopped(m) && !m.state.ValueStart?
    ensures var m1 := Step(m, ch, h2).m; m1.errno == NoError ==> LineStep(m.(nread := m.nread + 1), ch, m1)
  {
    hide RequestLineStep, HeaderStep, ChunkStep, LineStep;
    var m1 := if ParsingHeader(m.state) then Count(m, 1) else m;
    if m1.errno == NoError {
      var c := m.(nread := m.nread + 1);
      if InHeader(m.state) { HeaderLine(m1, ch, h2); }
      else {
        if InRequestLine(m.state) { LineOutside(m1, ch); }
        else if InChunk(m.state) { ChunkOutside(m1, ch); }
        OutsideLine(c, ch, Step(m, ch, h2).m);
      }
    }
  }

  lemma StepMoves(m: Machine, ch: char, h2: bool)
    requires !Stopped(m) && Room(m, 1) && InLine(m.state)
    ensures MovesOn(m.(nread := m.nread + 1), ch, Step(m, ch, h2).m)
  {
    hide HeaderStep, Step, MovesOn;
    CountedStep(m, ch, h2);
    HeaderMoves(m.(nread := m.nread + 1), ch, h2);
  }

  // ---------------------------------------------------------------------------------------------
  // Where a run is in a header line

  /** A header line that the run is in: it begins at `i` with the name, behind which stands `tail`. */
  datatype Place = Place(i: nat, name: string, tail: string)

  /** The run over `data` is at `p` in the line at `w`. */
  ghost predicate IsAt(c: Conn, data: string, p: nat, w: Place)
    requires p <= |data|
  {
    && w.i < p && IsName(w.name) && data[w.i..p] == w.name + w.tail
    && var m0, m := RunTo(c, data, w.i).m, RunTo(c, data, p).m;
       && !Stopped(m0) && AtLine(m0) && m.nread == m0.nread + (p - w.i) && m.config == m0.config
       && (m.state.HeaderField? ==> w.tail == "" && NameScan(w.name) == Some(m.scan))
       && (!m.state.HeaderField? ==> IsConnectionName(w.name) && After(w.tail) == Some(m.state))
  }

  /** Where that is interesting. */
  predicate OnLine(m: Machine) {
    m.state.HeaderField? || Waits(m)
  }

  lemma PlaceStarts(c: Conn, data: string, p: nat)
    requires p < |data| && !Stopped(RunTo(c, data, p).m) && !RunTo(c, data, p).m.state.HeaderField?
    requires var m, m1 := RunTo(c, data, p).m, RunTo(c, data, p + 1).m;
             LineStep(m.(nread := m.nread + 1), data[p], m1) && m1.state.HeaderField?
    ensures IsAt(c, data, p + 1, Place(p, [data[p]], ""))
  {
    hide RunTo, FieldScan;
    assert data[p..p + 1] == [data[p]] + "";
  }

  lemma PlaceNames(c: Conn, data: string, p: nat, w: Place)
    requires p < |data| && RunTo(c, data, p).m.state.HeaderField? && IsAt(c, data, p, w)
    requires var m, m1 := RunTo(c, data, p).m, RunTo(c, data, p + 1).m;
             LineStep(m.(nread := m.nread + 1), data[p], m1) && m1.state.HeaderField?
    ensures IsAt(c, data, p + 1, w.(name := w.name + [data[p]]))
  {
    hide RunTo, FieldScan;
    var name := w.name + [data[p]];
    assert data[w.i..p + 1] == data[w.i..p] + [data[p]] == name + "";
    assert name[..|name| - 1] == w.name;
  }

  lemma PlaceMoves(c: Conn, data: string, p: nat, w: Place)
    requires p < |data| && Waits(RunTo(c, data, p).m) && IsAt(c, data, p, w)
    requires var m, m1 := RunTo(c, data, p).m, RunTo(c, data, p + 1).m;
             LineStep(m.(nread := m.nread + 1), data[p], m1) && Waits(m1) && !m1.state.HeaderField?
    ensures IsAt(c, data, p + 1, w.(tail := w.tail + [data[p]]))
  {
    hide RunTo, NameScan, LowerName, Move;
    var tail := w.tail + [data[p]];
    if RunTo(c, data, p).m.state.HeaderField? {
      FramingNames(w.name);
      assert After("") == Some(HeaderField);
    }
    assert data[w.i..p + 1] == data[w.i..p] + [data[p]] == w.name + tail;
    assert Front(tail) == w.tail && Last(tail) == data[p];
  }

  /** Every run that is in a header name, or in a Connection value that is compared with nothing, got there by the
      text of that line. */
  lemma {:induction false} Traced(c: Conn, data: string, p: nat) returns (w: Place)
    requires p <= |data| && !Stopped(c.m) && Outside(c.m.state)
    ensures var m := RunTo(c, data, p).m;
            !Stopped(m) ==> !m.state.ValueStart? && (OnLine(m) ==> IsAt(c, data, p, w))
  {
    hide Step, IsAt, LineStep, ApplyAll;
    w := Place(0, "", "");
    if p > 0 {
      w := Traced(c, data, p - 1);
      var m, m1, ch := RunTo(c, data, p - 1).m, RunTo(c, data, p).m, data[p - 1];
      if Stopped(m) {
        StoppedStays(c, data, p - 1, p);
      } else if !Stopped(m1) {
        StepLine(m, ch, Ahead(data, p - 1));
        LineTells(m.(nread := m.nread + 1), ch, m1);
        if m1.state.HeaderField? && m.state.HeaderField? {
          PlaceNames(c, data, p - 1, w);
          w := w.(name := w.name + [ch]);
        } else if m1.state.HeaderField? {
          PlaceStarts(c, data, p - 1);
          w := Place(p - 1, [ch], "");
        } else if Waits(m1) {
          PlaceMoves(c, data, p - 1, w);
          w := w.(tail := w.tail + [ch]);
        }
      }
    }
  }

  lemma LineTells(m: Machine, ch: char, m1: Machine)
    requires LineStep(m, ch, m1)
    ensures !m1.state.ValueStart? && (Waits(m1) && !m1.state.HeaderField? ==> Waits(m))
  {
  }

  // ---------------------------------------------------------------------------------------------
  // The other way round: the text of such a line leads there

  lemma NameMoves(m: Machine, ch: char, h2: bool)
    requires !Stopped(m) && Room(m, 1) && IsToken(ch) && (AtLine(m) || m.state.HeaderField?)
    requires m.state.HeaderField? ==> FieldScan(m.scan, ch).Some?
    ensures var m1 := Step(m, ch, h2).m;
            && !Stopped(m1) && m1.state.HeaderField? && m1.nread == m.nread + 1 && m1.config == m.config
            && m1.scan == if m.state.HeaderField? then FieldScan(m.scan, ch).value else Scan(FirstLetterState(ch), 0)
  {
    hide Step, FieldScan, Dispatch;
    StepPeeks(m, ch);
    CountedStep(m, ch, false);
    NameDispatch(m.(nread := m.nread + 1), ch);
  }

  lemma NameDispatch(m: Machine, ch: char)
    requires !Stopped(m) && IsToken(ch) && (AtLine(m) || m.state.HeaderField?)
    requires m.state.HeaderField? ==> FieldScan(m.scan, ch).Some?
    ensures var m1 := Dispatch(m, ch, false).m;
            && !Stopped(m1) && m1.state.HeaderField? && m1.nread == m.nread && m1.config == m.config
            && m1.scan == if m.state.HeaderField? then FieldScan(m.scan, ch).value else Scan(FirstLetterState(ch), 0)
  {
    hide HeaderStep, FieldScan;
    if m.state.HeaderField? { NameByteStep(m, ch, FieldScan(m.scan, ch).value); } else { NameStartStep(m, ch); }
  }

  /** The run from the beginning of a line at `i` goes on to `p`. */
  predicate GoesOnTo(c: Conn, data: string, i: nat, p: nat)
    requires i <= p <= |data|
  {
    var m0, m := RunTo(c, data, i).m, RunTo(c, data, p).m;
    !Stopped(m) && m.nread == m0.nread + (p - i) && m.config == m0.config
  }

  lemma {:induction false} NameFollowed(c: Conn, data: string, i: nat, name: string)
    requires i + |name| <= |data| && data[i..i + |name|] == name && IsName(name)
    requires var m := RunTo(c, data, i).m; !Stopped(m) && AtLine(m) && Room(m, |name|)
    ensures GoesOnTo(c, data, i, i + |name|)
    ensures var m := RunTo(c, data, i + |name|).m; m.state.HeaderField? && NameScan(name) == Some(m.scan)
    decreases |name|
  {
    hide Step, FieldScan, ApplyAll;
    var k := |name| - 1;
    var p := i + k;
    assert data[p] == name[k];
    if k > 0 {
      var front := name[..k];
      assert data[i..p] == front;
      NameFollowed(c, data, i, front);
      NameRecognised(name);
    }
    NameMoves(RunTo(c, data, p).m, name[k], Ahead(data, p));
  }

  lemma {:induction false} TailFollowed(c: Conn, data: string, i: nat, p: nat, tail: string)
    requires i <= p && p + |tail| <= |data| && data[p..p + |tail|] == tail && After(tail).Some?
    requires GoesOnTo(c, data, i, p) && Room(RunTo(c, data, i).m, p - i + |tail|)
    requires RunTo(c, data, p).m.state.HeaderField? && RunTo(c, data, p).m.scan.state.HConnection?
    ensures GoesOnTo(c, data, i, p + |tail|)
    ensures var m := RunTo(c, data, p + |tail|).m; Waits(m) && m.state == After(tail).value
    decreases |tail|
  {
    hide Step, Move, ApplyAll;
    if tail != "" {
      var k := |tail| - 1;
      assert data[p + k] == tail[k] && data[p..p + k] == Front(tail);
      TailFollowed(c, data, i, p, Front(tail));
      StepMoves(RunTo(c, data, p + k).m, tail[k], Ahead(data, p + k));
    }
  }

  // ---------------------------------------------------------------------------------------------
  // Exactly when

  predicate Accepted(config: Config, ch: char) {
    ch != CR && ch != LF && (config.lenient || IsHeaderChar(ch))
  }

  /** From `i` up to `q` stands a Connection header whose value begins with a NUL, behind which there are at most
      folds. */
  ghost predicate NulValue(data: string, i: nat, q: nat)
    requires i <= q <= |data|
  {
    exists name: string, skip: string, folds: string ::
      IsConnectionName(name) && Skipped(skip) && Folded(folds) && data[i..q] == name + Behind(skip, folds)
  }

  /** A header line begins at `i`, its value is as above up to `q`, the byte there is accepted, and the header limit is
      not met before it. */
  ghost predicate FailsIn(c: Conn, data: string, i: nat, q: nat)
    requires i < q < |data|
  {
    var m := RunTo(c, data, i).m;
    && !Stopped(m) && AtLine(m) && Room(m, q - i + 1)
    && NulValue(data, i, q) && Accepted(m.config, data[q])
  }

  lemma FailsThere(c: Conn, data: string, i: nat, q: nat)
    requires i < q < |data| && FailsIn(c, data, i, q)
    ensures FailsBy(c, data, q)
  {
    hide RunTo, NameScan, LowerName, Skipped, Folded, Behind, After;
    var name: string, skip: string, folds: string :|
      IsConnectionName(name) && Skipped(skip) && Folded(folds) && data[i..q] == name + Behind(skip, folds);
    var tail, p := Behind(skip, folds), i + |name|;
    assert data[i..q][..|name|] == name && data[i..q][|name|..] == tail;
    assert data[i..p] == name && data[p..q] == tail && |tail| == q - p;
    NameFollowed(c, data, i, name);
    FramingNames(name);
    AfterFolded(skip, folds);
    TailFollowed(c, data, i, p, tail);
  }

  lemma FailsFrom(c: Conn, data: string, q: nat) returns (i: nat)
    requires q < |data| && FailsBy(c, data, q) && !Stopped(c.m) && Outside(c.m.state)
    ensures i < q && FailsIn(c, data, i, q)
  {
    hide RunTo, NameScan, LowerName, Skipped, Folded, Behind, After, IsName;
    var w := Traced(c, data, q);
    var skip, folds := TakenApart(w.tail);
    i := w.i;
    assert data[i..q] == w.name + Behind(skip, folds);
    assert NulValue(data, i, q);
  }

  /** Over every text, from the beginning of a connection: an assert fails if and only if some Connection value
      begins with a NUL, and after it, or after folds behind it, comes an accepted byte that does not end the line. */
  lemma AssertFails(config: Config, data: string, p: nat)
    requires p <= |data|
    ensures RunTo(Conn(Init(config), EMPTY_REQUEST), data, p).m.errno == AssertFailed
            <==> exists i, q :: 0 <= i < q < p && FailsIn(Conn(Init(config), EMPTY_REQUEST), data, i, q)
  {
    hide RunTo, FailsBy, FailsIn;
    var c := Conn(Init(config), EMPTY_REQUEST);
    RunSound(c, data, p);
    if RunTo(c, data, p).m.errno == AssertFailed {
      var q :| 0 <= q < p && FailsBy(c, data, q);
      var i := FailsFrom(c, data, q);
    }
    if i, q :| 0 <= i < q < p && FailsIn(c, data, i, q) { FailsThere(c, data, i, q); }
  }

  /** A NUL at `k`, directly behind "connection", a colon and what is skipped before a value. */
  predicate NulBehind(data: string, j: nat, k: nat) {
    && j + 11 <= k < |data| && LowerName(data[j..j + 10]) == "connection" && data[j + 10] == ':'
    && Skipped(data[j + 11..k]) && data[k] == '\0'
  }

  lemma Part(data: string, i: nat, q: nat, a: nat, b: nat)
    requires i + a <= i + b <= q <= |data|
    ensures data[i + a..i + b] == data[i..q][a..b]
    ensures i + a < q ==> data[i + a] == data[i..q][a]
  {
    forall k | 0 <= k < b - a ensures data[i + a..i + b][k] == data[i..q][a..b][k] { }
  }

  lemma Parts(name: string, skip: string, folds: string)
    requires |name| >= 10
    ensures var line, n := name + Behind(skip, folds), |name|;
            && n + 1 + |skip| < |line| && line[n - 10..n] == name[n - 10..]
            && line[n] == ':' && line[n + 1..n + 1 + |skip|] == skip && line[n + 1 + |skip|] == '\0'
  {
    var line, n := name + Behind(skip, folds), |name|;
    assert line == name + ":" + skip + (['\0'] + folds);
  }

  lemma ConnectionBehind(data: string, i: nat, q: nat)
    requires i <= q <= |data| && NulValue(data, i, q)
    ensures exists j, k :: 0 <= j <= k < q && NulBehind(data, j, k)
  {
    hide Skipped, Folded, Behind, LowerName;
    var name: string, skip: string, folds: string :|
      IsConnectionName(name) && Skipped(skip) && Folded(folds) && data[i..q] == name + Behind(skip, folds);
    var n := |name|;
    EndsWithConnection(name);
    Parts(name, skip, folds);
    Part(data, i, q, n - 10, n);
    Part(data, i, q, n, n + 1);
    Part(data, i, q, n + 1, n + 1 + |skip|);
    Part(data, i, q, n + 1 + |skip|, n + 1 + |skip|);
    assert NulBehind(data, i + n - 10, i + n + 1 + |skip|);
  }

  lemma EndsWithConnection(name: string)
    requires IsConnectionName(name)
    ensures |name| >= 10 && LowerName(name[|name| - 10..]) == "connection"
  {
    hide IsName;
    if LowerName(name) == "connection" {
      assert name[|name| - 10..] == name;
    } else {
      assert LowerName(name) == "proxy-connection" == "proxy-" + "connection";
      assert LowerName(name[6..]) == LowerName(name)[6..];
    }
  }

  /** Seen from the text alone: without such a NUL no assert fails, whatever is sent. */
  lemma NoNulBehind(config: Config, data: string, p: nat)
    requires p <= |data| && forall j: nat, k: nat :: k < p ==> !NulBehind(data, j, k)
    ensures RunTo(Conn(Init(config), EMPTY_REQUEST), data, p).m.errno != AssertFailed
  {
    hide RunTo, NulBehind, NulValue;
    var c := Conn(Init(config), EMPTY_REQUEST);
    AssertFails(config, data, p);
    forall i: nat, q: nat | i < q < p ensures !FailsIn(c, data, i, q) {
      if FailsIn(c, data, i, q) { ConnectionBehind(data, i, q); }
    }
  }

  lemma ConnectionLine(data: string, i: nat)
    requires i + 13 <= |data| && data[i..i + 13] == "Connection: " + ['\0']
    ensures NulValue(data, i, i + 13)
  {
    assert LowerName("Connection") == "connection";
    assert Last(" ") == ' ' && Front(" ") == "" && Skipped("") && Skipped(" ") && Folded("");
    assert "Connection: " == "Connection" + ":" + " ";
    var name, skip, folds := "Connection", " ", "";
    assert IsConnectionName(name);
    assert data[i..i + 13] == name + Behind(skip, folds);
  }

  /** From the first byte on: a request line and a Connection header. */
  lemma FailsFromStart(config: Config, h: Method, url: string, ch: char)
    requires !h.CONNECT? && IsTarget(url) && |RequestLine(h, url, 1, 1)| + 14 <= config.maxHeaderSize
    requires Accepted(config, ch)
    ensures var data := RequestLine(h, url, 1, 1) + "Connection: " + ['\0', ch];
            RunTo(Conn(Init(config), EMPTY_REQUEST), data, |data|).m.errno == AssertFailed
  {
    hide Goes, RunTo, IsTarget, MethodName, RequestLine, Accepted, NulValue;
    var start, line := Conn(Init(config), EMPTY_REQUEST), RequestLine(h, url, 1, 1);
    var rest := "Connection: " + ['\0', ch];
    var data := line + "Connection: " + ['\0', ch];
    assert data == line + rest;
    RequestLineRead(start, h, url, 1, 1);
    var c := Conn(start.m.(contentLength := ULLONG_MAX, httpMethod := h, scan := Scan(HGeneral, |MethodName(h)| + 1),
                           httpMajor := 1, httpMinor := 1, state := HeaderFieldStart, nread := |line|),
                  EMPTY_REQUEST.(httpMethod := h, rawUrl := EMPTY_REQUEST.rawUrl + url));
    assert start.m.(flags := NO_FLAGS, usesTransferEncoding := false) == start.m;
    GoesRuns(start, line, c);
    NoPeekNoCut(start, line, rest);
    RunPrefix(start, line, rest, |line|);
    ConnectionLine(data, |line|);
    assert FailsIn(start, data, |line|, |line| + 13);
    AssertFails(config, data, |data|);
  }
}
