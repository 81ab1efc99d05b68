/** What a call that fails has delivered.  Url, header names, header values and bodies are delivered in pieces: the
    part of them that is in the current buffer goes to its callback when it ends.  The piece in which an error
    happens is not delivered. */
module HttpPieces {
  import opened HttpMachine
  import opened HttpRequest

  /** The step of the byte at `p`. */
  function StepAt(c: Conn, data: string, p: nat): Out
    requires p < |data|
  {
    Step(RunTo(c, data, p).m, data[p], Ahead(data, p))
  }

  /** Data that waits for the end of its piece. */
  predicate IsData(e: Event) {
    match e
    case UrlData(s) => s != ""
    case FieldData(s) => s != ""
    case ValueData(s) => s != ""
    case BodyData(s) => s != ""
    case _ => false
  }

  predicate EndsWithData(es: seq<Event>) {
    es != [] && IsData(es[|es| - 1])
  }

  function Front(es: seq<Event>): seq<Event> {
    if es == [] then [] else es[..|es| - 1]
  }

  /** Whether the byte at `p` belongs to a piece that may go on. */
  predicate DataByte(c: Conn, data: string, p: nat)
    requires p < |data|
  {
    EndsWithData(StepAt(c, data, p).events)
  }

  /** Where the piece begins that byte `p` continues, in a buffer that begins at `lo`; `p` itself if there is none. */
  function PieceFrom(c: Conn, data: string, lo: nat, p: nat): (a: nat)
    requires p <= |data|
    ensures a <= p && (lo <= p ==> lo <= a)
  {
    if p <= lo || !DataByte(c, data, p - 1) then p else PieceFrom(c, data, lo, p - 1)
  }

  /** The request when the first byte of a piece is read: nothing of the piece is in it. */
  function Kept(c: Conn, data: string, a: nat): Request
    requires a < |data|
  {
    ApplyAll(RunTo(c, data, a).r, Front(StepAt(c, data, a).events))
  }

  /** What has been delivered before byte `p`, in a buffer that begins at `lo`. */
  function RequestAt(c: Conn, data: string, lo: nat, p: nat): Request
    requires p <= |data|
  {
    var a := PieceFrom(c, data, lo, p);
    if a == p then RunTo(c, data, p).r else Kept(c, data, a)
  }

  /** What a call has delivered when it fails at byte `p`. */
  function FinalAt(c: Conn, data: string, lo: nat, p: nat): Request
    requires p < |data|
  {
    ApplyAll(RequestAt(c, data, lo, p), StepAt(c, data, p).events)
  }

  predicate FailsAt(c: Conn, data: string, p: nat)
    requires p < |data|
  {
    !Stopped(RunTo(c, data, p).m) && RunTo(c, data, p + 1).m.errno != NoError
  }

  /** A byte more of a piece: nothing is delivered.  Callbacks before it belong to its first byte. */
  lemma DataKeeps(c: Conn, data: string, lo: nat, p: nat)
    requires lo <= p < |data| && DataByte(c, data, p)
    requires |StepAt(c, data, p).events| == 1 || PieceFrom(c, data, lo, p) == p
    ensures RequestAt(c, data, lo, p + 1) == ApplyAll(RequestAt(c, data, lo, p), Front(StepAt(c, data, p).events))
  {
    hide StepAt, IsData, RunTo;
    assert PieceFrom(c, data, lo, p + 1) == PieceFrom(c, data, lo, p);
  }

  /** A byte that is no data, or ends its piece: everything is delivered. */
  lemma OtherDelivers(c: Conn, data: string, lo: nat, p: nat)
    requires lo <= p < |data| && !DataByte(c, data, p)
    ensures RequestAt(c, data, lo, p + 1) == RunTo(c, data, p + 1).r
  {
  }

  // ---------------------------------------------------------------------------------------------
  // Where data leads

  /** States in which a piece may be waiting. */
  predicate Waiting(s: State) {
    s.HeaderField? || s.HeaderValue? || InUrl(s)
    || s.BodyIdentity? || s.BodyIdentityEof? || s.ChunkData? || s.ChunkDataAlmostDone?
  }

  lemma LineData(m: Machine, ch: char)
    requires InRequestLine(m.state)
    ensures EndsWithData(RequestLineStep(m, ch).events) ==> InUrl(RequestLineStep(m, ch).m.state)
  {
    hide ParseUrlChar, VersionStep;
    UrlOrDead(m.state, ch);
    UrlOrDead(ReqServerStart, ch);
    if m.state.ReqMethod? { MethodData(m, ch); }
  }

  lemma MethodData(m: Machine, ch: char)
    ensures !EndsWithData(MethodStep(m, ch).events)
  {
  }

  lemma HeadersDoneData(m: Machine, ch: char)
    ensures !EndsWithData(HeadersDoneStep(m, ch).events)
    ensures !EndsWithData(HeadersAlmostDoneStep(m, ch).events)
  {
  }

  lemma FieldStartData(m: Machine, ch: char)
    ensures var o := FieldStartStep(m, ch); EndsWithData(o.events) ==> o.m.state.HeaderField? && |o.events| == 1
  {
    hide HeadersAlmostDoneStep;
    HeadersDoneData(m.(state := HeadersAlmostDone), ch);
  }

  lemma ValueStartData(m: Machine, ch: char, h2: bool)
    ensures var o := ValueStartStep(m, ch, h2); EndsWithData(o.events) ==> o.m.state.HeaderValue? && |o.events| == 1
  {
  }

  lemma LwsData(m: Machine, ch: char, h2: bool)
    ensures var o := ValueLwsStep(m, ch, h2);
            EndsWithData(o.events) ==> (o.m.state.HeaderField? || o.m.state.HeaderValue?) && |o.events| == 1
  {
    hide FieldStartStep, ValueStartStep;
    forall m1: Machine
      ensures var o := FieldStartStep(m1, ch); EndsWithData(o.events) ==> o.m.state.HeaderField? && |o.events| == 1
    {
      FieldStartData(m1, ch);
    }
    forall m1: Machine
      ensures var o := ValueStartStep(m1, ch, h2); EndsWithData(o.events) ==> o.m.state.HeaderValue? && |o.events| == 1
    {
      ValueStartData(m1, ch, h2);
    }
  }

  lemma DiscardLwsData(m: Machine, ch: char)
    ensures var o := DiscardLwsStep(m, ch); EndsWithData(o.events) ==> o.m.state.HeaderField?
  {
    hide FieldStartStep;
    FieldStartData(m.(state := HeaderFieldStart), ch);
  }

  lemma HeaderData(m: Machine, ch: char, h2: bool)
    requires InHeader(m.state) && !m.state.HeaderField? && !m.state.HeaderValue?
    ensures var o := HeaderStep(m, ch, h2);
            EndsWithData(o.events) ==> (o.m.state.HeaderField? || o.m.state.HeaderValue?)
                                       && (|o.events| == 1 || m.state.ValueDiscardLws?)
  {
    hide FieldStartStep, FieldStep, ValueStartStep, ValueStep, ValueLwsStep, DiscardLwsStep, HeadersDoneStep,
         HeadersAlmostDoneStep, IsData;
    FieldStartData(m, ch);
    ValueStartData(m, ch, h2);
    LwsData(m, ch, h2);
    DiscardLwsData(m, ch);
    HeadersDoneData(m, ch);
  }

  /** Data leads to a state in which it waits. */
  lemma DataWaits(m: Machine, ch: char, h2: bool)
    requires m.errno == NoError
    ensures EndsWithData(Dispatch(m, ch, h2).events) ==> Waiting(Dispatch(m, ch, h2).m.state)
  {
    hide RequestLineStep, HeaderStep, ChunkStep;
    if InRequestLine(m.state) { LineData(m, ch); }
    else if InHeader(m.state) {
      if m.state.HeaderField? || m.state.HeaderValue? { NameValueWait(m, ch, h2); } else { HeaderData(m, ch, h2); }
    }
    else if InChunk(m.state) { ChunkWaits(m, ch); }
  }

  lemma NameValueWait(m: Machine, ch: char, h2: bool)
    requires m.state.HeaderField? || m.state.HeaderValue?
    ensures EndsWithData(HeaderStep(m, ch, h2).events) ==> Waiting(HeaderStep(m, ch, h2).m.state)
  {
    hide FieldScan, ValueScan;
  }

  lemma ChunkWaits(m: Machine, ch: char)
    requires InChunk(m.state)
    ensures EndsWithData(ChunkStep(m, ch).events) ==> m.state.ChunkData? && Waiting(ChunkStep(m, ch).m.state)
  {
    hide Unhex, ChunkSizeStep;
  }

  /** In the states that look at one byte, data is the beginning of a piece or more of the url. */
  lemma OneByteData(m: Machine, ch: char, h2: bool)
    requires m.errno == NoError
    requires !m.state.HeaderField? && !m.state.HeaderValue? && !m.state.BodyIdentity? && !m.state.BodyIdentityEof?
             && !m.state.ChunkData?
    ensures var o := Dispatch(m, ch, h2);
            EndsWithData(o.events) ==> (o.m.state.HeaderField? || o.m.state.HeaderValue? || InUrl(o.m.state))
                                       && (|o.events| == 1 || m.state.ValueDiscardLws?)
  {
    hide HeaderStep, ChunkStep;
    if InRequestLine(m.state) { LineData(m, ch); LineEvents(m, ch); }
    else if InHeader(m.state) { HeaderData(m, ch, h2); }
    else if InChunk(m.state) { ChunkWaits(m, ch); }
  }

  lemma LineEvents(m: Machine, ch: char)
    requires InRequestLine(m.state)
    ensures EndsWithData(RequestLineStep(m, ch).events) ==> |RequestLineStep(m, ch).events| == 1
  {
    hide ParseUrlChar, VersionStep;
    if m.state.ReqMethod? { MethodData(m, ch); }
  }

  /** No piece is waiting where none can be. */
  lemma NoPiece(c: Conn, data: string, lo: nat, p: nat)
    requires lo <= p <= |data| && !Stopped(RunTo(c, data, p).m) && !Waiting(RunTo(c, data, p).m.state)
    ensures PieceFrom(c, data, lo, p) == p
  {
    hide Dispatch;
    if lo < p {
      var m := RunTo(c, data, p - 1).m;
      if !Stopped(m) {
        var m1 := if ParsingHeader(m.state) then Count(m, 1) else m;
        if m1.errno == NoError { DataWaits(m1, data[p - 1], Ahead(data, p - 1)); }
      }
    }
  }

  // ---------------------------------------------------------------------------------------------
  // What a piece consists of

  function WithData(e: Event, s: string): Event {
    match e
    case UrlData(_) => UrlData(s)
    case FieldData(_) => FieldData(s)
    case ValueData(_) => ValueData(s)
    case BodyData(_) => BodyData(s)
    case _ => e
  }

  /** The states in which data of this kind waits. */
  predicate WaitsIn(e: Event, s: State) {
    match e
    case UrlData(_) => InUrl(s)
    case FieldData(_) => s.HeaderField?
    case ValueData(_) => s.HeaderValue?
    case BodyData(_) => s.BodyIdentity? || s.BodyIdentityEof? || s.ChunkData? || s.ChunkDataAlmostDone?
    case _ => false
  }

  /** The data of a step is its byte. */
  predicate OneByteOf(o: Out, ch: char) {
    EndsWithData(o.events) ==>
      var e := o.events[|o.events| - 1];
      e == WithData(e, [ch]) && WaitsIn(e, o.m.state)
  }

  lemma FieldStartIs(m: Machine, ch: char)
    ensures OneByteOf(FieldStartStep(m, ch), ch)
  {
    hide HeadersAlmostDoneStep;
    HeadersDoneData(m.(state := HeadersAlmostDone), ch);
  }

  lemma ValueStartIs(m: Machine, ch: char, h2: bool)
    ensures OneByteOf(ValueStartStep(m, ch, h2), ch)
  {
  }

  lemma LwsIs(m: Machine, ch: char, h2: bool)
    ensures OneByteOf(ValueLwsStep(m, ch, h2), ch)
  {
    hide FieldStartStep, ValueStartStep, OneByteOf;
    forall m1: Machine ensures OneByteOf(FieldStartStep(m1, ch), ch) { FieldStartIs(m1, ch); }
    forall m1: Machine ensures OneByteOf(ValueStartStep(m1, ch, h2), ch) { ValueStartIs(m1, ch, h2); }
    assert OneByteOf(Out(m, []), ch) by { NoDataIs(m, ch); }
  }

  lemma NoDataIs(m: Machine, ch: char)
    ensures OneByteOf(Out(m, []), ch)
  {
  }

  lemma DiscardLwsIs(m: Machine, ch: char)
    ensures OneByteOf(DiscardLwsStep(m, ch), ch)
  {
    hide FieldStartStep;
    var m1 := m.(state := HeaderFieldStart);
    FieldStartIs(m1, ch);
    var o := FieldStartStep(m1, ch);
    if o.events != [] { assert ([ValueData("")] + o.events)[|o.events|] == o.events[|o.events| - 1]; }
  }

  lemma FieldIs(m: Machine, ch: char)
    ensures m.state.HeaderField? ==> OneByteOf(FieldStep(m, ch), ch)
    ensures m.state.HeaderValue? ==> OneByteOf(ValueStep(m, ch), ch)
  {
    hide FieldScan, ValueScan;
  }

  lemma HeaderIs(m: Machine, ch: char, h2: bool)
    requires InHeader(m.state)
    ensures OneByteOf(HeaderStep(m, ch, h2), ch)
  {
    hide FieldStartStep, FieldStep, ValueStartStep, ValueStep, ValueLwsStep, DiscardLwsStep, HeadersDoneStep,
         HeadersAlmostDoneStep, IsData;
    FieldStartIs(m, ch);
    ValueStartIs(m, ch, h2);
    LwsIs(m, ch, h2);
    DiscardLwsIs(m, ch);
    FieldIs(m, ch);
    HeadersDoneData(m, ch);
  }

  lemma LineIs(m: Machine, ch: char)
    requires InRequestLine(m.state)
    ensures OneByteOf(RequestLineStep(m, ch), ch)
  {
    hide ParseUrlChar, VersionStep;
    UrlOrDead(m.state, ch);
    UrlOrDead(ReqServerStart, ch);
    if m.state.ReqMethod? { MethodData(m, ch); }
  }

  lemma ChunkIs(m: Machine, ch: char)
    requires InChunk(m.state)
    ensures OneByteOf(ChunkStep(m, ch), ch)
  {
    hide Unhex, ChunkSizeStep;
  }

  lemma DataIs(m: Machine, ch: char, h2: bool)
    requires m.errno == NoError
    ensures OneByteOf(Dispatch(m, ch, h2), ch)
  {
    hide RequestLineStep, HeaderStep, ChunkStep;
    if InRequestLine(m.state) { LineIs(m, ch); }
    else if InHeader(m.state) { HeaderIs(m, ch, h2); }
    else if InChunk(m.state) { ChunkIs(m, ch); }
  }

  /** Where data waits, more data is of the same kind and comes alone, and an error comes without a callback. */
  lemma DataGoesOn(m: Machine, ch: char, h2: bool)
    requires m.errno == NoError && Waiting(m.state)
    ensures var o := Dispatch(m, ch, h2);
            && (EndsWithData(o.events) ==> |o.events| == 1 && WaitsIn(o.events[0], m.state))
            && (o.m.errno != NoError ==> o.events == [])
  {
    hide HeaderStep, ChunkStep, VersionStep, ParseUrlChar, StartReqStep, MethodStep;
    if m.state.HeaderField? || m.state.HeaderValue? { NameValueGoesOn(m, ch, h2); }
    else if InChunk(m.state) { ChunkGoesOn(m, ch); }
  }

  lemma NameValueGoesOn(m: Machine, ch: char, h2: bool)
    requires m.errno == NoError && (m.state.HeaderField? || m.state.HeaderValue?)
    ensures var o := HeaderStep(m, ch, h2);
            && (EndsWithData(o.events) ==> |o.events| == 1 && WaitsIn(o.events[0], m.state))
            && (o.m.errno != NoError ==> o.events == [])
  {
    hide FieldScan, ValueScan;
  }

  lemma ChunkGoesOn(m: Machine, ch: char)
    requires m.errno == NoError && (m.state.ChunkData? || m.state.ChunkDataAlmostDone?)
    ensures var o := ChunkStep(m, ch);
            && (EndsWithData(o.events) ==> |o.events| == 1 && WaitsIn(o.events[0], m.state))
            && (o.m.errno != NoError ==> o.events == [])
  {
    hide Unhex, ChunkSizeStep;
  }

  /** The same for a step of the run. */
  lemma StepData(c: Conn, data: string, p: nat)
    requires p < |data| && !Stopped(RunTo(c, data, p).m)
    ensures var m, o := RunTo(c, data, p).m, StepAt(c, data, p);
            && OneByteOf(o, data[p])
            && (Waiting(m.state) && EndsWithData(o.events) ==> |o.events| == 1 && WaitsIn(o.events[0], m.state))
            && (Waiting(m.state) && o.m.errno != NoError ==> o.events == [])
  {
    hide Dispatch, IsData, RunTo;
    var m := RunTo(c, data, p).m;
    var m1 := if ParsingHeader(m.state) then Count(m, 1) else m;
    if m1.errno == NoError {
      DataIs(m1, data[p], Ahead(data, p));
      if Waiting(m.state) { DataGoesOn(m1, data[p], Ahead(data, p)); }
    }
  }

  lemma OneKind(e: Event, f: Event, s: State)
    requires WaitsIn(e, s) && WaitsIn(f, s)
    ensures forall t: string :: WithData(e, t) == WithData(f, t)
  {
  }

  lemma DeliverOn(r: Request, e: Event, s: string, t: string)
    requires e.UrlData? || e.FieldData? || e.ValueData? || e.BodyData?
    ensures Apply(Apply(r, WithData(e, s)), WithData(e, t)) == Apply(r, WithData(e, s + t))
  {
    assert r.field + s + t == r.field + (s + t);
    assert r.value + s + t == r.value + (s + t);
    assert r.rawUrl + s + t == r.rawUrl + (s + t);
    assert r.body + s + t == r.body + (s + t);
  }

  /** A run that has gone on at `p` had not stopped before. */
  lemma NotStoppedBefore(c: Conn, data: string, p: nat)
    requires 0 < p <= |data| && !Stopped(RunTo(c, data, p).m)
    ensures !Stopped(RunTo(c, data, p - 1).m)
  {
    hide Dispatch;
  }

  lemma StepApplied(c: Conn, data: string, p: nat)
    requires p < |data|
    ensures RunTo(c, data, p + 1) == Conn(StepAt(c, data, p).m, ApplyAll(RunTo(c, data, p).r, StepAt(c, data, p).events))
  {
    hide Step, ApplyAll;
  }

  /** The bytes of a piece, delivered to the request before it, make the request of the run. */
  lemma {:induction false} PieceIs(c: Conn, data: string, lo: nat, p: nat)
    requires lo <= p <= |data| && !Stopped(RunTo(c, data, p).m) && PieceFrom(c, data, lo, p) < p
    ensures var a := PieceFrom(c, data, lo, p);
            && EndsWithData(StepAt(c, data, a).events)
            && var es := StepAt(c, data, a).events;
               var e := es[|es| - 1];
               WaitsIn(e, RunTo(c, data, p).m.state) && RunTo(c, data, p).r == Apply(Kept(c, data, a), WithData(e, data[a..p]))
  {
    hide RunTo, StepAt, IsData, ApplyAll, Apply, Kept;
    NotStoppedBefore(c, data, p);
    var a, q := PieceFrom(c, data, lo, p), p - 1;
    assert DataByte(c, data, q) && PieceFrom(c, data, lo, q) == a;
    StepData(c, data, q);
    StepApplied(c, data, q);
    var es := StepAt(c, data, q).events;
    var f := es[|es| - 1];
    if a == q {
      FirstOfPiece(c, data, a);
      assert data[a..p] == [data[q]];
    } else {
      PieceIs(c, data, lo, q);
      var e := StepAt(c, data, a).events[|StepAt(c, data, a).events| - 1];
      WaitingIs(e, RunTo(c, data, q).m.state);
      OneKind(e, f, RunTo(c, data, q).m.state);
      assert es == [f];
      ApplyOne(RunTo(c, data, q).r, f);
      DeliverOn(Kept(c, data, a), e, data[a..q], [data[q]]);
      assert data[a..q] + [data[q]] == data[a..p];
      KindIs(e, f, RunTo(c, data, q).m.state, RunTo(c, data, p).m.state);
    }
  }

  lemma WaitingIs(e: Event, s: State)
    requires WaitsIn(e, s)
    ensures Waiting(s) && (e.UrlData? || e.FieldData? || e.ValueData? || e.BodyData?)
  {
  }

  lemma KindIs(e: Event, f: Event, s: State, s1: State)
    requires WaitsIn(e, s) && WaitsIn(f, s) && WaitsIn(f, s1)
    ensures WaitsIn(e, s1)
  {
  }

  lemma FirstOfPiece(c: Conn, data: string, a: nat)
    requires a < |data| && DataByte(c, data, a)
    ensures var es := StepAt(c, data, a).events;
            ApplyAll(RunTo(c, data, a).r, es) == Apply(Kept(c, data, a), es[|es| - 1])
  {
    hide RunTo, StepAt, IsData, Apply;
    var es := StepAt(c, data, a).events;
    var e := es[|es| - 1];
    assert es == Front(es) + [e];
    ApplyAppend(RunTo(c, data, a).r, Front(es), [e]);
    ApplyOne(Kept(c, data, a), e);
  }

  /** A piece that is not empty changes the request. */
  lemma PieceShows(r: Request, e: Event, s: string)
    requires s != "" && (e.UrlData? || e.FieldData? || e.ValueData? || e.BodyData?)
    ensures Apply(r, WithData(e, s)) != r
  {
    assert |r.field + s| > |r.field| && |r.value + s| > |r.value| && |r.rawUrl + s| > |r.rawUrl| && |r.body + s| > |r.body|;
  }

  lemma {:induction false} LaterStart(c: Conn, data: string, lo: nat, mid: nat, p: nat)
    requires lo <= mid <= p <= |data|
    ensures var a := PieceFrom(c, data, lo, p); PieceFrom(c, data, mid, p) == if mid <= a then a else mid
    decreases p
  {
    hide StepAt, IsData;
    if lo < p && DataByte(c, data, p - 1) && mid < p { LaterStart(c, data, lo, mid, p - 1); }
    if mid == p { FromAtMost(c, data, lo, p); }
  }

  lemma FromAtMost(c: Conn, data: string, lo: nat, p: nat)
    requires p <= |data|
    ensures PieceFrom(c, data, lo, p) <= p && PieceFrom(c, data, p, p) == p
  {
  }

  /** Exactly when the beginning of the failing slice matters.  Of two ways to slice a request that fails at byte
      `p`, one with the slice of that byte beginning at `lo` and one at `mid`, both deliver the same if and only if
      the later beginning does not lie inside the piece that byte `p` continues. */
  lemma SlicesAgree(c: Conn, data: string, lo: nat, mid: nat, p: nat)
    requires lo <= mid <= p < |data| && FailsAt(c, data, p)
    ensures FinalAt(c, data, lo, p) == FinalAt(c, data, mid, p) <==> mid <= PieceFrom(c, data, lo, p)
  {
    hide RunTo, StepAt, PieceFrom, Apply, ApplyAll, IsData, Kept, Waiting;
    var a := PieceFrom(c, data, lo, p);
    LaterStart(c, data, lo, mid, p);
    FromAtMost(c, data, lo, p);
    if a < mid {
      PieceIs(c, data, lo, p);
      var e := StepAt(c, data, a).events[|StepAt(c, data, a).events| - 1];
      WaitingIs(e, RunTo(c, data, p).m.state);
      StepData(c, data, p);
      StepApplied(c, data, p);
      assert StepAt(c, data, p).events == [];
      Nothing(RequestAt(c, data, lo, p));
      Nothing(RequestAt(c, data, mid, p));
      PieceShows(Kept(c, data, a), e, data[a..mid]);
      RequestInside(c, data, lo, mid, p);
    }
  }

  lemma Nothing(r: Request)
    ensures ApplyAll(r, []) == r
  {
  }

  /** A slice that begins inside a piece: what was read of the piece before it is in the request. */
  lemma RequestInside(c: Conn, data: string, lo: nat, mid: nat, p: nat)
    requires lo <= mid <= p < |data| && !Stopped(RunTo(c, data, p).m) && PieceFrom(c, data, lo, p) < mid
    ensures var a := PieceFrom(c, data, lo, p);
            && EndsWithData(StepAt(c, data, a).events)
            && var e := StepAt(c, data, a).events[|StepAt(c, data, a).events| - 1];
               RequestAt(c, data, mid, p) == Apply(Kept(c, data, a), WithData(e, data[a..mid]))
  {
    hide RunTo, StepAt, Apply, ApplyAll, IsData;
    var a := PieceFrom(c, data, lo, p);
    LaterStart(c, data, lo, mid, p);
    StartedBefore(c, data, lo, mid, p);
    RunningBefore(c, data, mid, p);
    PieceIs(c, data, lo, mid);
    if mid < p {
      var e := StepAt(c, data, a).events[|StepAt(c, data, a).events| - 1];
      WaitingIs(e, RunTo(c, data, mid).m.state);
      StepData(c, data, mid);
      assert Front(StepAt(c, data, mid).events) == [];
      Nothing(RunTo(c, data, mid).r);
    }
  }

  lemma {:induction false} StartedBefore(c: Conn, data: string, lo: nat, mid: nat, p: nat)
    requires lo <= mid <= p <= |data| && PieceFrom(c, data, lo, p) < mid
    ensures PieceFrom(c, data, lo, mid) == PieceFrom(c, data, lo, p)
    ensures mid < p ==> DataByte(c, data, mid)
    decreases p
  {
    hide StepAt, IsData;
    if mid < p { StartedBefore(c, data, lo, mid, p - 1); }
  }

  lemma {:induction false} RunningBefore(c: Conn, data: string, q: nat, p: nat)
    requires q <= p <= |data| && !Stopped(RunTo(c, data, p).m)
    ensures !Stopped(RunTo(c, data, q).m)
    decreases p
  {
    hide RunTo;
    if q < p {
      NotStoppedBefore(c, data, p);
      RunningBefore(c, data, q, p - 1);
    }
  }
}
