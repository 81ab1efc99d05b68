/** `http_parser_execute` over a buffer, with its mark pointers and bulk-scan loops, proved to
    refine the one-byte machine of HttpMachine. */
module HttpParser {
  import opened Wrappers
  import opened HttpMachine
  import opened HttpRequest
  import opened HttpPieces
  import opened HttpRuns

  /** The mark pointers: where in the current buffer undelivered data begins. */
  datatype Marks = Marks(field: Option<nat>, value: Option<nat>, url: Option<nat>, body: Option<nat>)

  const NO_MARKS := Marks(None, None, None, None)

  /** States in which body data may be waiting for its callback. */
  predicate InBody(s: State) {
    s.BodyIdentity? || s.BodyIdentityEof? || s.ChunkData? || s.ChunkDataAlmostDone?
  }

  predicate MarkFits(mark: Option<nat>, p: nat) {
    mark.Some? ==> mark.value <= p
  }

  /** Which marks are set is determined by the state; in particular at most one of them is. */
  predicate MarksFit(s: State, mk: Marks, p: nat) {
    && (mk.field.Some? <==> s.HeaderField?)
    && (mk.value.Some? <==> s.HeaderValue?)
    && (mk.url.Some? <==> InUrl(s))
    && (mk.body.Some? ==> InBody(s))
    && MarkFits(mk.field, p) && MarkFits(mk.value, p) && MarkFits(mk.url, p) && MarkFits(mk.body, p)
  }

  /** The request once the data waiting behind the marks is delivered. */
  function Pending(r: Request, data: string, mk: Marks, p: nat): Request
    requires p <= |data| && MarkFits(mk.field, p) && MarkFits(mk.value, p) && MarkFits(mk.url, p) && MarkFits(mk.body, p)
  {
    if mk.field.Some? then Apply(r, FieldData(data[mk.field.value..p]))
    else if mk.value.Some? then Apply(r, ValueData(data[mk.value.value..p]))
    else if mk.url.Some? then Apply(r, UrlData(data[mk.url.value..p]))
    else if mk.body.Some? then Apply(r, BodyData(data[mk.body.value..p]))
    else r
  }

  /** Between two buffers: inside a field name the name is being built, inside a value the value is. */
  predicate Settled(m: Machine, r: Request) {
    (m.state.HeaderField? ==> r.building) && (m.state.HeaderValue? ==> !r.building)
  }

  /** Delivering data in two parts is delivering it at once. */
  lemma DeliverTwice(r: Request, a: string, b: string)
    ensures Apply(Apply(r, FieldData(a)), FieldData(b)) == Apply(r, FieldData(a + b))
    ensures Apply(Apply(r, ValueData(a)), ValueData(b)) == Apply(r, ValueData(a + b))
    ensures Apply(Apply(r, UrlData(a)), UrlData(b)) == Apply(r, UrlData(a + b))
    ensures Apply(Apply(r, BodyData(a)), BodyData(b)) == Apply(r, BodyData(a + b))
  {
    assert r.field + a + b == r.field + (a + b);
    assert r.value + a + b == r.value + (a + b);
    assert r.rawUrl + a + b == r.rawUrl + (a + b);
    assert r.body + a + b == r.body + (a + b);
  }

  /** One more byte behind the mark that is set. */
  lemma PendingGrows(r: Request, data: string, mk: Marks, p: nat, q: nat)
    requires p <= q <= |data| && MarkFits(mk.field, p) && MarkFits(mk.value, p) && MarkFits(mk.url, p) && MarkFits(mk.body, p)
    ensures Pending(r, data, mk, q)
         == (if mk.field.Some? then Apply(Pending(r, data, mk, p), FieldData(data[p..q]))
             else if mk.value.Some? then Apply(Pending(r, data, mk, p), ValueData(data[p..q]))
             else if mk.url.Some? then Apply(Pending(r, data, mk, p), UrlData(data[p..q]))
             else if mk.body.Some? then Apply(Pending(r, data, mk, p), BodyData(data[p..q]))
             else r)
  {
    var i := if mk.field.Some? then mk.field.value else if mk.value.Some? then mk.value.value
             else if mk.url.Some? then mk.url.value else if mk.body.Some? then mk.body.value else p;
    assert data[i..q] == data[i..p] + data[p..q];
    DeliverTwice(r, data[i..p], data[p..q]);
  }

  /** States in which a mark is set. */
  predicate Marked(s: State) {
    s.HeaderField? || s.HeaderValue? || InUrl(s)
  }

  lemma VersionUnmarked(m: Machine, ch: char)
    requires InVersion(m.state)
    ensures !Marked(VersionStep(m, ch).state)
  {
  }

  lemma UrlStaysMarked(m: Machine, ch: char)
    ensures UrlByte(m, ch).m.errno == m.errno ==>
              m.errno == InvalidUrl || (InUrl(UrlByte(m, ch).m.state) && UrlByte(m, ch).events == [UrlData([ch])])
  {
  }

  lemma MethodUnmarked(m: Machine, ch: char)
    requires m.state.ReqMethod?
    ensures !Marked(MethodStep(m, ch).m.state)
  {
  }

  lemma LineUnmarked(m: Machine, ch: char)
    requires InRequestLine(m.state) && !m.state.ReqSpacesBeforeUrl? && !InUrl(m.state)
    ensures !Marked(RequestLineStep(m, ch).m.state)
  {
    if InVersion(m.state) { VersionUnmarked(m, ch); }
    else if m.state.ReqMethod? { MethodUnmarked(m, ch); }
  }

  lemma ChunkUnmarked(m: Machine, ch: char)
    requires InChunk(m.state) && !m.state.ChunkData?
    ensures !Marked(ChunkStep(m, ch).m.state)
  {
    hide Unhex, ChunkSizeStep;
    if m.state.ChunkSize? { ChunkSizeUnmarked(m, ch); }
  }

  lemma ChunkSizeUnmarked(m: Machine, ch: char)
    requires m.state.ChunkSize?
    ensures !Marked(ChunkSizeStep(m, ch).state)
  {
    hide Unhex;
  }

  lemma HeadersDoneUnmarked(m: Machine, ch: char)
    requires !Marked(m.state)
    ensures !Marked(HeadersDoneStep(m, ch).m.state)
    ensures !Marked(HeadersAlmostDoneStep(m, ch).m.state)
  {
  }

  /** A scan as long as the header limit leaves no room for the next byte. */
  lemma LimitReached(c: Conn, data: string, q: nat, m: Machine, r: Request, mk: Marks, n: nat)
    requires q < |data| && !Stopped(m) && m.state.HeaderValue? && MarksFit(m.state, mk, q)
    requires Tracks(c, data, q, m, r, mk, n) && n >= m.config.maxHeaderSize
    ensures Tracks(c, data, q + 1, m, r, mk, n + 1)
  {
    hide Dispatch, RunTo, Pending;
    if n > m.config.maxHeaderSize {
      StoppedStays(c, data, q, q + 1);
    } else {
      OneStep(c, data, q, m.(nread := n), Pending(r, data, mk, q));
    }
  }

  /** The machine after `q` bytes, when a bulk scan has come that far: it is `m` except that all `n`
      header bytes are counted already.  Past the header limit nothing but the overflow is known. */
  ghost predicate Tracks(c: Conn, data: string, q: nat, m: Machine, r: Request, mk: Marks, n: nat)
    requires q <= |data| && MarksFit(m.state, mk, q)
  {
    if n > m.config.maxHeaderSize then RunTo(c, data, q).m.errno == HeaderOverflow
    else RunTo(c, data, q) == Conn(m.(nread := n), Pending(r, data, mk, q)) && r == RequestAt(c, data, 0, q)
  }

  /** An error of the scanning call: the machine reports the same one, or had met the header limit before.  Short of
      the limit the error is at byte `q - 1`, and what has been delivered is known. */
  ghost predicate SameError(c: Conn, data: string, q: nat, e: Errno, r: Request)
    requires q <= |data|
  {
    && e != NoError && (RunTo(c, data, q).m.errno == e || RunTo(c, data, q).m.errno == HeaderOverflow)
    && (RunTo(c, data, q).m.errno != HeaderOverflow ==> FailedAt(c, data, q, r))
  }

  ghost predicate FailedAt(c: Conn, data: string, q: nat, r: Request)
    requires q <= |data|
  {
    q > 0 && FailsAt(c, data, q - 1) && r == FinalAt(c, data, 0, q - 1)
  }

  /** The byte at `q - 1` fails without a callback. */
  lemma FailsQuietly(c: Conn, data: string, q: nat, r: Request)
    requires 0 < q <= |data| && !Stopped(RunTo(c, data, q - 1).m) && r == RequestAt(c, data, 0, q - 1)
    requires RunTo(c, data, q).m.errno != NoError && StepAt(c, data, q - 1).events == []
    ensures FailedAt(c, data, q, r)
  {
    hide RunTo, StepAt, RequestAt;
  }

  /** A byte without a callback ends a piece: it is delivered, or fails. */
  lemma ByteDelivers(c: Conn, data: string, q: nat, r: Request)
    requires q < |data| && !Stopped(RunTo(c, data, q).m) && r == RequestAt(c, data, 0, q)
    requires StepAt(c, data, q).events == []
    ensures RequestAt(c, data, 0, q + 1) == RunTo(c, data, q + 1).r
    ensures RunTo(c, data, q + 1).m.errno != NoError ==> FailedAt(c, data, q + 1, r)
  {
    hide RunTo, StepAt, RequestAt, FailedAt;
    OtherDelivers(c, data, 0, q);
    if RunTo(c, data, q + 1).m.errno != NoError { FailsQuietly(c, data, q + 1, r); }
  }

  /** A token character inside a field name, with the name so far behind its mark. */
  lemma FieldByteMarked(c: Conn, data: string, q: nat, m: Machine, r: Request, mk: Marks, n: nat)
    requires q < |data| && !Stopped(m) && m.state.HeaderField? && MarksFit(m.state, mk, q)
    requires Tracks(c, data, q, m, r, mk, n) && IsToken(data[q])
    ensures var m1 := FieldChar(m, data[q]);
            && m1.nread == m.nread && m1.state == m.state && m1.halted == m.halted && m1.config == m.config
            && (if m1.errno != NoError then SameError(c, data, q + 1, m1.errno, r)
                else Tracks(c, data, q + 1, m1, r, mk, n + 1))
    ensures m.scan.state.HGeneral? ==> FieldChar(m, data[q]) == m
  {
    hide FieldScan, Dispatch, RunTo, RequestAt, StepAt, FailedAt, Apply;
    FieldCharNread(m, data[q], 0);
    if m.scan.state.HGeneral? { GeneralName(m, data[q]); }
    if n > m.config.maxHeaderSize {
      StoppedStays(c, data, q, q + 1);
    } else {
      FieldByte(c, data, q, m, Pending(r, data, mk, q), n);
      PendingGrows(r, data, mk, q, q + 1);
      assert data[q..q + 1] == [data[q]];
      if n < m.config.maxHeaderSize {
        if FieldChar(m, data[q]).errno != NoError { FailsQuietly(c, data, q + 1, r); }
        else { OneDataByte(c, data, q); }
      }
    }
  }

  /** A byte inside a header value, with the value so far behind its mark. */
  lemma ValueByteMarked(c: Conn, data: string, q: nat, m: Machine, r: Request, mk: Marks, n: nat)
    requires q < |data| && !Stopped(m) && m.state.HeaderValue? && MarksFit(m.state, mk, q)
    requires Tracks(c, data, q, m, r, mk, n) && data[q] != CR && data[q] != LF
    ensures !m.config.lenient && !IsHeaderChar(data[q]) ==> SameError(c, data, q + 1, InvalidHeaderToken, r)
    ensures m.config.lenient || IsHeaderChar(data[q]) ==>
              var m1 := ValueChar(m, data[q]);
              && m1.nread == m.nread && m1.state == m.state && m1.halted == m.halted && m1.config == m.config
              && (if m1.errno != NoError then SameError(c, data, q + 1, m1.errno, r)
                  else Tracks(c, data, q + 1, m1, r, mk, n + 1))
    ensures m.scan.state.HGeneral? ==> ValueChar(m, data[q]) == m
  {
    hide ValueScan, Dispatch, RunTo, RequestAt, StepAt, FailedAt, Apply;
    ValueCharNread(m, data[q], 0);
    if m.scan.state.HGeneral? { GeneralValue(m, data[q]); }
    if n > m.config.maxHeaderSize {
      StoppedStays(c, data, q, q + 1);
    } else {
      ValueByte(c, data, q, m, Pending(r, data, mk, q), n);
      PendingGrows(r, data, mk, q, q + 1);
      assert data[q..q + 1] == [data[q]];
      if n < m.config.maxHeaderSize {
        if StepAt(c, data, q).events == [] { FailsQuietly(c, data, q + 1, r); }
        else { OneDataByte(c, data, q); }
      }
    }
  }

  class HttpParser {
    var m: Machine
    var r: Request

    constructor (config: Config)
      ensures m == Init(config) && r == EMPTY_REQUEST
    {
      m := Init(config);
      r := EMPTY_REQUEST;
    }

    /** This object is where the step `o`, begun with request `before`, leads. */
    ghost predicate Reached(o: Out, before: Request, data: string, mk: Marks, p: nat)
      requires p <= |data|
      reads this
    {
      && m.errno == o.m.errno
      && (m.errno == NoError ==>
            && m == o.m
            && (if m.halted then r == ApplyAll(before, o.events)
                else MarksFit(m.state, mk, p) && Pending(r, data, mk, p) == ApplyAll(before, o.events)))
    }

    /** What the object's request is after the step `o`: a piece that begins or goes on with this byte is not
        delivered, everything else is.  `was` is the request before, and `before` that with what was pending. */
    ghost predicate Left(o: Out, was: Request, before: Request)
      reads this
    {
      if m.errno != NoError then r == ApplyAll(was, o.events)
      else if Marked(m.state) then EndsWithData(o.events) && r == ApplyAll(was, Front(o.events))
      else r == ApplyAll(before, o.events)
    }

    lemma ReachedAfter(o: Out, before: Request, e: Event, data: string, mk: Marks, p: nat)
      requires p <= |data| && Reached(o, Apply(before, e), data, mk, p)
      requires Left(o, Apply(before, e), Apply(before, e))
      ensures Reached(Out(o.m, [e] + o.events), before, data, mk, p)
      ensures Left(Out(o.m, [e] + o.events), before, before)
    {
      var es := [e] + o.events;
      assert es[1..] == o.events;
      if o.events != [] {
        assert es[|es| - 1] == o.events[|o.events| - 1];
        assert Front(es) == [e] + Front(o.events);
        assert Front(es)[1..] == Front(o.events);
      }
    }

    /** Run the callbacks of a step that delivers no marked data. */
    method Notify(o: Out)
      modifies this
      ensures m == o.m && r == ApplyAll(old(r), o.events)
    {
      m := o.m;
      var i := 0;
      while i < |o.events|
        invariant 0 <= i <= |o.events|
        invariant ApplyAll(r, o.events[i..]) == ApplyAll(old(r), o.events)
        invariant m == o.m
      {
        r := Apply(r, o.events[i]);
        i := i + 1;
      }
    }

    /** A byte in one of the states that neither set nor clear a mark. */
    method PlainByte(o: Out, data: string, p: nat)
      requires p <= |data| && !Marked(o.m.state)
      modifies this
      ensures Reached(o, old(r), data, NO_MARKS, p) && Left(o, old(r), old(r))
    {
      Notify(o);
    }

    method UrlEnd(data: string, p: nat, mk: Marks, next: State) returns (mk1: Marks)
      requires p < |data| && !Stopped(m) && InUrl(m.state) && !Marked(next)
      requires MarksFit(m.state, mk, p)
      modifies this
      ensures mk1 == NO_MARKS && m == old(m).(state := next) && r == Pending(old(r), data, mk, p)
    {
      m := m.(state := next);
      r := Apply(r, UrlData(data[mk.url.value..p]));
      mk1 := mk.(url := None);
    }

    method UrlChar(data: string, p: nat, mk: Marks) returns (mk1: Marks)
      requires p < |data| && !Stopped(m)
      requires mk == NO_MARKS || mk == NO_MARKS.(url := mk.url)
      requires MarkFits(mk.url, p)
      modifies this
      ensures Reached(UrlByte(old(m), data[p]), Pending(old(r), data, mk, p), data, mk1, p + 1)
      ensures Left(UrlByte(old(m), data[p]), old(r), Pending(old(r), data, mk, p))
    {
      mk1 := if mk.url.None? then mk.(url := Some(p)) else mk;
      PendingGrows(r, data, mk1, p, p + 1);
      assert data[p..p + 1] == [data[p]];
      UrlStaysMarked(m, data[p]);
      m := UrlByte(m, data[p]).m;
    }

    method UrlStates(data: string, p: nat, mk: Marks) returns (mk1: Marks)
      requires p < |data| && !Stopped(m)
      requires m.state.ReqSpacesBeforeUrl? || InUrl(m.state)
      requires MarksFit(m.state, mk, p)
      modifies this
      ensures Reached(UrlStep(old(m), data[p]), Pending(old(r), data, mk, p), data, mk1, p + 1)
      ensures Left(UrlStep(old(m), data[p]), old(r), Pending(old(r), data, mk, p))
    {
      var ch := data[p];
      if m.state.ReqSpacesBeforeUrl? && ch == ' ' {
        mk1 := mk;
      } else if UrlMayEnd(m.state) && ch == ' ' {
        mk1 := UrlEnd(data, p, mk, ReqHttpStart);
      } else if UrlMayEnd(m.state) && (ch == CR || ch == LF) {
        mk1 := mk;
        if !m.httpMethod.GET? {
          m := Fail(m.(state := Dead), InvalidVersion);
        } else {
          mk1 := UrlEnd(data, p, mk, if ch == CR then ReqLineAlmostDone else HeaderFieldStart);
          m := m.(httpMajor := 0, httpMinor := 9);
        }
      } else {
        if m.state.ReqSpacesBeforeUrl? && m.httpMethod.CONNECT? { m := m.(state := ReqServerStart); }
        mk1 := UrlChar(data, p, mk);
      }
    }

    method FieldStart(data: string, p: nat) returns (mk1: Marks)
      requires p < |data| && !Stopped(m) && m.state.HeaderFieldStart?
      modifies this
      ensures Reached(FieldStartStep(old(m), data[p]), old(r), data, mk1, p + 1)
      ensures Left(FieldStartStep(old(m), data[p]), old(r), old(r))
    {
      mk1 := NO_MARKS;
      if data[p] == CR || data[p] == LF {
        Notify(FieldStartStep(m, data[p]));
      } else {
        m := FieldStartStep(m, data[p]).m;
        if m.errno == NoError { mk1 := mk1.(field := Some(p)); }
      }
    }

    method ValueStartByte(data: string, p: nat) returns (mk1: Marks)
      requires p < |data| && !Stopped(m)
      modifies this
      ensures Reached(ValueStartStep(old(m), data[p], Ahead(data, p)), old(r), data, mk1, p + 1)
      ensures Left(ValueStartStep(old(m), data[p], Ahead(data, p)), old(r), old(r))
    {
      mk1 := NO_MARKS.(value := Some(p));
      m := ValueStartStep(m, data[p], Ahead(data, p)).m;
    }

    /** s_header_value_discard_ws, which falls through to s_header_value_start, and s_header_value_start. */
    method DiscardWs(data: string, p: nat) returns (mk1: Marks)
      requires p < |data| && !Stopped(m) && m.state.ValueDiscardWs?
      modifies this
      ensures Reached(DiscardWsStep(old(m), data[p], Ahead(data, p)), old(r), data, mk1, p + 1)
      ensures Left(DiscardWsStep(old(m), data[p], Ahead(data, p)), old(r), old(r))
    {
      mk1 := NO_MARKS;
      var ch := data[p];
      if ch == ' ' || ch == '\t' {
      } else if ch == CR {
        m := m.(state := ValueDiscardWsAlmostDone);
      } else if ch == LF {
        m := m.(state := ValueDiscardLws);
      } else {
        mk1 := ValueStartByte(data, p);
      }
    }

    method DiscardLws(data: string, p: nat) returns (mk1: Marks)
      requires p < |data| && !Stopped(m) && m.state.ValueDiscardLws?
      modifies this
      ensures Reached(DiscardLwsStep(old(m), data[p]), old(r), data, mk1, p + 1)
      ensures Left(DiscardLwsStep(old(m), data[p]), old(r), old(r))
    {
      if data[p] == ' ' || data[p] == '\t' {
        m := m.(state := ValueDiscardWs);
        mk1 := NO_MARKS;
      } else {
        m := m.(state := HeaderFieldStart);
        ghost var o, before := FieldStartStep(m, data[p]), r;
        r := Apply(r, ValueData(data[p..p]));
        mk1 := FieldStart(data, p);
        assert data[p..p] == "";
        ReachedAfter(o, before, ValueData(""), data, mk1, p + 1);
      }
    }

    method ValueLwsByte(data: string, p: nat) returns (mk1: Marks)
      requires p < |data| && !Stopped(m) && m.state.ValueLws?
      modifies this
      ensures Reached(ValueLwsStep(old(m), data[p], Ahead(data, p)), old(r), data, mk1, p + 1)
      ensures Left(ValueLwsStep(old(m), data[p], Ahead(data, p)), old(r), old(r))
    {
      if data[p] == ' ' || data[p] == '\t' {
        if m.scan.state.HContentLengthNum? { m := m.(scan := m.scan.(state := HContentLengthWs)); }
        m := m.(state := ValueStart);
        mk1 := ValueStartByte(data, p);
      } else {
        if m.scan.state.HKeepAlive? { m := m.(flags := m.flags.(keepAlive := true)); }
        else if m.scan.state.HClose? { m := m.(flags := m.flags.(close := true)); }
        else if m.scan.state.HTeChunked? { m := m.(flags := m.flags.(chunked := true)); }
        m := m.(state := HeaderFieldStart);
        mk1 := FieldStart(data, p);
      }
    }

    /** This object is where the first `p` bytes of the buffer lead, one step per byte. */
    ghost predicate At(c: Conn, data: string, p: nat, mk: Marks)
      requires p <= |data|
      reads this
    {
      && !Stopped(m) && MarksFit(m.state, mk, p) && RunTo(c, data, p) == Conn(m, Pending(r, data, mk, p))
      && r == RequestAt(c, data, 0, p)
    }

    /** The same, when the call may have ended: on an error only the errno is compared. */
    ghost predicate Now(c: Conn, data: string, p: nat, mk: Marks)
      requires p <= |data|
      reads this
    {
      if m.errno != NoError then SameError(c, data, p, m.errno, r)
      else if m.halted then RunTo(c, data, p) == Conn(m, r)
      else At(c, data, p, mk)
    }

    /** A bulk scan that began at byte `p`, counted already, has come to `q`. */
    ghost predicate Scanning(c: Conn, data: string, p: nat, q: nat, mk: Marks, base: nat, limit: nat)
      requires p <= q <= |data|
      reads this
    {
      && !Stopped(m) && MarksFit(m.state, mk, p)
      && m.nread == base + 1 <= limit == m.config.maxHeaderSize
      && Tracks(c, data, q, m, r, mk, base + (q - p))
    }

    /** The inner loop for a name that is no longer compared with a keyword: it looks one byte ahead. */
    method FieldRest(data: string, p: nat, q0: nat, mk: Marks, ghost c: Conn, ghost base: nat, ghost limit: nat)
      returns (q: nat)
      requires p <= q0 < |data| && m.state.HeaderField? && m.scan.state.HGeneral?
      requires Scanning(c, data, p, q0 + 1, mk, base, limit)
      ensures q0 <= q < |data| && Scanning(c, data, p, q + 1, mk, base, limit)
    {
      hide FieldChar, Dispatch, RunTo, Pending;
      var left := |data| - q0;
      var pe := q0 + if left < m.config.maxHeaderSize then left else m.config.maxHeaderSize;
      q := q0;
      while q + 1 < pe && IsToken(data[q + 1])
        invariant q0 <= q < |data|
        invariant Scanning(c, data, p, q + 1, mk, base, limit)
      {
        FieldByteMarked(c, data, q + 1, m, r, mk, base + (q + 1 - p));
        q := q + 1;
      }
    }

    /** After the scan: the buffer is used up, or the byte at `q0` ends the name. */
    method FieldDone(data: string, p: nat, q0: nat, mk: Marks, ghost c: Conn, ghost base: nat, ghost limit: nat)
      returns (q: nat, mk1: Marks)
      requires p <= q0 <= |data| && p < |data| && m.state.HeaderField?
      requires q0 < |data| ==> !IsToken(data[q0])
      requires Scanning(c, data, p, q0, mk, base, limit)
      modifies this
      ensures p < q <= |data| && Now(c, data, q, mk1)
    {
      hide Dispatch, RunTo, RequestAt, StepAt, FailedAt;
      mk1 := mk;
      q := q0;
      if q == |data| {
        m := Count(m, q - 1 - p);
      } else {
        if base + (q - p) <= limit {
          FieldEnd(c, data, q, m, Pending(r, data, mk, q), base + (q - p));
          if base + (q - p) < limit { ByteDelivers(c, data, q, r); }
        } else {
          StoppedStays(c, data, q, q + 1);
        }
        m := Count(m, q - p);
        if m.errno == NoError {
          if data[q] == ':' {
            m := m.(state := ValueDiscardWs);
            r := Apply(r, FieldData(data[mk.field.value..q]));
            mk1 := mk.(field := None);
          } else {
            m := Fail(m, InvalidHeaderToken);
          }
        }
        q := q + 1;
      }
    }

    /** The scanning loop of s_header_field.  Byte `p` is already counted against the header limit. */
    method FieldLoop(data: string, p: nat, mk: Marks, ghost c: Conn) returns (q: nat, mk1: Marks)
      requires p < |data| && m.state.HeaderField? && m.nread >= 1
      requires Scanning(c, data, p, p, mk, m.nread - 1, m.config.maxHeaderSize)
      modifies this
      ensures p < q <= |data| && Now(c, data, q, mk1)
    {
      hide FieldChar, Dispatch, RunTo, Pending, Tracks;
      mk1 := mk;
      q := p;
      ghost var base, limit := m.nread - 1, m.config.maxHeaderSize;
      while q < |data| && IsToken(data[q])
        invariant p <= q <= |data| && m.state.HeaderField?
        invariant Scanning(c, data, p, q, mk, base, limit)
      {
        FieldByteMarked(c, data, q, m, r, mk, base + (q - p));
        var general := m.scan.state.HGeneral?;
        m := FieldChar(m, data[q]);
        if m.errno != NoError {
          q := q + 1;
          return;
        }
        if general {
          q := FieldRest(data, p, q, mk, c, base, limit);
        }
        q := q + 1;
      }
      q, mk1 := FieldDone(data, p, q, mk, c, base, limit);
    }

    /** The inner loop for a value that is no longer compared with a keyword.  It ends at a line end, at the
        end of the buffer, on an error, or at `pe`; there the outer loop passes over a byte unseen, but by
        then the header limit is exceeded. */
    method ValueRest(data: string, p: nat, q0: nat, mk: Marks, ghost c: Conn, ghost base: nat, ghost limit: nat)
      returns (q: nat)
      requires p <= q0 < |data| && m.state.HeaderValue? && m.scan.state.HGeneral?
      requires data[q0] != CR && data[q0] != LF
      requires m.config.lenient || IsHeaderChar(data[q0])
      requires Scanning(c, data, p, q0, mk, base, limit)
      modifies this
      ensures q0 < q <= |data|
      ensures m.errno != NoError ==> SameError(c, data, q, m.errno, r)
      ensures m.errno == NoError ==> m.state.HeaderValue? && Scanning(c, data, p, q, mk, base, limit)
    {
      hide ValueChar, Dispatch, RunTo, Pending, Tracks;
      var left := |data| - q0;
      var pe := q0 + if left < m.config.maxHeaderSize then left else m.config.maxHeaderSize;
      q := q0;
      while q < pe && data[q] != CR && data[q] != LF
        invariant q0 <= q <= pe <= |data|
        invariant m == old(m) && r == old(r)
        invariant q == q0 ==> data[q] != CR && data[q] != LF
        invariant Scanning(c, data, p, q, mk, base, limit)
      {
        ValueByteMarked(c, data, q, m, r, mk, base + (q - p));
        if !m.config.lenient && !IsHeaderChar(data[q]) {
          m := Fail(m, InvalidHeaderToken);
          q := q + 1;
          return;
        }
        q := q + 1;
      }
      if q == pe && q < |data| {
        LimitReached(c, data, q, m, r, mk, base + (q - p));
        q := q + 1;
      }
    }

    /** The line end at `q` closes the value. */
    method ValueDone(data: string, p: nat, q: nat, mk: Marks, ghost c: Conn, ghost base: nat, ghost limit: nat)
      returns (mk1: Marks)
      requires p <= q < |data| && m.state.HeaderValue?
      requires data[q] == CR || data[q] == LF
      requires Scanning(c, data, p, q, mk, base, limit)
      modifies this
      ensures Now(c, data, q + 1, mk1)
    {
      hide Dispatch, RunTo, RequestAt, StepAt, FailedAt;
      if base + (q - p) <= limit {
        ValueEnd(c, data, q, m, Pending(r, data, mk, q), base + (q - p));
        if base + (q - p) < limit { ByteDelivers(c, data, q, r); }
      } else {
        StoppedStays(c, data, q, q + 1);
      }
      m := Count(m.(state := HeaderAlmostDone), q - p);
      r := Apply(r, ValueData(data[mk.value.value..q]));
      mk1 := mk.(value := None);
      if m.errno == NoError && data[q] == LF { m := HeaderAlmostDoneStep(m, data[q]); }
    }

    /** The scanning loop of s_header_value.  Byte `p` is already counted against the header limit. */
    method ValueLoop(data: string, p: nat, mk: Marks, ghost c: Conn) returns (q: nat, mk1: Marks)
      requires p < |data| && m.state.HeaderValue? && m.nread >= 1
      requires Scanning(c, data, p, p, mk, m.nread - 1, m.config.maxHeaderSize)
      modifies this
      ensures p < q <= |data| && Now(c, data, q, mk1)
    {
      hide ValueChar, Dispatch, RunTo, Pending, Tracks;
      mk1 := mk;
      q := p;
      ghost var base, limit := m.nread - 1, m.config.maxHeaderSize;
      while q < |data|
        invariant p <= q <= |data| && m.state.HeaderValue?
        invariant Scanning(c, data, p, q, mk, base, limit)
      {
        if data[q] == CR || data[q] == LF {
          mk1 := ValueDone(data, p, q, mk, c, base, limit);
          q := q + 1;
          return;
        }
        ValueByteMarked(c, data, q, m, r, mk, base + (q - p));
        if !m.config.lenient && !IsHeaderChar(data[q]) {
          m := Fail(m, InvalidHeaderToken);
          q := q + 1;
          return;
        }
        if m.scan.state.HGeneral? {
          q := ValueRest(data, p, q, mk, c, base, limit);
        } else {
          m := ValueChar(m, data[q]);
          q := q + 1;
        }
        if m.errno != NoError { return; }
      }
      mk1 := ValuePaused(data, p, mk, c, base, limit);
    }

    /** The buffer ends inside the value. */
    method ValuePaused(data: string, p: nat, mk: Marks, ghost c: Conn, ghost base: nat, ghost limit: nat)
      returns (mk1: Marks)
      requires p < |data| && m.state.HeaderValue?
      requires Scanning(c, data, p, |data|, mk, base, limit)
      modifies this
      ensures Now(c, data, |data|, mk1)
    {
      hide RunTo;
      m := Count(m, |data| - 1 - p);
      mk1 := mk;
    }

    /** s_body_identity: as much of the body as this buffer holds. */
    method BodyRun(data: string, p: nat, mk: Marks, ghost c: Conn) returns (q: nat, mk1: Marks)
      requires p < |data| && m.state.BodyIdentity? && At(c, data, p, mk)
      modifies this
      ensures p < q <= |data| && Now(c, data, q, mk1)
    {
      hide Dispatch, RunTo, Pending;
      if m.contentLength == 0 || m.contentLength == ULLONG_MAX {
        OneStep(c, data, p, m, Pending(r, data, mk, p));
        DispatchIs(m, data[p], Ahead(data, p));
        m := Fail(m, AssertFailed);
        q, mk1 := p + 1, mk;
      } else if m.contentLength <= |data| - p {
        q := p + m.contentLength;
        mk1 := BodyLast(data, p, mk, c);
      } else {
        q := |data|;
        mk1 := BodyPart(data, p, mk, c);
      }
    }

    /** The rest of the body is in this buffer. */
    method BodyLast(data: string, p: nat, mk: Marks, ghost c: Conn) returns (mk1: Marks)
      requires p < |data| && m.state.BodyIdentity? && At(c, data, p, mk)
      requires 0 < m.contentLength < ULLONG_MAX && p + m.contentLength <= |data|
      modifies this
      ensures Now(c, data, p + old(m.contentLength), mk1)
    {
      hide Dispatch, RunTo, Apply;
      var q := p + m.contentLength;
      BodyToEnd(c, data, p, m, Pending(r, data, mk, p));
      mk1 := DeliverBody(data, p, q, mk);
      m := m.(contentLength := 0, state := MessageDone);
      r := Apply(r, MessageComplete);
    }

    /** The body callback for the bytes from the mark, or from `p` if none is set, up to `q`. */
    method DeliverBody(data: string, p: nat, q: nat, mk: Marks) returns (mk1: Marks)
      requires p <= q <= |data| && MarksFit(m.state, mk, p) && InBody(m.state)
      modifies this
      ensures m == old(m) && mk1 == NO_MARKS
      ensures r == Apply(Pending(old(r), data, mk, p), BodyData(data[p..q]))
    {
      mk1 := if mk.body.None? then mk.(body := Some(p)) else mk;
      PendingGrows(r, data, mk1, p, q);
      NoBody(r, data, p);
      r := Apply(r, BodyData(data[mk1.body.value..q]));
      mk1 := mk1.(body := None);
    }

    /** The buffer ends inside the body. */
    method BodyPart(data: string, p: nat, mk: Marks, ghost c: Conn) returns (mk1: Marks)
      requires p < |data| && m.state.BodyIdentity? && At(c, data, p, mk)
      requires |data| - p < m.contentLength < ULLONG_MAX
      modifies this
      ensures Now(c, data, |data|, mk1)
    {
      hide Dispatch, RunTo;
      var toRead := |data| - p;
      BodyBytes(c, data, p, toRead, m, Pending(r, data, mk, p));
      mk1 := if mk.body.None? then mk.(body := Some(p)) else mk;
      PendingGrows(r, data, mk1, p, |data|);
      m := m.(contentLength := m.contentLength - toRead);
    }

    /** s_body_identity_eof: everything up to the end of the buffer. */
    method EofRun(data: string, p: nat, mk: Marks, ghost c: Conn) returns (mk1: Marks)
      requires p < |data|
      requires m.state.BodyIdentityEof? && At(c, data, p, mk)
      modifies this
      ensures Now(c, data, |data|, mk1)
    {
      hide Dispatch, RunTo, RequestAt, StepAt, FailedAt, Apply;
      EofBytes(c, data, p, |data| - p, m, Pending(r, data, mk, p));
      mk1 := if mk.body.None? then mk.(body := Some(p)) else mk;
      PendingGrows(r, data, mk1, p, |data|);
    }

    /** s_chunk_data: as much of the chunk as this buffer holds. */
    method ChunkRun(data: string, p: nat, mk: Marks, ghost c: Conn) returns (q: nat, mk1: Marks)
      requires p < |data|
      requires m.state.ChunkData? && At(c, data, p, mk)
      modifies this
      ensures p < q <= |data| && Now(c, data, q, mk1)
    {
      hide Dispatch, RunTo, RequestAt, StepAt, FailedAt, Apply;
      mk1 := mk;
      if !m.flags.chunked || m.contentLength == 0 || m.contentLength == ULLONG_MAX {
        OneStep(c, data, p, m, Pending(r, data, mk, p));
        DispatchIs(m, data[p], Ahead(data, p));
        FailsQuietly(c, data, p + 1, r);
        m := Fail(m, AssertFailed);
        q := p + 1;
        return;
      }
      var left := |data| - p;
      var toRead := if m.contentLength < left then m.contentLength else left;
      q := p + toRead;
      ChunkBytes(c, data, p, toRead, m, Pending(r, data, mk, p));
      mk1 := if mk.body.None? then mk.(body := Some(p)) else mk;
      PendingGrows(r, data, mk1, p, q);
      m := m.(contentLength := m.contentLength - toRead);
      if m.contentLength == 0 { m := m.(state := ChunkDataAlmostDone); }
    }

    /** s_chunk_data_almost_done delivers the chunk. */
    method ChunkDelivered(data: string, p: nat, mk: Marks) returns (mk1: Marks)
      requires p < |data| && !Stopped(m) && m.state.ChunkDataAlmostDone? && MarksFit(m.state, mk, p)
      modifies this
      ensures Reached(ChunkStep(old(m), data[p]), Pending(old(r), data, mk, p), data, mk1, p + 1)
      ensures Left(ChunkStep(old(m), data[p]), old(r), Pending(old(r), data, mk, p))
    {
      mk1 := mk;
      if !m.flags.chunked || m.contentLength != 0 {
        m := Fail(m, AssertFailed);
      } else if data[p] != CR {
        m := Fail(m, Strict);
      } else {
        m := m.(state := ChunkDataDone);
        if mk.body.Some? { r := Apply(r, BodyData(data[mk.body.value..p])); }
        mk1 := mk.(body := None);
      }
    }

    method LineByte(data: string, p: nat, mk: Marks) returns (mk1: Marks)
      requires p < |data| && !Stopped(m) && InRequestLine(m.state) && MarksFit(m.state, mk, p)
      modifies this
      ensures Reached(RequestLineStep(old(m), data[p]), Pending(old(r), data, mk, p), data, mk1, p + 1)
      ensures Left(RequestLineStep(old(m), data[p]), old(r), Pending(old(r), data, mk, p))
    {
      if m.state.ReqSpacesBeforeUrl? || InUrl(m.state) {
        hide UrlStep, VersionStep, MethodStep, StartReqStep;
        mk1 := UrlStates(data, p, mk);
      } else {
        LineUnmarked(m, data[p]);
        hide RequestLineStep;
        PlainByte(RequestLineStep(m, data[p]), data, p + 1);
        mk1 := NO_MARKS;
      }
    }

    method HeaderByte(data: string, p: nat) returns (mk1: Marks)
      requires p < |data| && !Stopped(m) && InHeader(m.state) && !m.state.HeaderField? && !m.state.HeaderValue?
      modifies this
      ensures Reached(HeaderStep(old(m), data[p], Ahead(data, p)), old(r), data, mk1, p + 1)
      ensures Left(HeaderStep(old(m), data[p], Ahead(data, p)), old(r), old(r))
    {
      hide FieldStartStep, FieldStep, DiscardWsStep, DiscardLwsStep, ValueStartStep, ValueStep, ValueLwsStep,
           HeadersAlmostDoneStep, HeadersDoneStep;
      if m.state.HeaderFieldStart? { mk1 := FieldStart(data, p); }
      else if m.state.ValueDiscardWs? { mk1 := DiscardWs(data, p); }
      else if m.state.ValueDiscardLws? { mk1 := DiscardLws(data, p); }
      else if m.state.ValueStart? { mk1 := ValueStartByte(data, p); }
      else if m.state.ValueLws? { mk1 := ValueLwsByte(data, p); }
      else {
        HeadersDoneUnmarked(m, data[p]);
        PlainByte(HeaderStep(m, data[p], Ahead(data, p)), data, p + 1);
        mk1 := NO_MARKS;
      }
    }

    /** The switch of the main loop in the states that look at one byte. */
    method OneByte(data: string, p: nat, mk: Marks) returns (mk1: Marks)
      requires p < |data| && !Stopped(m) && MarksFit(m.state, mk, p)
      requires !m.state.HeaderField? && !m.state.HeaderValue? && !m.state.BodyIdentity? && !m.state.BodyIdentityEof?
               && !m.state.ChunkData?
      modifies this
      ensures Reached(Dispatch(old(m), data[p], Ahead(data, p)), Pending(old(r), data, mk, p), data, mk1, p + 1)
      ensures Left(Dispatch(old(m), data[p], Ahead(data, p)), old(r), Pending(old(r), data, mk, p))
    {
      hide RequestLineStep, HeaderStep, ChunkStep;
      if InRequestLine(m.state) {
        mk1 := LineByte(data, p, mk);
      } else if InHeader(m.state) {
        mk1 := HeaderByte(data, p);
      } else if m.state.ChunkDataAlmostDone? {
        mk1 := ChunkDelivered(data, p, mk);
      } else {
        if InChunk(m.state) { ChunkUnmarked(m, data[p]); }
        PlainByte(Dispatch(m, data[p], Ahead(data, p)), data, p + 1);
        mk1 := NO_MARKS;
      }
    }

    /** One byte later the object still is where the bytes lead. */
    lemma AfterByte(c: Conn, data: string, p: nat, mk: Marks, o: Out, was: Request, before: Request)
      requires p < |data| && Reached(o, before, data, mk, p + 1) && Left(o, was, before)
      requires !Stopped(RunTo(c, data, p).m) && was == RequestAt(c, data, 0, p)
      requires RunTo(c, data, p + 1) == Conn(o.m, ApplyAll(before, o.events)) && StepAt(c, data, p) == o
      requires EndsWithData(o.events) ==> Marked(o.m.state) && (|o.events| == 1 || PieceFrom(c, data, 0, p) == p)
      ensures Now(c, data, p + 1, mk)
    {
      hide RunTo, RequestAt, StepAt, PieceFrom, Pending, ApplyAll, IsData;
      if m.errno == NoError {
        if EndsWithData(o.events) { DataKeeps(c, data, 0, p); } else { OtherDelivers(c, data, 0, p); }
      }
    }

    /** The switch of the main loop.  If the byte counts against the header limit, it is counted already. */
    method Switch(data: string, p: nat, mk: Marks, ghost c: Conn, ghost before: Machine) returns (q: nat, mk1: Marks)
      requires p < |data| && !Stopped(before) && !Stopped(m) && MarksFit(m.state, mk, p)
      requires m == if ParsingHeader(before.state) then before.(nread := before.nread + 1) else before
      requires ParsingHeader(before.state) ==> !Full(before, before.nread)
      requires RunTo(c, data, p) == Conn(before, Pending(r, data, mk, p)) && r == RequestAt(c, data, 0, p)
      modifies this
      ensures p < q <= |data| && Now(c, data, q, mk1)
    {
      hide Dispatch, RunTo, Pending, RequestAt, StepAt, PieceFrom, FailedAt;
      if m.state.HeaderField? {
        q, mk1 := FieldLoop(data, p, mk, c);
      } else if m.state.HeaderValue? {
        q, mk1 := ValueLoop(data, p, mk, c);
      } else if m.state.BodyIdentity? {
        q, mk1 := BodyRun(data, p, mk, c);
      } else if m.state.BodyIdentityEof? {
        mk1 := EofRun(data, p, mk, c);
        q := |data|;
      } else if m.state.ChunkData? {
        q, mk1 := ChunkRun(data, p, mk, c);
      } else {
        ghost var was, pending := r, Pending(r, data, mk, p);
        OneStep(c, data, p, before, pending);
        ghost var o := Dispatch(m, data[p], Ahead(data, p));
        OneByteData(m, data[p], Ahead(data, p));
        if m.state.ValueDiscardLws? { NoPiece(c, data, 0, p); }
        mk1 := OneByte(data, p, mk);
        q := p + 1;
        AfterByte(c, data, p, mk1, o, was, pending);
      }
    }

    /** One round of the main loop, from the byte at `p`. */
    method Round(data: string, p: nat, mk: Marks, ghost c: Conn) returns (q: nat, mk1: Marks)
      requires p < |data| && At(c, data, p, mk)
      modifies this
      ensures p < q <= |data| && Now(c, data, q, mk1)
    {
      hide Dispatch, RunTo, Pending;
      ghost var before := m;
      OneStep(c, data, p, m, Pending(r, data, mk, p));
      if ParsingHeader(m.state) { m := Count(m, 1); }
      q, mk1 := p + 1, mk;
      if m.errno == NoError {
        q, mk1 := Switch(data, p, mk, c, before);
      }
    }

    /** The marks as a call sets them before its first byte. */
    method InitialMarks() returns (mk: Marks)
      requires m.errno == NoError && !m.halted && Settled(m, r)
      ensures MarksFit(m.state, mk, 0)
      ensures forall data: string :: Pending(r, data, mk, 0) == r
    {
      mk := NO_MARKS;
      if m.state.HeaderField? { mk := mk.(field := Some(0)); }
      if m.state.HeaderValue? { mk := mk.(value := Some(0)); }
      if InUrl(m.state) { mk := mk.(url := Some(0)); }
      forall data: string ensures Pending(r, data, mk, 0) == r {
        assert data[0..0] == "" && r.field + "" == r.field && r.value + "" == r.value && r.rawUrl + "" == r.rawUrl;
      }
    }

    /** The callbacks for a mark left over at the end of the buffer. */
    method FlushMarks(data: string, mk: Marks)
      requires MarksFit(m.state, mk, |data|) && !Stopped(m)
      modifies this
      ensures m == old(m) && r == Pending(old(r), data, mk, |data|) && Settled(m, r)
    {
      if mk.field.Some? { r := Apply(r, FieldData(data[mk.field.value..])); }
      if mk.value.Some? { r := Apply(r, ValueData(data[mk.value.value..])); }
      if mk.url.Some? { r := Apply(r, UrlData(data[mk.url.value..])); }
      if mk.body.Some? { r := Apply(r, BodyData(data[mk.body.value..])); }
      assert forall i :: 0 <= i <= |data| ==> data[i..|data|] == data[i..];
    }

    /** `http_parser_execute`: reads the buffer and returns how much of it was used.

        The call refines the one-byte machine.  It fails exactly when the machine does, with the same errno
        unless the machine met the header limit; without an error the whole parser and the request it has
        built are those of the machine. */
    method Execute(data: string) returns (n: nat)
      requires m.errno == NoError ==> Settled(m, r)
      modifies this
      ensures old(m).errno != NoError ==> n == 0 && m == old(m) && r == old(r)
      ensures old(m).errno == NoError && data == "" ==>
                if old(m).state.BodyIdentityEof? then n == 0 && m == old(m) && r == Apply(old(r), MessageComplete)
                else if old(m).state.Dead? || old(m).state.StartReq? then n == 0 && m == old(m) && r == old(r)
                else n == 1 && m == Fail(old(m), InvalidEofState) && r == old(r)
      ensures old(m).errno == NoError && data != "" ==>
                Ended(Conn(old(m).(halted := false), old(r)), data, n)
      ensures m.errno == NoError && !m.halted ==> Settled(m, r)
    {
      hide Dispatch, Pending;
      if m.errno != NoError { return 0; }
      if |data| == 0 {
        if m.state.BodyIdentityEof? {
          r := Apply(r, MessageComplete);
          return 0;
        }
        if m.state.Dead? || m.state.StartReq? { return 0; }
        m := Fail(m, InvalidEofState);
        return 1;
      }
      m := m.(halted := false);
      n := Buffer(data);
    }

    /** A call on a non-empty buffer has ended where the run of the machine from `c` does.  On an error short of
        the header limit it has delivered everything before the piece in which the error is. */
    ghost predicate Ended(c: Conn, data: string, n: nat)
      reads this
    {
      var c1 := RunTo(c, data, |data|);
      if m.errno == NoError then Conn(m, r) == c1 && (!m.halted ==> n == |data|)
      else
        && (c1.m.errno == m.errno || c1.m.errno == HeaderOverflow)
        && (c1.m.errno != HeaderOverflow ==> exists k :: 0 <= k < |data| && FailsAt(c, data, k) && r == FinalAt(c, data, 0, k))
    }

    /** The main loop of http_parser_execute and its epilogue. */
    method Buffer(data: string) returns (n: nat)
      requires !Stopped(m) && Settled(m, r)
      modifies this
      ensures Ended(Conn(old(m), old(r)), data, n)
      ensures !Stopped(m) ==> Settled(m, r)
    {
      hide Dispatch, RunTo, Pending;
      ghost var c := Conn(m, r);
      RunStarts(c, data);
      var mk := InitialMarks();
      n := 0;
      while n < |data| && !Stopped(m)
        invariant 0 <= n <= |data|
        invariant Now(c, data, n, mk)
      {
        n, mk := Round(data, n, mk, c);
      }
      if Stopped(m) {
        StoppedStays(c, data, n, |data|);
      } else {
        FlushMarks(data, mk);
      }
    }
  }
}
