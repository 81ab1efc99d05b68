/** What whole stretches of bytes do to the machine: the meaning of the bulk-scan loops. */
module HttpRuns {
  import opened HttpMachine
  import opened HttpRequest
  import opened HttpPieces

  /** One more byte of header would exceed the header limit. */
  predicate Full(m: Machine, n: nat) {
    n + 1 > m.config.maxHeaderSize
  }

  /** One step of a machine that has not stopped. */
  lemma OneStep(c: Conn, data: string, p: nat, m: Machine, r: Request)
    requires p < |data|
    requires RunTo(c, data, p) == Conn(m, r) && !Stopped(m)
    ensures var m1 := if ParsingHeader(m.state) then m.(nread := m.nread + 1) else m;
            var o := Dispatch(m1, data[p], Ahead(data, p));
            if ParsingHeader(m.state) && Full(m, m.nread) then RunTo(c, data, p + 1).m.errno == HeaderOverflow
            else RunTo(c, data, p + 1) == Conn(o.m, ApplyAll(r, o.events)) && StepAt(c, data, p) == o
  {
    hide Dispatch;
  }

  /** The single states whose step is looked at below. */
  lemma DispatchIs(m: Machine, ch: char, h2: bool)
    ensures m.state.HeaderField? ==> Dispatch(m, ch, h2) == FieldStep(m, ch)
    ensures m.state.HeaderValue? ==> Dispatch(m, ch, h2) == ValueStep(m, ch)
    ensures m.state.BodyIdentity? ==> Dispatch(m, ch, h2) == BodyIdentityStep(m, ch)
    ensures m.state.BodyIdentityEof? ==> Dispatch(m, ch, h2) == Out(m, [BodyData([ch])])
    ensures m.state.ChunkData? ==>
              Dispatch(m, ch, h2) == if m.flags.chunked then ChunkDataStep(m, ch) else Out(Fail(m, AssertFailed), [])
  {
    hide RequestLineStep, FieldStep, ValueStep, BodyIdentityStep, ChunkDataStep;
  }

  lemma FieldCharNread(m: Machine, ch: char, n: nat)
    ensures FieldChar(m.(nread := n), ch) == FieldChar(m, ch).(nread := n)
    ensures FieldChar(m, ch).nread == m.nread && FieldChar(m, ch).state == m.state && FieldChar(m, ch).halted == m.halted
    ensures FieldChar(m, ch).config == m.config
    ensures FieldChar(m, ch).errno == m.errno || FieldChar(m, ch).errno == AssertFailed
  {
    hide FieldScan;
  }

  /** A token character inside a field name. */
  lemma FieldByte(c: Conn, data: string, q: nat, m: Machine, r: Request, n: nat)
    requires q < |data|
    requires RunTo(c, data, q) == Conn(m.(nread := n), r) && !Stopped(m) && m.state.HeaderField?
    requires IsToken(data[q])
    ensures Full(m, n) ==> RunTo(c, data, q + 1).m.errno == HeaderOverflow
    ensures !Full(m, n) ==>
            var m1 := FieldChar(m, data[q]);
            if m1.errno != NoError then RunTo(c, data, q + 1).m.errno == m1.errno && StepAt(c, data, q).events == []
            else RunTo(c, data, q + 1) == Conn(m1.(nread := n + 1), Apply(r, FieldData([data[q]])))
                 && StepAt(c, data, q).events == [FieldData([data[q]])]
  {
    hide FieldChar, Dispatch;
    OneStep(c, data, q, m.(nread := n), r);
    DispatchIs(m.(nread := n + 1), data[q], Ahead(data, q));
    FieldCharNread(m, data[q], n + 1);
    ApplyOne(r, FieldData([data[q]]));
  }

  /** A name that matches no keyword so far never will. */
  lemma GeneralName(m: Machine, ch: char)
    requires m.scan.state.HGeneral?
    ensures FieldChar(m, ch) == m
  {
  }

  /** The byte that ends a field name. */
  lemma FieldEnd(c: Conn, data: string, q: nat, m: Machine, r: Request, n: nat)
    requires q < |data|
    requires RunTo(c, data, q) == Conn(m.(nread := n), r) && !Stopped(m) && m.state.HeaderField?
    requires !IsToken(data[q])
    ensures Full(m, n) ==> RunTo(c, data, q + 1).m.errno == HeaderOverflow
    ensures !Full(m, n) ==>
            && StepAt(c, data, q).events == []
            && if data[q] == ':' then RunTo(c, data, q + 1) == Conn(m.(nread := n + 1, state := ValueDiscardWs), r)
               else RunTo(c, data, q + 1).m.errno == InvalidHeaderToken
  {
    hide FieldChar, Dispatch;
    OneStep(c, data, q, m.(nread := n), r);
    DispatchIs(m.(nread := n + 1), data[q], Ahead(data, q));
  }

  lemma ValueCharNread(m: Machine, ch: char, n: nat)
    ensures ValueChar(m.(nread := n), ch) == ValueChar(m, ch).(nread := n)
    ensures ValueChar(m, ch).nread == m.nread && ValueChar(m, ch).state == m.state && ValueChar(m, ch).halted == m.halted
    ensures ValueChar(m, ch).config == m.config
  {
    hide ValueScan;
  }

  /** A byte of a header value that is no line end. */
  lemma ValueByte(c: Conn, data: string, q: nat, m: Machine, r: Request, n: nat)
    requires q < |data|
    requires RunTo(c, data, q) == Conn(m.(nread := n), r) && !Stopped(m) && m.state.HeaderValue?
    requires data[q] != CR && data[q] != LF
    ensures Full(m, n) ==> RunTo(c, data, q + 1).m.errno == HeaderOverflow
    ensures !Full(m, n) ==>
            if !m.config.lenient && !IsHeaderChar(data[q]) then
              RunTo(c, data, q + 1).m.errno == InvalidHeaderToken && StepAt(c, data, q).events == []
            else
              var m1 := ValueChar(m, data[q]);
              if m1.errno != NoError then RunTo(c, data, q + 1).m.errno == m1.errno && StepAt(c, data, q).events == []
              else RunTo(c, data, q + 1) == Conn(m1.(nread := n + 1), Apply(r, ValueData([data[q]])))
                   && StepAt(c, data, q).events == [ValueData([data[q]])]
  {
    hide ValueChar, Dispatch;
    OneStep(c, data, q, m.(nread := n), r);
    DispatchIs(m.(nread := n + 1), data[q], Ahead(data, q));
    ValueCharNread(m, data[q], n + 1);
    ApplyOne(r, ValueData([data[q]]));
  }

  /** A value that matches no keyword so far never will. */
  lemma GeneralValue(m: Machine, ch: char)
    requires m.scan.state.HGeneral?
    ensures ValueChar(m, ch) == m
  {
  }

  /** The byte that ends a value. */
  lemma ValueEnd(c: Conn, data: string, q: nat, m: Machine, r: Request, n: nat)
    requires q < |data|
    requires RunTo(c, data, q) == Conn(m.(nread := n), r) && !Stopped(m) && m.state.HeaderValue?
    requires data[q] == CR || data[q] == LF
    ensures Full(m, n) ==> RunTo(c, data, q + 1).m.errno == HeaderOverflow
    ensures !Full(m, n) ==>
              && StepAt(c, data, q).events == []
              && RunTo(c, data, q + 1)
                 == Conn(m.(nread := n + 1, state := if data[q] == CR then HeaderAlmostDone else ValueLws), r)
  {
    hide ValueChar, Dispatch;
    OneStep(c, data, q, m.(nread := n), r);
    DispatchIs(m.(nread := n + 1), data[q], Ahead(data, q));
  }

  /** One body byte after `k - 1` others, as events on the request. */
  lemma BodyGrows(r: Request, data: string, p: nat, k: nat)
    requires 0 < k && p + k <= |data|
    ensures ApplyAll(Apply(r, BodyData(data[p..p + k - 1])), [BodyData([data[p + k - 1]])]) == Apply(r, BodyData(data[p..p + k]))
  {
    var last := data[p + k - 1];
    assert data[p..p + k] == data[p..p + k - 1] + [last];
    assert r.body + data[p..p + k - 1] + [last] == r.body + data[p..p + k];
    ApplyOne(Apply(r, BodyData(data[p..p + k - 1])), BodyData([last]));
  }

  lemma NoBody(r: Request, data: string, p: nat)
    requires p <= |data|
    ensures Apply(r, BodyData(data[p..p])) == r
  {
    assert data[p..p] == "" && r.body + "" == r.body;
  }

  /** A byte of data on its own: nothing is delivered yet. */
  lemma OneDataByte(c: Conn, data: string, p: nat)
    requires p < |data| && |StepAt(c, data, p).events| == 1 && IsData(StepAt(c, data, p).events[0])
    ensures RequestAt(c, data, 0, p + 1) == RequestAt(c, data, 0, p)
  {
    hide StepAt, RequestAt;
    DataKeeps(c, data, 0, p);
  }

  /** `k` bytes of a body of known length, short of its end. */
  lemma {:induction false} BodyBytes(c: Conn, data: string, p: nat, k: nat, m: Machine, r: Request)
    requires p + k <= |data|
    requires RunTo(c, data, p) == Conn(m, r) && !Stopped(m) && m.state.BodyIdentity?
    requires k < m.contentLength < ULLONG_MAX
    ensures RunTo(c, data, p + k) == Conn(m.(contentLength := m.contentLength - k), Apply(r, BodyData(data[p..p + k])))
    ensures RequestAt(c, data, 0, p + k) == RequestAt(c, data, 0, p)
  {
    hide Dispatch, RunTo, Apply, ApplyAll, RequestAt, StepAt;
    if k == 0 {
      NoBody(r, data, p);
    } else {
      BodyBytes(c, data, p, k - 1, m, r);
      var m1 := m.(contentLength := m.contentLength - (k - 1));
      OneStep(c, data, p + k - 1, m1, Apply(r, BodyData(data[p..p + k - 1])));
      DispatchIs(m1, data[p + k - 1], Ahead(data, p + k - 1));
      BodyGrows(r, data, p, k);
      OneDataByte(c, data, p + k - 1);
    }
  }

  /** A whole body of known length. */
  lemma BodyToEnd(c: Conn, data: string, p: nat, m: Machine, r: Request)
    requires 0 < m.contentLength < ULLONG_MAX && p + m.contentLength <= |data|
    requires RunTo(c, data, p) == Conn(m, r) && !Stopped(m) && m.state.BodyIdentity?
    ensures RunTo(c, data, p + m.contentLength)
         == Conn(m.(contentLength := 0, state := MessageDone),
                 Apply(Apply(r, BodyData(data[p..p + m.contentLength])), MessageComplete))
    ensures RequestAt(c, data, 0, p + m.contentLength) == RunTo(c, data, p + m.contentLength).r
  {
    hide Dispatch, RunTo, Apply, ApplyAll, RequestAt, StepAt;
    var k := m.contentLength;
    BodyBytes(c, data, p, k - 1, m, r);
    var m1, r1, last := m.(contentLength := 1), Apply(r, BodyData(data[p..p + k - 1])), data[p + k - 1];
    OneStep(c, data, p + k - 1, m1, r1);
    DispatchIs(m1, last, Ahead(data, p + k - 1));
    BodyGrows(r, data, p, k);
    OtherDelivers(c, data, 0, p + k - 1);
    assert [BodyData([last]), MessageComplete] == [BodyData([last])] + [MessageComplete];
    ApplyAppend(r1, [BodyData([last])], [MessageComplete]);
    ApplyOne(Apply(r, BodyData(data[p..p + k])), MessageComplete);
  }

  /** `k` bytes of chunk data. */
  lemma {:induction false} ChunkBytes(c: Conn, data: string, p: nat, k: nat, m: Machine, r: Request)
    requires p + k <= |data|
    requires RunTo(c, data, p) == Conn(m, r) && !Stopped(m) && m.state.ChunkData? && m.flags.chunked
    requires 0 < m.contentLength < ULLONG_MAX && k <= m.contentLength
    ensures RunTo(c, data, p + k)
         == Conn(m.(contentLength := m.contentLength - k,
                    state := if k == m.contentLength then ChunkDataAlmostDone else ChunkData),
                 Apply(r, BodyData(data[p..p + k])))
    ensures RequestAt(c, data, 0, p + k) == RequestAt(c, data, 0, p)
  {
    hide Dispatch, RunTo, Apply, ApplyAll, RequestAt, StepAt;
    if k == 0 {
      NoBody(r, data, p);
    } else {
      ChunkBytes(c, data, p, k - 1, m, r);
      var m1 := m.(contentLength := m.contentLength - (k - 1));
      OneStep(c, data, p + k - 1, m1, Apply(r, BodyData(data[p..p + k - 1])));
      DispatchIs(m1, data[p + k - 1], Ahead(data, p + k - 1));
      BodyGrows(r, data, p, k);
      OneDataByte(c, data, p + k - 1);
    }
  }

  /** Bytes of a body that lasts until the connection closes. */
  lemma {:induction false} EofBytes(c: Conn, data: string, p: nat, k: nat, m: Machine, r: Request)
    requires p + k <= |data|
    requires RunTo(c, data, p) == Conn(m, r) && !Stopped(m) && m.state.BodyIdentityEof?
    ensures RunTo(c, data, p + k) == Conn(m, Apply(r, BodyData(data[p..p + k])))
    ensures RequestAt(c, data, 0, p + k) == RequestAt(c, data, 0, p)
  {
    hide Dispatch, RunTo, Apply, ApplyAll, RequestAt, StepAt;
    if k == 0 {
      NoBody(r, data, p);
    } else {
      EofBytes(c, data, p, k - 1, m, r);
      OneStep(c, data, p + k - 1, m, Apply(r, BodyData(data[p..p + k - 1])));
      DispatchIs(m, data[p + k - 1], Ahead(data, p + k - 1));
      BodyGrows(r, data, p, k);
      OneDataByte(c, data, p + k - 1);
    }
  }
}
