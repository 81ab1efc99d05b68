/** Header lines: what the parser makes of "name: value". */
module HttpHeaderLines {
  import opened Wrappers
  import opened HttpMachine
  import opened HttpRequest
  import opened HttpSplit
  import opened HttpGoes
  import opened HttpNames
  import opened HttpLengths

  /** Between two header lines.  After a value the machine still waits to see whether the line is folded. */
  predicate AtLine(m: Machine) {
    m.state.HeaderFieldStart? || m.state.ValueLws? || m.state.ValueDiscardLws?
  }

  /** An empty value is delivered by the byte after its line. */
  function Held(m: Machine): seq<Event> {
    if m.state.ValueDiscardLws? then [ValueData("")] else []
  }

  /** The request with the value that is still held back. */
  function Caught(c: Conn): Request {
    if c.m.state.ValueDiscardLws? then OnHeaderValue(c.r, "") else c.r
  }

  lemma HeldThen(c: Conn, e: Event)
    ensures ApplyAll(c.r, Held(c.m)) == Caught(c)
    ensures ApplyAll(c.r, Held(c.m) + [e]) == Apply(Caught(c), e)
  {
    hide OnHeaderValue, OnHeaderField, OnHeadersComplete;
    ApplyAppend(c.r, Held(c.m), [e]);
    ApplyOne(Caught(c), e);
    if c.m.state.ValueDiscardLws? { ApplyOne(c.r, ValueData("")); }
  }

  /** The flags once the header that was read last is finished. */
  function Finished(m: Machine): Flags {
    if !m.state.ValueLws? then m.flags
    else if m.scan.state.HKeepAlive? then m.flags.(keepAlive := true)
    else if m.scan.state.HClose? then m.flags.(close := true)
    else if m.scan.state.HTeChunked? then m.flags.(chunked := true)
    else m.flags
  }

  /** The machine at the first byte of the next line. */
  function NextLine(m: Machine): Machine {
    m.(flags := Finished(m), state := HeaderFieldStart)
  }

  predicate IsName(n: string) {
    n != "" && forall i :: 0 <= i < |n| ==> IsToken(n[i])
  }

  predicate IsValue(v: string) {
    (v != "" ==> v[0] != ' ' && v[0] != '\t')
    && forall i :: 0 <= i < |v| ==> IsHeaderChar(v[i]) && v[i] != CR && v[i] != LF
  }

  /** Every step of a header state, with its byte counted. */
  lemma HeaderByte(c: Conn, s: string, c1: Conn, ch: char)
    requires Goes(c, s, c1) && Open(c1) && Room(c1.m, 1) && InHeader(c1.m.state) && !PeeksAt(c1.m, ch)
    ensures var o := HeaderStep(c1.m.(nread := c1.m.nread + 1), ch, false);
            Goes(c, s + [ch], Conn(o.m, ApplyAll(c1.r, o.events)))
  {
    hide Goes, PeeksAt, RequestLineStep, HeaderStep, ChunkStep, BodyStep;
    GoesByteOn(c, s, c1, ch);
  }

  // ---------------------------------------------------------------------------------------------
  // The name

  lemma NameStartStep(m: Machine, ch: char)
    requires AtLine(m) && IsToken(ch)
    ensures HeaderStep(m, ch, false)
         == Out(NextLine(m).(scan := Scan(FirstLetterState(ch), 0), state := HeaderField),
                Held(m) + [FieldData([ch])])
  {
    hide HeadersAlmostDoneStep, FieldStep, ValueStartStep, ValueStep, DiscardWsStep, HeadersDoneStep;
  }

  lemma NameByteStep(m: Machine, ch: char, s: Scan)
    requires m.state.HeaderField? && m.errno == NoError && IsToken(ch) && FieldScan(m.scan, ch) == Some(s)
    ensures HeaderStep(m, ch, false)
         == Out(m.(scan := s, usesTransferEncoding := m.usesTransferEncoding || s.state.HTransferEncoding?),
                [FieldData([ch])])
  {
    hide FieldStartStep, FieldScan, ValueStartStep, ValueStep, DiscardWsStep, DiscardLwsStep, ValueLwsStep,
         HeadersAlmostDoneStep, HeadersDoneStep;
  }

  /** Some prefix of the name was "transfer-encoding". */
  predicate SawTransferEncoding(n: string, i: nat)
    requires i <= |n|
  {
    exists j :: 1 <= j <= i && NameScan(n[..j]).Some? && NameScan(n[..j]).value.state.HTransferEncoding?
  }

  /** The connection after `i` bytes of a name. */
  function InName(c: Conn, n: string, i: nat): Conn
    requires 1 <= i <= |n| && NameScan(n[..i]).Some?
  {
    Conn(NextLine(c.m).(scan := NameScan(n[..i]).value, state := HeaderField, nread := c.m.nread + i,
                        usesTransferEncoding := c.m.usesTransferEncoding || SawTransferEncoding(n, i)),
         OnHeaderField(Caught(c), n[..i]))
  }

  lemma FieldTwice(r: Request, a: string, b: string)
    ensures ApplyAll(OnHeaderField(r, a), [FieldData(b)]) == OnHeaderField(r, a + b)
  {
    ApplyOne(OnHeaderField(r, a), FieldData(b));
    assert r.field + a + b == r.field + (a + b);
  }

  lemma {:induction false} NamePrefix(c: Conn, n: string, i: nat)
    requires Open(c) && AtLine(c.m) && IsName(n) && 1 <= i <= |n| && Room(c.m, i)
    ensures NameScan(n[..i]).Some?
    ensures Goes(c, n[..i], InName(c, n, i))
  {
    hide Goes, NameScan, InName, IsName, AtLine;
    if i == 1 {
      NameFirst(c, n);
    } else {
      NamePrefix(c, n, i - 1);
      NameMore(c, n, i);
    }
  }

  lemma NameFirst(c: Conn, n: string)
    requires Open(c) && AtLine(c.m) && IsName(n) && Room(c.m, 1)
    ensures NameScan(n[..1]).Some?
    ensures Goes(c, n[..1], InName(c, n, 1))
  {
    hide Goes, HeaderStep, NameScan, FieldScan, FirstLetterState, LowerName, Known, PeeksAt;
    var ch := n[0];
    GoesNowhere(c);
    NameStep(c, n, 1);
    NameStartStep(c.m.(nread := c.m.nread + 1), ch);
    NoPeekHere(c.m, ch);
    HeaderByte(c, "", c, ch);
    HeldThen(c, FieldData([ch]));
    assert "" + [ch] == n[..1] == [ch];
    NotYetTransferEncoding(n);
  }

  lemma NameMore(c: Conn, n: string, i: nat)
    requires Open(c) && AtLine(c.m) && IsName(n) && 2 <= i <= |n| && Room(c.m, i)
    requires NameScan(n[..i - 1]).Some? && Goes(c, n[..i - 1], InName(c, n, i - 1))
    ensures NameScan(n[..i]).Some?
    ensures Goes(c, n[..i], InName(c, n, i))
  {
    hide Goes, HeaderStep, NameScan, FieldScan, FirstLetterState, LowerName, Known, PeeksAt, SawTransferEncoding;
    NameRecognised(n[..i]);
    NameStep(c, n, i);
    var c1, ch := InName(c, n, i - 1), n[i - 1];
    NameByteStep(c1.m.(nread := c1.m.nread + 1), ch, NameScan(n[..i]).value);
    NoPeekHere(c1.m, ch);
    HeaderByte(c, n[..i - 1], c1, ch);
    FieldTwice(Caught(c), n[..i - 1], [ch]);
    assert n[..i - 1] + [ch] == n[..i];
    SawMore(n, i);
  }

  lemma SawMore(n: string, i: nat)
    requires 2 <= i <= |n| && NameScan(n[..i]).Some?
    ensures SawTransferEncoding(n, i) <==> SawTransferEncoding(n, i - 1) || NameScan(n[..i]).value.state.HTransferEncoding?
  {
    hide NameScan;
  }

  lemma NoPeekHere(m: Machine, ch: char)
    requires !m.state.ValueDiscardWs? && !m.state.ValueStart?
    ensures !PeeksAt(m, ch)
  {
  }

  lemma NotYetTransferEncoding(n: string)
    requires IsName(n)
    ensures !SawTransferEncoding(n, 1)
  {
    hide FieldScan;
    forall j | 1 <= j <= 1 ensures NameScan(n[..j]).Some? ==> !NameScan(n[..j]).value.state.HTransferEncoding? {
      assert |n[..j]| == 1;
    }
  }

  lemma NameStep(c: Conn, n: string, i: nat)
    requires 1 <= i <= |n|
    ensures i == 1 ==> NameScan(n[..i]) == Some(Scan(FirstLetterState(n[0]), 0))
    ensures i > 1 && NameScan(n[..i - 1]).Some? ==> NameScan(n[..i]) == FieldScan(NameScan(n[..i - 1]).value, n[i - 1])
  {
    hide FieldScan, FirstLetterState;
    assert n[..i][..i - 1] == n[..i - 1];
  }

  /** A name sets `uses_transfer_encoding` exactly if it begins with "transfer-encoding", even if it goes on. */
  lemma TransferEncodingSeen(n: string)
    requires IsName(n)
    ensures SawTransferEncoding(n, |n|) <==> "transfer-encoding" <= LowerName(n)
  {
    hide NameScan, LowerName, FieldScan, FirstLetterState, Known;
    var te := "transfer-encoding";
    if SawTransferEncoding(n, |n|) {
      var j :| 1 <= j <= |n| && NameScan(n[..j]).Some? && NameScan(n[..j]).value.state.HTransferEncoding?;
      FramingNames(n[..j]);
      LowerPrefix(n, j);
    }
    if te <= LowerName(n) {
      LowerPrefix(n, |te|);
      FramingNames(n[..|te|]);
    }
  }

  lemma LowerPrefix(n: string, j: nat)
    requires j <= |n|
    ensures LowerName(n[..j]) == LowerName(n)[..j]
  {
  }

  // ---------------------------------------------------------------------------------------------
  // The value

  lemma ColonStep(m: Machine)
    requires m.state.HeaderField?
    ensures HeaderStep(m, ':', false) == Out(m.(state := ValueDiscardWs), [])
    ensures HeaderStep(m.(state := ValueDiscardWs), ' ', false) == Out(m.(state := ValueDiscardWs), [])
  {
    hide FieldStartStep, FieldScan, ValueStartStep, ValueStep, DiscardLwsStep, ValueLwsStep,
         HeadersAlmostDoneStep, HeadersDoneStep;
  }

  /** The colon and a space. */
  lemma Colon(c: Conn)
    requires Open(c) && c.m.state.HeaderField? && Room(c.m, 2)
    ensures Goes(c, ": ", Conn(c.m.(state := ValueDiscardWs, nread := c.m.nread + 2), c.r))
  {
    hide Goes, HeaderStep, PeeksAt;
    GoesNowhere(c);
    ColonStep(c.m.(nread := c.m.nread + 1));
    ColonStep(c.m.(nread := c.m.nread + 2));
    NoPeekHere(c.m, ':');
    HeaderByte(c, "", c, ':');
    var c1 := Conn(c.m.(state := ValueDiscardWs, nread := c.m.nread + 1), c.r);
    assert "" + [':'] == ":" && ":" + [' '] == ": ";
    NoPeekSpace(c1.m);
    HeaderByte(c, ":", c1, ' ');
  }

  lemma NoPeekSpace(m: Machine)
    ensures !PeeksAt(m, ' ')
  {
  }

  lemma ValueStartsStep(m: Machine, ch: char)
    requires m.state.ValueDiscardWs? && ch != ' ' && ch != '\t' && ch != CR && ch != LF
    ensures HeaderStep(m, ch, false) == ValueStartStep(m, ch, false)
  {
    hide FieldStartStep, FieldScan, ValueStartStep, ValueStep, DiscardLwsStep, ValueLwsStep,
         HeadersAlmostDoneStep, HeadersDoneStep;
  }

  /** The scanner after the first `i` bytes of the rest of a value. */
  function TailScan(s: Scan, n: uint64, w: string, i: nat): Scanned
    requires i <= |w|
  {
    if i == 0 then Scanned(s, n)
    else match TailScan(s, n, w, i - 1)
      case Rejected(e) => Rejected(e)
      case Scanned(s1, n1) => ValueScan(s1, n1, w[i - 1])
  }

  lemma ValueByteStep(m: Machine, ch: char, s: Scan, n: uint64)
    requires m.state.HeaderValue? && m.errno == NoError && IsHeaderChar(ch) && ch != CR && ch != LF
    requires ValueScan(m.scan, m.contentLength, ch) == Scanned(s, n)
    ensures HeaderStep(m, ch, false) == Out(m.(scan := s, contentLength := n), [ValueData([ch])])
  {
    hide FieldStartStep, FieldScan, ValueStartStep, ValueScan, DiscardLwsStep, ValueLwsStep,
         HeadersAlmostDoneStep, HeadersDoneStep;
  }

  lemma ValueEndStep(m: Machine)
    requires m.state.HeaderValue?
    ensures HeaderStep(m, CR, false) == Out(m.(state := HeaderAlmostDone), [])
    ensures HeaderStep(m.(state := HeaderAlmostDone), LF, false) == Out(m.(state := ValueLws), [])
  {
    hide FieldStartStep, FieldScan, ValueStartStep, ValueScan, DiscardLwsStep, ValueLwsStep,
         HeadersAlmostDoneStep, HeadersDoneStep;
  }

  /** The connection inside a value, after `i` bytes of its rest. */
  function InValue(c: Conn, w: string, i: nat): Conn
    requires i <= |w| && TailScan(c.m.scan, c.m.contentLength, w, i).Scanned?
  {
    var t := TailScan(c.m.scan, c.m.contentLength, w, i);
    Conn(c.m.(scan := t.scan, contentLength := t.contentLength, nread := c.m.nread + i),
         c.r.(value := c.r.value + w[..i]))
  }

  predicate IsRest(w: string) {
    forall i :: 0 <= i < |w| ==> IsHeaderChar(w[i]) && w[i] != CR && w[i] != LF
  }

  lemma {:induction false} TailAccepted(s: Scan, n: uint64, w: string, i: nat, j: nat)
    requires i <= j <= |w| && TailScan(s, n, w, j).Scanned?
    ensures TailScan(s, n, w, i).Scanned?
  {
    hide ValueScan;
    if i < j { TailAccepted(s, n, w, i, j - 1); }
  }

  lemma {:induction false} TailPrefix(c: Conn, w: string, i: nat)
    requires Open(c) && c.m.state.HeaderValue? && !c.r.building && IsRest(w) && i <= |w| && Room(c.m, i)
    requires TailScan(c.m.scan, c.m.contentLength, w, i).Scanned?
    ensures Goes(c, w[..i], InValue(c, w, i))
  {
    hide Goes, HeaderStep, ValueScan, PeeksAt;
    if i == 0 {
      assert w[..0] == "" && c.r.value + "" == c.r.value;
      GoesNowhere(c);
    } else {
      TailAccepted(c.m.scan, c.m.contentLength, w, i - 1, i);
      TailPrefix(c, w, i - 1);
      var c1, ch, t := InValue(c, w, i - 1), w[i - 1], TailScan(c.m.scan, c.m.contentLength, w, i);
      ValueByteStep(c1.m.(nread := c1.m.nread + 1), ch, t.scan, t.contentLength);
      NoPeekHere(c1.m, ch);
      HeaderByte(c, w[..i - 1], c1, ch);
      ApplyOne(c1.r, ValueData([ch]));
      assert w[..i] == w[..i - 1] + [ch];
      assert c.r.value + w[..i] == c.r.value + w[..i - 1] + [ch];
    }
  }

  const CRLF: string := [CR, LF]

  /** The rest of a value and its line end. */
  lemma ValueRest(c: Conn, w: string)
    requires Open(c) && c.m.state.HeaderValue? && !c.r.building && IsRest(w) && Room(c.m, |w| + 2)
    requires TailScan(c.m.scan, c.m.contentLength, w, |w|).Scanned?
    ensures var t := TailScan(c.m.scan, c.m.contentLength, w, |w|);
            Goes(c, w + CRLF, Conn(c.m.(state := ValueLws, scan := t.scan, contentLength := t.contentLength,
                                        nread := c.m.nread + |w| + 2),
                                   c.r.(value := c.r.value + w)))
  {
    hide Goes, HeaderStep, TailScan, PeeksAt;
    TailPrefix(c, w, |w|);
    assert w[..|w|] == w;
    var c1 := InValue(c, w, |w|);
    ValueEndStep(c1.m.(nread := c1.m.nread + 1));
    NoPeekHere(c1.m, CR);
    HeaderByte(c, w, c1, CR);
    var c2 := Conn(c1.m.(state := HeaderAlmostDone, nread := c1.m.nread + 1), c1.r);
    ValueEndStep(c1.m.(nread := c1.m.nread + 2));
    NoPeekHere(c2.m, LF);
    HeaderByte(c, w + [CR], c2, LF);
    assert w + [CR] + [LF] == w + CRLF;
  }

  // ---------------------------------------------------------------------------------------------
  // Whole lines

  function Line(h: Header): string {
    h.name + ": " + (h.value + CRLF)
  }

  function AddHeader(r: Request, h: Header): Request {
    OnHeaderValue(OnHeaderField(r, h.name), h.value)
  }

  predicate IsHeader(h: Header) {
    IsName(h.name) && IsValue(h.value)
  }

  /** The machine at the first byte of the value of `h`. */
  function AtValue(m: Machine, h: Header): Machine
    requires IsHeader(h) && NameScan(h.name).Some?
  {
    NextLine(m).(scan := NameScan(h.name).value, state := ValueDiscardWs, nread := m.nread + |h.name| + 2,
                 usesTransferEncoding := m.usesTransferEncoding || SawTransferEncoding(h.name, |h.name|))
  }

  lemma NameRead(c: Conn, h: Header)
    requires Open(c) && AtLine(c.m) && IsHeader(h) && Room(c.m, |h.name| + 2)
    ensures NameScan(h.name).Some?
    ensures Goes(c, h.name + ": ", Conn(AtValue(c.m, h), OnHeaderField(Caught(c), h.name)))
  {
    hide Goes, NameScan, SawTransferEncoding;
    NamePrefix(c, h.name, |h.name|);
    assert h.name[..|h.name|] == h.name;
    Colon(InName(c, h.name, |h.name|));
    GoesOn(c, h.name, InName(c, h.name, |h.name|), ": ", Conn(AtValue(c.m, h), OnHeaderField(Caught(c), h.name)));
  }

  /** A value and its line end, given what its first byte does (`o`) and that the rest is accepted. */
  lemma ValueRead(c: Conn, v: string, o: Out)
    requires Open(c) && c.m.state.ValueDiscardWs? && IsValue(v) && v != "" && c.r.building
    requires c.m.scan.state.HUpgrade? ==> v[0] != 'h'
    requires Room(c.m, |v| + 2) && o == ValueStartStep(c.m.(nread := c.m.nread + 1), v[0], false)
    requires o.m.errno == NoError && TailScan(o.m.scan, o.m.contentLength, v[1..], |v| - 1).Scanned?
    ensures var t := TailScan(o.m.scan, o.m.contentLength, v[1..], |v| - 1);
            Goes(c, v + CRLF,
                 Conn(o.m.(state := ValueLws, scan := t.scan, contentLength := t.contentLength,
                           nread := c.m.nread + |v| + 2),
                      OnHeaderValue(c.r, v)))
  {
    hide Goes, TailScan, HeaderStep, ValueStartStep, PeeksAt;
    var ch, w := v[0], v[1..];
    ValueStartsStep(c.m.(nread := c.m.nread + 1), ch);
    FirstValueByte(c, ch, o);
    var c2 := Conn(o.m, OnHeaderValue(c.r, [ch]));
    ValueRest(c2, w);
    assert v == [ch] + w;
    var t := TailScan(o.m.scan, o.m.contentLength, w, |w|);
    var c3 := Conn(c2.m.(state := ValueLws, scan := t.scan, contentLength := t.contentLength,
                         nread := c2.m.nread + |w| + 2), c2.r.(value := [ch] + w));
    GoesOn(c, [ch], c2, w + CRLF, c3);
    assert [ch] + (w + CRLF) == v + CRLF;
  }

  /** A whole header line. */
  lemma LineRead(c: Conn, h: Header, o: Out)
    requires Open(c) && AtLine(c.m) && IsHeader(h) && h.value != "" && Room(c.m, |Line(h)|)
    requires NameScan(h.name).Some? && (NameScan(h.name).value.state.HUpgrade? ==> h.value[0] != 'h')
    requires var m := AtValue(c.m, h); o == ValueStartStep(m.(nread := m.nread + 1), h.value[0], false)
    requires o.m.errno == NoError && TailScan(o.m.scan, o.m.contentLength, h.value[1..], |h.value| - 1).Scanned?
    ensures var t := TailScan(o.m.scan, o.m.contentLength, h.value[1..], |h.value| - 1);
            Goes(c, Line(h), Conn(o.m.(state := ValueLws, scan := t.scan, contentLength := t.contentLength,
                                       nread := c.m.nread + |Line(h)|),
                                  AddHeader(Caught(c), h)))
  {
    hide Goes, NameScan, SawTransferEncoding, TailScan, HeaderStep, ValueStartStep;
    NameRead(c, h);
    var c1 := Conn(AtValue(c.m, h), OnHeaderField(Caught(c), h.name));
    ValueRead(c1, h.value, o);
    var t := TailScan(o.m.scan, o.m.contentLength, h.value[1..], |h.value| - 1);
    var c3 := Conn(o.m.(state := ValueLws, scan := t.scan, contentLength := t.contentLength,
                        nread := c1.m.nread + |h.value| + 2), OnHeaderValue(c1.r, h.value));
    GoesOn(c, h.name + ": ", c1, h.value + CRLF, c3);
  }

  lemma NoValueStep(m: Machine)
    requires m.state.ValueDiscardWs? && m.errno == NoError
    ensures HeaderStep(m, CR, false) == Out(m.(state := ValueDiscardWsAlmostDone), [])
    ensures HeaderStep(m.(state := ValueDiscardWsAlmostDone), LF, false) == Out(m.(state := ValueDiscardLws), [])
  {
    hide FieldStartStep, FieldScan, ValueStartStep, ValueStep, DiscardLwsStep, ValueLwsStep,
         HeadersAlmostDoneStep, HeadersDoneStep;
  }

  /** A header line without a value. */
  lemma BareLineRead(c: Conn, h: Header)
    requires Open(c) && AtLine(c.m) && IsHeader(h) && h.value == "" && Room(c.m, |Line(h)|)
    ensures NameScan(h.name).Some?
    ensures Goes(c, Line(h), Conn(AtValue(c.m, h).(state := ValueDiscardLws, nread := c.m.nread + |Line(h)|),
                                  OnHeaderField(Caught(c), h.name)))
  {
    hide Goes, NameScan, SawTransferEncoding, HeaderStep, PeeksAt, OnHeaderField;
    NameRead(c, h);
    var s := h.name + ": ";
    var c1 := Conn(AtValue(c.m, h), OnHeaderField(Caught(c), h.name));
    NoValueStep(c1.m.(nread := c1.m.nread + 1));
    NoPeekEnd(c1.m);
    FieldCompletes(Caught(c), h.name);
    HeaderByte(c, s, c1, CR);
    var c2 := Conn(c1.m.(state := ValueDiscardWsAlmostDone, nread := c1.m.nread + 1), c1.r);
    NoValueStep(c1.m.(nread := c1.m.nread + 2));
    NoPeekEnd(c2.m);
    HeaderByte(c, s + [CR], c2, LF);
    assert s + [CR] + [LF] == Line(h);
  }

  lemma NoPeekEnd(m: Machine)
    ensures !PeeksAt(m, CR) && !PeeksAt(m, LF)
  {
  }

  lemma FieldCompletes(r: Request, name: string)
    ensures OnHeaderField(r, name).completions == r.completions
  {
  }

  lemma FirstValueByte(c: Conn, ch: char, o: Out)
    requires Open(c) && c.m.state.ValueDiscardWs? && (c.m.scan.state.HUpgrade? ==> ch != 'h') && Room(c.m, 1)
    requires o.m.errno == NoError && o == ValueStartStep(c.m.(nread := c.m.nread + 1), ch, false)
    requires HeaderStep(c.m.(nread := c.m.nread + 1), ch, false) == o
    ensures Goes(c, [ch], Conn(o.m, OnHeaderValue(c.r, [ch])))
    ensures o.m.state.HeaderValue? && !o.m.halted && o.m.nread == c.m.nread + 1 && o.m.config == c.m.config
  {
    hide Goes, HeaderStep;
    GoesNowhere(c);
    HeaderByte(c, "", c, ch);
    ApplyOne(c.r, ValueData([ch]));
    assert "" + [ch] == [ch];
  }

  // ---------------------------------------------------------------------------------------------
  // What a line leaves behind

  /** The machine up to where it is in the header and what Connection and Upgrade said. */
  function Frame(m: Machine): Machine {
    m.(flags := Finished(m).(keepAlive := false, close := false, upgrade := false), state := HeaderFieldStart,
       scan := Scan(HGeneral, 0), nread := 0)
  }

  /** States of a value that says nothing about the body. */
  predicate Harmless(h: HeaderState) {
    h.HGeneral? || h.HMatchingKeepAlive? || h.HMatchingClose? || h.HKeepAlive? || h.HClose?
  }

  lemma {:induction false} HarmlessTail(s: Scan, n: uint64, w: string, i: nat)
    requires i <= |w| && Harmless(s.state)
    ensures TailScan(s, n, w, i).Scanned? && Harmless(TailScan(s, n, w, i).scan.state)
    ensures TailScan(s, n, w, i).contentLength == n
  {
    hide ValueScan;
    if i > 0 {
      HarmlessTail(s, n, w, i - 1);
      HarmlessStep(TailScan(s, n, w, i - 1).scan, n, w[i - 1]);
    }
  }

  lemma HarmlessStep(s: Scan, n: uint64, ch: char)
    requires Harmless(s.state)
    ensures var t := ValueScan(s, n, ch); t.Scanned? && Harmless(t.scan.state) && t.contentLength == n
  {
    hide KeywordText;
  }

  /** States a name can end in, other than those of the three names that say how the body is sent. */
  predicate OrdinaryName(h: HeaderState) {
    h.HGeneral? || h.HC? || h.HCO? || h.HCON? || h.HConnection? || h.HMatchingConnection?
    || h.HMatchingProxyConnection? || h.HMatchingContentLength? || h.HMatchingTransferEncoding? || h.HMatchingUpgrade?
  }

  lemma OrdinaryStart(m: Machine, ch: char)
    requires m.errno == NoError && OrdinaryName(m.scan.state) && IsHeaderChar(ch) && ch != ' '
    ensures var o := ValueStartStep(m, ch, false);
            && o.m == m.(state := HeaderValue, scan := o.m.scan) && Harmless(o.m.scan.state)
            && o.m.scan == (if !m.scan.state.HConnection? then Scan(HGeneral, 0)
                            else if Lower(ch) == 'k' then Scan(HMatchingKeepAlive, 0)
                            else if Lower(ch) == 'c' then Scan(HMatchingClose, 0)
                            else Scan(HGeneral, 0))
  {
  }

  // ---------------------------------------------------------------------------------------------
  // What Connection says

  /** The value is this word in any case, with nothing behind it but spaces. */
  predicate Says(v: string, word: string) {
    word <= LowerName(v) && forall k :: |word| <= k < |v| ==> v[k] == ' '
  }

  predicate Asks(h: Header, word: string) {
    LowerName(h.name) in {"connection", "proxy-connection"} && Says(h.value, word)
  }

  predicate Asked(hs: seq<Header>, word: string) {
    exists i :: 0 <= i < |hs| && Asks(hs[i], word)
  }

  /** An Upgrade line, whatever its value, if it has one. */
  predicate Upgrades(h: Header) {
    LowerName(h.name) == "upgrade" && h.value != ""
  }

  predicate Upgraded(hs: seq<Header>) {
    exists i :: 0 <= i < |hs| && Upgrades(hs[i])
  }

  /** What the lines `hs` add to the flags: "keep-alive" and "close" as values of Connection, and Upgrade lines. */
  predicate Heard(m: Machine, hs: seq<Header>, m1: Machine) {
    && Finished(m1).keepAlive == (Finished(m).keepAlive || Asked(hs, "keep-alive"))
    && Finished(m1).close == (Finished(m).close || Asked(hs, "close"))
    && Finished(m1).upgrade == (Finished(m).upgrade || Upgraded(hs))
  }

  lemma AskedOne(h: Header, word: string)
    ensures Asked([h], word) <==> Asks(h, word)
    ensures Upgraded([h]) <==> Upgrades(h)
  {
    hide Asks, Upgrades;
    assert [h][0] == h;
  }

  lemma UpgradedBoth(a: seq<Header>, b: seq<Header>)
    ensures Upgraded(a + b) <==> Upgraded(a) || Upgraded(b)
  {
    hide Upgrades;
    if Upgraded(a) {
      var i :| 0 <= i < |a| && Upgrades(a[i]);
      assert (a + b)[i] == a[i];
    }
    if Upgraded(b) {
      var i :| 0 <= i < |b| && Upgrades(b[i]);
      assert (a + b)[|a| + i] == b[i];
    }
  }

  lemma AskedBoth(a: seq<Header>, b: seq<Header>, word: string)
    ensures Asked(a + b, word) <==> Asked(a, word) || Asked(b, word)
  {
    hide Asks;
    if Asked(a, word) {
      var i :| 0 <= i < |a| && Asks(a[i], word);
      assert (a + b)[i] == a[i];
    }
    if Asked(b, word) {
      var i :| 0 <= i < |b| && Asks(b[i], word);
      assert (a + b)[|a| + i] == b[i];
    }
  }

  lemma HeardBoth(m: Machine, a: seq<Header>, m1: Machine, b: seq<Header>, m2: Machine)
    requires Heard(m, a, m1) && Heard(m1, b, m2)
    ensures Heard(m, a + b, m2)
  {
    hide Asked, Upgraded, Finished;
    AskedBoth(a, b, "keep-alive");
    AskedBoth(a, b, "close");
    UpgradedBoth(a, b);
  }

  lemma HeardNothing(m: Machine)
    ensures Heard(m, [], m)
  {
    hide Asks, Upgrades;
  }

  /** A line that is neither and leaves the flags alone. */
  lemma HeardElsewhere(m: Machine, h: Header, m1: Machine)
    requires LowerName(h.name) !in {"connection", "proxy-connection", "upgrade"}
    requires Finished(m1).keepAlive == Finished(m).keepAlive && Finished(m1).close == Finished(m).close
    requires Finished(m1).upgrade == Finished(m).upgrade
    ensures Heard(m, [h], m1)
  {
    hide Finished, LowerName, Says;
    AskedOne(h, "keep-alive");
    AskedOne(h, "close");
  }

  /** The two words that are looked for in a value of Connection, by the state that compares with them. */
  predicate Matching(h: HeaderState) {
    h.HMatchingKeepAlive? || h.HMatchingClose?
  }

  /** The first `i` bytes of `v` are those of the word, as far as it goes, and spaces behind it. */
  predicate Follows(v: string, i: nat, word: string)
    requires i <= |v|
  {
    && (forall k :: 0 <= k < i && k < |word| ==> TokenLower(v[k]) == word[k])
    && forall k :: |word| <= k < i ==> v[k] == ' '
  }

  /** How a value stands once `i` bytes of it have been compared with the word of `h`. */
  function WordState(h: HeaderState, v: string, i: nat): HeaderState
    requires Matching(h) && i <= |v|
  {
    if !Follows(v, i, KeywordText(h)) then HGeneral
    else if i < |KeywordText(h)| then h
    else if h.HMatchingKeepAlive? then HKeepAlive else HClose
  }

  /** The two ways of lowering a letter agree where a word could have it. */
  lemma LowerAlike(ch: char, c: char)
    requires IsHeaderChar(ch) && ch != CR && ('a' <= c <= 'z' || c == '-')
    ensures Lower(ch) == c <==> TokenLower(ch) == c
  {
  }

  lemma FollowsMore(v: string, i: nat, word: string)
    requires 1 <= i <= |v|
    ensures Follows(v, i, word)
         <==> Follows(v, i - 1, word) && (if i <= |word| then TokenLower(v[i - 1]) == word[i - 1] else v[i - 1] == ' ')
  {
  }

  lemma WordLetter(h: HeaderState, k: nat, ch: char)
    requires Matching(h) && k < |KeywordText(h)| && IsHeaderChar(ch) && ch != CR
    ensures Lower(ch) == KeywordText(h)[k] <==> TokenLower(ch) == KeywordText(h)[k]
  {
    hide Lower, TokenLower, IsHeaderChar;
    LowerAlike(ch, KeywordText(h)[k]);
  }

  /** The scanner compares a value with a word exactly as `Follows` says. */
  lemma {:induction false} WordTail(h: HeaderState, n: uint64, v: string, i: nat)
    requires Matching(h) && IsValue(v) && 1 <= i <= |v| && Lower(v[0]) == KeywordText(h)[0]
    ensures var t := TailScan(Scan(h, 0), n, v[1..], i - 1);
            t.Scanned? && t.scan.state == WordState(h, v, i) && (Matching(t.scan.state) ==> t.scan.index == i - 1)
  {
    hide Lower, TokenLower, IsHeaderChar, Follows;
    WordLetter(h, 0, v[0]);
    FollowsMore(v, i, KeywordText(h));
    if i == 1 {
      NothingFollows(v, KeywordText(h));
    } else {
      WordTail(h, n, v, i - 1);
      var ch := v[i - 1];
      assert v[1..][i - 2] == ch;
      if i <= |KeywordText(h)| { WordLetter(h, i - 1, ch); }
    }
  }

  lemma NothingFollows(v: string, word: string)
    ensures Follows(v, 0, word)
  {
  }

  lemma {:induction false} GeneralTail(s: Scan, n: uint64, w: string, i: nat)
    requires i <= |w| && s.state.HGeneral?
    ensures TailScan(s, n, w, i) == Scanned(s, n)
  {
    if i > 0 { GeneralTail(s, n, w, i - 1); }
  }

  lemma SaysFollows(v: string, word: string)
    ensures Says(v, word) <==> |word| <= |v| && Follows(v, |v|, word)
  {
    var l := LowerName(v);
    assert forall k :: 0 <= k < |v| ==> l[k] == TokenLower(v[k]);
    if |word| <= |v| {
      assert word <= l <==> forall k :: 0 <= k < |word| ==> l[k] == word[k];
    }
  }

  /** A Connection value, from its first byte `v[0]` on, is heard as what it says. */
  lemma ConnectionHeard(n: uint64, s: Scan, v: string)
    requires IsValue(v) && v != ""
    requires s == (if Lower(v[0]) == 'k' then Scan(HMatchingKeepAlive, 0)
                   else if Lower(v[0]) == 'c' then Scan(HMatchingClose, 0)
                   else Scan(HGeneral, 0))
    ensures var t := TailScan(s, n, v[1..], |v| - 1);
            && t.Scanned? && (t.scan.state.HKeepAlive? <==> Says(v, "keep-alive"))
            && (t.scan.state.HClose? <==> Says(v, "close"))
  {
    hide Lower, TokenLower, IsHeaderChar, Follows, Says, TailScan;
    SaysFollows(v, "keep-alive");
    SaysFollows(v, "close");
    WordBegins(v, "keep-alive");
    WordBegins(v, "close");
    WordLetter(HMatchingKeepAlive, 0, v[0]);
    WordLetter(HMatchingClose, 0, v[0]);
    if s.state.HGeneral? {
      GeneralTail(s, n, v[1..], |v| - 1);
    } else {
      WordTail(s.state, n, v, |v|);
    }
  }

  lemma WordBegins(v: string, word: string)
    requires v != "" && word != ""
    ensures Follows(v, |v|, word) ==> TokenLower(v[0]) == word[0]
  {
  }

  /** What the value of an ordinary line adds to the flags; `o` is the step at its first byte. */
  lemma ValueHeard(m: Machine, h: Header, o: Out)
    requires IsHeader(h) && h.value != "" && NameScan(h.name).Some? && OrdinaryName(NameScan(h.name).value.state)
    requires NameScan(h.name).value.state.HConnection? <==> LowerName(h.name) in {"connection", "proxy-connection"}
    requires LowerName(h.name) != "upgrade"
    requires var m1 := AtValue(m, h); m1.errno == NoError && o == ValueStartStep(m1.(nread := m1.nread + 1), h.value[0], false)
    ensures var t := TailScan(o.m.scan, o.m.contentLength, h.value[1..], |h.value| - 1);
            forall n :: t.Scanned? && Heard(m, [h], o.m.(state := ValueLws, scan := t.scan,
                                                          contentLength := t.contentLength, nread := n))
  {
    hide NameScan, SawTransferEncoding, TailScan, ValueStartStep, LowerName, Says, Asked, Upgraded;
    var m1 := AtValue(m, h).(nread := AtValue(m, h).nread + 1);
    OrdinaryStart(m1, h.value[0]);
    AskedOne(h, "keep-alive");
    AskedOne(h, "close");
    if NameScan(h.name).value.state.HConnection? {
      ConnectionHeard(o.m.contentLength, o.m.scan, h.value);
    } else {
      GeneralTail(o.m.scan, o.m.contentLength, h.value[1..], |h.value| - 1);
    }
  }

  lemma ValuedLine(c: Conn, h: Header) returns (c1: Conn)
    requires Open(c) && AtLine(c.m) && IsHeader(h) && h.value != "" && Room(c.m, |Line(h)|)
    requires NameScan(h.name).Some? && OrdinaryName(NameScan(h.name).value.state) && !SawTransferEncoding(h.name, |h.name|)
    requires NameScan(h.name).value.state.HConnection? <==> LowerName(h.name) in {"connection", "proxy-connection"}
    requires LowerName(h.name) != "upgrade"
    ensures Goes(c, Line(h), c1)
    ensures Open(c1) && c1.m.state.ValueLws? && Frame(c1.m) == Frame(c.m) && c1.m.nread == c.m.nread + |Line(h)|
    ensures c1.r == AddHeader(Caught(c), h) && Heard(c.m, [h], c1.m)
  {
    hide Goes, NameScan, SawTransferEncoding, TailScan, HeaderStep, ValueStartStep, LowerName, Known;
    var m := AtValue(c.m, h).(nread := AtValue(c.m, h).nread + 1);
    var o := ValueStartStep(m, h.value[0], false);
    OrdinaryStart(m, h.value[0]);
    HarmlessTail(o.m.scan, o.m.contentLength, h.value[1..], |h.value| - 1);
    LineRead(c, h, o);
    var t := TailScan(o.m.scan, o.m.contentLength, h.value[1..], |h.value| - 1);
    ValueHeard(c.m, h, o);
    c1 := Conn(o.m.(state := ValueLws, scan := t.scan, contentLength := t.contentLength, nread := c.m.nread + |Line(h)|),
               AddHeader(Caught(c), h));
    StillOpen(Caught(c), h);
  }

  lemma UpgradeStart(m: Machine, ch: char)
    requires m.errno == NoError && m.scan.state.HUpgrade? && ch != 'h'
    ensures ValueStartStep(m, ch, false)
         == Out(m.(state := HeaderValue, scan := Scan(HGeneral, 0), flags := m.flags.(upgrade := true)), [ValueData([ch])])
  {
  }

  lemma UpgradeFrame(m: Machine, h: Header, n: nat)
    requires AtLine(m) && IsHeader(h) && NameScan(h.name).Some? && !SawTransferEncoding(h.name, |h.name|)
    ensures var m0 := AtValue(m, h);
            var m1 := m0.(state := ValueLws, scan := Scan(HGeneral, 0), nread := n, flags := m0.flags.(upgrade := true));
            && Frame(m1) == Frame(m) && Finished(m1) == Finished(m).(upgrade := true)
  {
    hide NameScan, SawTransferEncoding, IsToken, IsHeaderChar;
  }

  /** An Upgrade line whose value does not begin with `h`: there the machine would look ahead. */
  lemma UpgradeLine(c: Conn, h: Header) returns (c1: Conn)
    requires Open(c) && AtLine(c.m) && IsHeader(h) && Room(c.m, |Line(h)|)
    requires LowerName(h.name) == "upgrade" && h.value != "" && h.value[0] != 'h'
    ensures Goes(c, Line(h), c1)
    ensures Open(c1) && c1.m.state.ValueLws? && Frame(c1.m) == Frame(c.m) && c1.m.nread == c.m.nread + |Line(h)|
    ensures c1.r == AddHeader(Caught(c), h) && Heard(c.m, [h], c1.m)
  {
    hide Goes, NameScan, SawTransferEncoding, TailScan, HeaderStep, ValueStartStep, LowerName, Known, Frame, Finished, Says,
         Asked, Upgraded;
    FramingNames(h.name);
    TransferEncodingSeen(h.name);
    var m := AtValue(c.m, h).(nread := AtValue(c.m, h).nread + 1);
    UpgradeStart(m, h.value[0]);
    var o := ValueStartStep(m, h.value[0], false);
    GeneralTail(o.m.scan, o.m.contentLength, h.value[1..], |h.value| - 1);
    LineRead(c, h, o);
    c1 := Conn(o.m.(state := ValueLws, nread := c.m.nread + |Line(h)|), AddHeader(Caught(c), h));
    UpgradeFrame(c.m, h, c1.m.nread);
    AskedOne(h, "keep-alive");
    AskedOne(h, "close");
    StillOpen(Caught(c), h);
  }

  /** A header other than Content-Length and Transfer-Encoding... changes nothing but the flags of Connection and Upgrade. */
  lemma OrdinaryLine(c: Conn, h: Header) returns (c1: Conn)
    requires Open(c) && AtLine(c.m) && IsHeader(h) && Room(c.m, |Line(h)|)
    requires var l := LowerName(h.name);
             l != "content-length" && !("transfer-encoding" <= l) && (l == "upgrade" ==> h.value == "" || h.value[0] != 'h')
    ensures Goes(c, Line(h), c1)
    ensures Open(c1) && AtLine(c1.m) && Frame(c1.m) == Frame(c.m) && c1.m.nread == c.m.nread + |Line(h)|
    ensures Caught(c1) == AddHeader(Caught(c), h) && Heard(c.m, [h], c1.m)
  {
    hide Goes, NameScan, SawTransferEncoding, TailScan, HeaderStep, ValueStartStep, LowerName, Known, Heard;
    FramingNames(h.name);
    TransferEncodingSeen(h.name);
    if h.value == "" {
      BareLineRead(c, h);
      c1 := Conn(AtValue(c.m, h).(state := ValueDiscardLws, nread := c.m.nread + |Line(h)|),
                 OnHeaderField(Caught(c), h.name));
      HeardSilence(c.m, h, c1.m);
    } else if LowerName(h.name) == "upgrade" {
      c1 := UpgradeLine(c, h);
    } else {
      OrdinaryEnd(h.name);
      c1 := ValuedLine(c, h);
    }
    StillOpen(c.r, h);
  }

  lemma HeardSilence(m: Machine, h: Header, m1: Machine)
    requires h.value == "" && m1.state.ValueDiscardLws? && m1.flags == Finished(m)
    ensures Heard(m, [h], m1)
  {
    AskedOne(h, "keep-alive");
    AskedOne(h, "close");
  }

  lemma StillOpen(r: Request, h: Header)
    ensures AddHeader(r, h).completions == r.completions
  {
  }

  lemma OrdinaryEnd(n: string)
    requires n != ""
    requires var l := LowerName(n); l != "content-length" && l != "transfer-encoding" && l != "upgrade"
    ensures NameScan(n).Some? && OrdinaryName(NameScan(n).value.state)
  {
    hide NameScan, LowerName, KeywordText;
    NameRecognised(n);
    FramingNames(n);
  }

  lemma {:induction false} TailIsLength(v: string, i: nat)
    requires 1 <= i <= |v| && IsNum(v[0])
    ensures TailScan(Scan(HContentLengthNum, 0), v[0] as int - '0' as int, v[1..], i - 1) == LengthScan(v, i)
  {
    hide ValueScan;
    if i > 1 {
      TailIsLength(v, i - 1);
      assert v[1..][i - 2] == v[i - 1];
    }
  }

  lemma LengthStart(m: Machine, ch: char)
    requires m.errno == NoError && m.scan.state.HContentLength? && IsNum(ch) && !m.flags.contentLength
    ensures ValueStartStep(m, ch, false)
         == Out(m.(state := HeaderValue, scan := Scan(HContentLengthNum, 0), contentLength := ch as int - '0' as int,
                   flags := m.flags.(contentLength := true)), [ValueData([ch])])
  {
  }

  /** What such a value leaves behind. */
  lemma LengthFrame(m: Machine, h: Header, s: Scan, length: uint64, n: nat)
    requires AtLine(m) && IsHeader(h) && NameScan(h.name).Some? && !SawTransferEncoding(h.name, |h.name|)
    requires s.state in {HContentLengthNum, HContentLengthWs}
    ensures var m0 := AtValue(m, h);
            var m1 := m0.(state := ValueLws, scan := s, contentLength := length, nread := n,
                          flags := m0.flags.(contentLength := true));
            && Frame(m1) == Frame(m).(contentLength := length, flags := Frame(m).flags.(contentLength := true))
            && Finished(m1).keepAlive == Finished(m).keepAlive && Finished(m1).close == Finished(m).close
            && Finished(m1).upgrade == Finished(m).upgrade
  {
    hide NameScan, SawTransferEncoding, IsToken, IsHeaderChar;
  }

  /** A Content-Length line, the first of its kind, fixes the length of the body. */
  lemma LengthLine(c: Conn, h: Header, k: nat) returns (c1: Conn)
    requires Open(c) && AtLine(c.m) && IsHeader(h) && Room(c.m, |Line(h)|)
    requires LowerName(h.name) == "content-length" && IsContentLength(h.value, k) && !c.m.flags.contentLength
    ensures Goes(c, Line(h), c1)
    ensures Open(c1) && c1.m.state.ValueLws? && c1.m.nread == c.m.nread + |Line(h)| && c1.r == AddHeader(Caught(c), h)
    ensures Frame(c1.m) == Frame(c.m).(contentLength := DigitsValue(h.value[..k]),
                                       flags := Frame(c.m).flags.(contentLength := true))
    ensures Heard(c.m, [h], c1.m)
  {
    hide Goes, NameScan, SawTransferEncoding, TailScan, HeaderStep, ValueStartStep, LowerName, Known, DigitsValue,
         LengthScan, Heard, Frame, Finished, IsContentLength;
    FramingNames(h.name);
    TransferEncodingSeen(h.name);
    var v := h.value;
    LengthBegins(v, k);
    FirstLength(c.m);
    var m := AtValue(c.m, h).(nread := AtValue(c.m, h).nread + 1);
    LengthStart(m, v[0]);
    ContentLengthExact(v);
    TailIsLength(v, |v|);
    LengthEnds(v, k);
    var o := ValueStartStep(m, v[0], false);
    LineRead(c, h, o);
    var t := TailScan(o.m.scan, o.m.contentLength, v[1..], |v| - 1);
    c1 := Conn(o.m.(state := ValueLws, scan := t.scan, contentLength := t.contentLength, nread := c.m.nread + |Line(h)|),
               AddHeader(Caught(c), h));
    LengthFrame(c.m, h, t.scan, t.contentLength, c1.m.nread);
    HeardElsewhere(c.m, h, c1.m);
    StillOpen(Caught(c), h);
  }

  lemma FirstLength(m: Machine)
    ensures Finished(m).contentLength == m.flags.contentLength
  {
  }

  lemma LengthBegins(v: string, k: nat)
    requires IsContentLength(v, k)
    ensures v != "" && IsNum(v[0]) && AllDigits(v[..k])
  {
    assert IsNum(v[..k][0]);
  }

  lemma LengthEnds(v: string, k: nat)
    requires v != "" && IsContentLength(v, k)
    ensures LengthScan(v, |v|).Scanned? && LengthScan(v, |v|).scan.state in {HContentLengthNum, HContentLengthWs}
  {
    hide LengthScan;
    ContentLengthExact(v);
    ScannedIsLength(v, |v|);
  }
}
