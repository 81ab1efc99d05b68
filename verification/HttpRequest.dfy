/** The callbacks of `HTTPParser`: how events build a request, and runs of the machine over a buffer. */
module HttpRequest {
  import opened HttpMachine

  datatype Header = Header(name: string, value: string)

  /** `req` together with the three fields that assemble headers.  `building` is
      `header_building_state == 1`; a moved-from string is taken to be empty. */
  datatype Request = Request(httpMethod: Method, rawUrl: string, headers: seq<Header>, body: string,
                             field: string, value: string, building: bool,
                             httpMajor: nat, httpMinor: nat, keepAlive: bool, closeConnection: bool,
                             upgrade: bool, completions: nat)

  const EMPTY_REQUEST := Request(DELETE, "", [], "", "", "", false, 0, 0, false, false, false, 0)

  function OnHeaderField(r: Request, at: string): Request {
    if r.building then r.(field := r.field + at)
    else
      var r1 := if r.value != "" then r.(headers := r.headers + [Header(r.field, r.value)], value := "") else r;
      r1.(field := at, building := true)
  }

  function OnHeaderValue(r: Request, at: string): Request {
    if r.building then r.(building := false, value := at) else r.(value := r.value + at)
  }

  function OnHeadersComplete(r: Request, major: nat, minor: nat, flags: Flags, upgrade: bool): Request {
    var r1 := if r.field != "" then r.(headers := r.headers + [Header(r.field, r.value)], field := "", value := "")
              else r;
    var http10 := major == 1 && minor == 0;
    var http11 := major == 1 && minor == 1;
    r1.(httpMajor := major, httpMinor := minor, upgrade := upgrade,
        keepAlive := if http10 then flags.keepAlive else http11,
        closeConnection := if http10 then !flags.keepAlive else http11 && flags.close)
  }

  function Apply(r: Request, e: Event): Request {
    match e
    case MethodSeen(h) => r.(httpMethod := h)
    case UrlData(s) => r.(rawUrl := r.rawUrl + s)
    case FieldData(s) => OnHeaderField(r, s)
    case ValueData(s) => OnHeaderValue(r, s)
    case HeadersComplete(major, minor, flags, upgrade) => OnHeadersComplete(r, major, minor, flags, upgrade)
    case BodyData(s) => r.(body := r.body + s)
    case MessageComplete => r.(completions := r.completions + 1)
  }

  function ApplyAll(r: Request, es: seq<Event>): Request
    decreases es
  {
    if es == [] then r else ApplyAll(Apply(r, es[0]), es[1..])
  }

  lemma ApplyOne(r: Request, e: Event)
    ensures ApplyAll(r, [e]) == Apply(r, e)
  {
  }

  lemma {:induction false} ApplyAppend(r: Request, a: seq<Event>, b: seq<Event>)
    ensures ApplyAll(r, a + b) == ApplyAll(ApplyAll(r, a), b)
    decreases a
  {
    if a == [] {
      assert a + b == b;
    } else {
      assert (a + b)[0] == a[0] && (a + b)[1..] == a[1..] + b;
      ApplyAppend(Apply(r, a[0]), a[1..], b);
    }
  }

  /** A parser with the request it is building. */
  datatype Conn = Conn(m: Machine, r: Request)

  function StepConn(c: Conn, ch: char, h2: bool): Conn {
    var o := Step(c.m, ch, h2);
    Conn(o.m, ApplyAll(c.r, o.events))
  }

  /** Whether the byte after position `p` of this buffer is '2': all the look-ahead there is. */
  predicate Ahead(data: string, p: nat) {
    p + 1 < |data| && data[p + 1] == '2'
  }

  /** The connection after the first `p` bytes of the buffer, one step per byte. */
  function RunTo(c: Conn, data: string, p: nat): Conn
    requires p <= |data|
  {
    if p == 0 then c else StepConn(RunTo(c, data, p - 1), data[p - 1], Ahead(data, p - 1))
  }

  lemma RunStarts(c: Conn, data: string)
    ensures RunTo(c, data, 0) == c
  {
  }

  /** A stopped machine stays as it is. */
  lemma {:induction false} StoppedStays(c: Conn, data: string, p: nat, q: nat)
    requires p <= q <= |data|
    requires Stopped(RunTo(c, data, p).m)
    ensures RunTo(c, data, q) == RunTo(c, data, p)
  {
    hide Dispatch;
    if p < q {
      StoppedStays(c, data, p, q - 1);
    }
  }
}
