/** Pieces of a request and what the parser makes of them. */
module HttpGoes {
  import opened HttpMachine
  import opened HttpRequest
  import opened HttpSplit

  /** Reading `data` takes the connection from `c` to `c1`, looks ahead nowhere and completes nothing
      before its end. */
  predicate Goes(c: Conn, data: string, c1: Conn) {
    NoPeek(c, data) && CompletesAtMostAtEnd(c, data) && RunTo(c, data, |data|) == c1
  }

  lemma GoesRuns(c: Conn, s: string, c1: Conn)
    requires Goes(c, s, c1)
    ensures RunTo(c, s, |s|) == c1 && NoPeek(c, s)
  {
    hide RunTo, PeeksAt;
  }

  predicate Open(c: Conn) {
    !Stopped(c.m) && c.r.completions == 0
  }

  lemma GoesNowhere(c: Conn)
    ensures Goes(c, "", c)
  {
  }

  lemma GoesByte(c: Conn, ch: char)
    requires Open(c) && !PeeksAt(c.m, ch)
    ensures Goes(c, [ch], StepConn(c, ch, false))
  {
    hide Step, PeeksAt;
    assert RunTo(c, [ch], 0) == c;
    assert RunTo(c, [ch], 1) == StepConn(c, ch, false);
  }

  lemma GoesOn(c: Conn, a: string, c1: Conn, b: string, c2: Conn)
    requires Goes(c, a, c1) && Goes(c1, b, c2)
    ensures Goes(c, a + b, c2)
  {
    hide RunTo, PeeksAt;
    var d := a + b;
    NoPeekNoCut(c, a, b);
    RunSuffix(c, a, b, |b|);
    forall k | 0 <= k < |d|
      ensures !PeeksAt(RunTo(c, d, k).m, d[k]) && RunTo(c, d, k).r.completions == 0 && !RunTo(c, d, k).m.halted
    {
      if k < |a| {
        RunPrefix(c, a, b, k);
        assert d[k] == a[k];
      } else {
        RunSuffix(c, a, b, k - |a|);
        assert d[k] == b[k - |a|];
      }
    }
  }

  /** One byte more. */
  lemma GoesByteOn(c: Conn, a: string, c1: Conn, ch: char)
    requires Goes(c, a, c1) && Open(c1) && !PeeksAt(c1.m, ch)
    ensures Goes(c, a + [ch], StepConn(c1, ch, false))
  {
    hide Step, PeeksAt, Goes;
    GoesByte(c1, ch);
    GoesOn(c, a, c1, [ch], StepConn(c1, ch, false));
  }

  /** The header limit leaves room for `n` more bytes. */
  predicate Room(m: Machine, n: nat) {
    m.nread + n <= m.config.maxHeaderSize
  }

  /** A step in a state that counts against the header limit, by the part of the switch it is in. */
  lemma CountedStep(m: Machine, ch: char, h2: bool)
    requires !Stopped(m) && ParsingHeader(m.state) && Room(m, 1)
    ensures Step(m, ch, h2) == Dispatch(m.(nread := m.nread + 1), ch, h2)
  {
    hide Dispatch;
  }
}
