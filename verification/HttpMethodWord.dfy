/** The method word: the machine guesses from the first letter and corrects itself on the way. */
module HttpMethodWord {
  import opened Wrappers
  import opened HttpMachine
  import opened HttpRequest
  import opened HttpSplit
  import opened HttpGoes

  /** The method the machine has in mind after the first `i` letters of the name of `h`. */
  function Guess(h: Method, i: nat): Option<Method> {
    if i == 0 || i > |MethodName(h)| then None
    else
      var ch := MethodName(h)[i - 1];
      if i == 1 then FirstGuess(ch)
      else match Guess(h, i - 1)
        case None => None
        case Some(g) =>
          if i - 1 < |MethodName(g)| && ch == MethodName(g)[i - 1] then Some(g) else Correction(g, i - 1, ch)
  }

  /** Once the guess is right it stays right. */
  lemma {:induction false} GuessStays(h: Method, i: nat, j: nat)
    requires 1 <= i <= j <= |MethodName(h)| && Guess(h, i) == Some(h)
    ensures Guess(h, j) == Some(h)
  {
    hide MethodName, Correction, FirstGuess;
    if i < j { GuessStays(h, i, j - 1); }
  }

  /** How many letters it takes to guess `h`. */
  function LettersNeeded(h: Method): nat {
    match h
    case PUT => 2
    case PATCH => 2
    case MOVE => 2
    case SEARCH => 2
    case MERGE => 2
    case LINK => 2
    case SOURCE => 2
    case PROPFIND => 2
    case CHECKOUT => 2
    case MSEARCH => 2
    case PURGE => 3
    case COPY => 3
    case REBIND => 3
    case UNBIND => 3
    case MKACTIVITY => 3
    case UNSUBSCRIBE => 3
    case MKCALENDAR => 4
    case UNLINK => 4
    case PROPPATCH => 5
    case _ => 1
  }

  lemma Guessed1()
    ensures Guess(DELETE, 1) == Some(DELETE)
    ensures Guess(GET, 1) == Some(GET)
    ensures Guess(HEAD, 1) == Some(HEAD)
    ensures Guess(POST, 1) == Some(POST)
    ensures Guess(CONNECT, 1) == Some(CONNECT)
  {
  }

  lemma Guessed2()
    ensures Guess(OPTIONS, 1) == Some(OPTIONS)
    ensures Guess(TRACE, 1) == Some(TRACE)
    ensures Guess(LOCK, 1) == Some(LOCK)
    ensures Guess(MKCOL, 1) == Some(MKCOL)
    ensures Guess(UNLOCK, 1) == Some(UNLOCK)
  {
  }

  lemma Guessed3()
    ensures Guess(BIND, 1) == Some(BIND)
    ensures Guess(ACL, 1) == Some(ACL)
    ensures Guess(REPORT, 1) == Some(REPORT)
    ensures Guess(NOTIFY, 1) == Some(NOTIFY)
    ensures Guess(SUBSCRIBE, 1) == Some(SUBSCRIBE)
  {
  }

  lemma Guessed4()
    ensures Guess(PUT, 2) == Some(PUT)
    ensures Guess(PATCH, 2) == Some(PATCH)
    ensures Guess(MOVE, 2) == Some(MOVE)
    ensures Guess(SEARCH, 2) == Some(SEARCH)
  {
    assert Guess(PUT, 1) == Some(POST);
    assert Guess(PATCH, 1) == Some(POST);
    assert Guess(MOVE, 1) == Some(MKCOL);
    assert Guess(SEARCH, 1) == Some(SUBSCRIBE);
  }

  lemma Guessed5()
    ensures Guess(MERGE, 2) == Some(MERGE)
    ensures Guess(LINK, 2) == Some(LINK)
    ensures Guess(SOURCE, 2) == Some(SOURCE)
  {
    assert Guess(MERGE, 1) == Some(MKCOL);
    assert Guess(LINK, 1) == Some(LOCK);
    assert Guess(SOURCE, 1) == Some(SUBSCRIBE);
  }

  lemma Guessed6()
    ensures Guess(PROPFIND, 2) == Some(PROPFIND)
    ensures Guess(CHECKOUT, 2) == Some(CHECKOUT)
    ensures Guess(MSEARCH, 2) == Some(MSEARCH)
  {
    assert Guess(PROPFIND, 1) == Some(POST);
    assert Guess(CHECKOUT, 1) == Some(CONNECT);
    assert Guess(MSEARCH, 1) == Some(MKCOL);
  }

  lemma Guessed7()
    ensures Guess(PURGE, 3) == Some(PURGE)
    ensures Guess(COPY, 3) == Some(COPY)
    ensures Guess(REBIND, 3) == Some(REBIND)
  {
    assert Guess(PURGE, 1) == Some(POST);
    assert Guess(PURGE, 2) == Some(PUT);
    assert Guess(COPY, 1) == Some(CONNECT);
    assert Guess(COPY, 2) == Some(CONNECT);
    assert Guess(REBIND, 1) == Some(REPORT);
    assert Guess(REBIND, 2) == Some(REPORT);
  }

  lemma Guessed8()
    ensures Guess(UNBIND, 3) == Some(UNBIND)
    ensures Guess(MKACTIVITY, 3) == Some(MKACTIVITY)
    ensures Guess(UNSUBSCRIBE, 3) == Some(UNSUBSCRIBE)
  {
    assert Guess(UNBIND, 1) == Some(UNLOCK);
    assert Guess(UNBIND, 2) == Some(UNLOCK);
    assert Guess(MKACTIVITY, 1) == Some(MKCOL);
    assert Guess(MKACTIVITY, 2) == Some(MKCOL);
    assert Guess(UNSUBSCRIBE, 1) == Some(UNLOCK);
    assert Guess(UNSUBSCRIBE, 2) == Some(UNLOCK);
  }

  lemma Guessed9()
    ensures Guess(MKCALENDAR, 4) == Some(MKCALENDAR)
    ensures Guess(UNLINK, 4) == Some(UNLINK)
  {
    assert Guess(MKCALENDAR, 1) == Some(MKCOL);
    assert Guess(MKCALENDAR, 2) == Some(MKCOL);
    assert Guess(MKCALENDAR, 3) == Some(MKCOL);
    assert Guess(UNLINK, 1) == Some(UNLOCK);
    assert Guess(UNLINK, 2) == Some(UNLOCK);
    assert Guess(UNLINK, 3) == Some(UNLOCK);
  }

  lemma Guessed10()
    ensures Guess(PROPPATCH, 5) == Some(PROPPATCH)
  {
    assert Guess(PROPPATCH, 1) == Some(POST);
    assert Guess(PROPPATCH, 2) == Some(PROPFIND);
    assert Guess(PROPPATCH, 3) == Some(PROPFIND);
    assert Guess(PROPPATCH, 4) == Some(PROPFIND);
  }

  /** Every method of the table is guessed right from its name. */
  lemma GuessedRight(h: Method)
    ensures 1 <= LettersNeeded(h) <= |MethodName(h)|
    ensures forall i :: LettersNeeded(h) <= i <= |MethodName(h)| ==> Guess(h, i) == Some(h)
  {
    hide Guess, MethodName, LettersNeeded;
    NameLength(h);
    GuessSettles(h);
    forall i | LettersNeeded(h) <= i <= |MethodName(h)| ensures Guess(h, i) == Some(h) {
      GuessStays(h, LettersNeeded(h), i);
    }
  }

  lemma NameLength(h: Method)
    ensures 1 <= LettersNeeded(h) <= |MethodName(h)|
  {
  }

  lemma GuessSettles(h: Method)
    ensures Guess(h, LettersNeeded(h)) == Some(h)
  {
    hide Guess, MethodName;
    if LettersNeeded(h) == 1 { GuessedAtOnce(h); }
    else if LettersNeeded(h) == 2 { GuessedSecond(h); }
    else { GuessedLate(h); }
  }

  lemma GuessedAtOnce(h: Method)
    requires LettersNeeded(h) == 1
    ensures Guess(h, 1) == Some(h)
  {
    hide Guess, MethodName;
    Guessed1(); Guessed2(); Guessed3();
  }

  lemma GuessedSecond(h: Method)
    requires LettersNeeded(h) == 2
    ensures Guess(h, 2) == Some(h)
  {
    hide Guess, MethodName;
    Guessed4(); Guessed5(); Guessed6();
  }

  lemma GuessedLate(h: Method)
    requires LettersNeeded(h) > 2
    ensures Guess(h, LettersNeeded(h)) == Some(h)
  {
    hide Guess, MethodName;
    Guessed7(); Guessed8(); Guessed9(); Guessed10();
  }

  lemma NameLetters(h: Method, i: nat)
    requires i < |MethodName(h)|
    ensures MethodName(h)[i] == '-' || 'A' <= MethodName(h)[i] <= 'Z'
  {
  }

  lemma {:induction false} GuessDefined(h: Method, i: nat, j: nat)
    requires 1 <= i <= j && Guess(h, j).Some?
    ensures Guess(h, i).Some?
  {
    hide MethodName, Correction, FirstGuess;
    if i < j { GuessDefined(h, i, j - 1); }
  }

  /** The machine after `i` letters of the method word. */
  function InWord(c: Conn, h: Method, i: nat): Conn
    requires Guess(h, i).Some?
  {
    Conn(c.m.(flags := NO_FLAGS, usesTransferEncoding := false, contentLength := ULLONG_MAX,
              httpMethod := Guess(h, i).value, scan := Scan(c.m.scan.state, i), state := ReqMethod,
              nread := c.m.nread + i),
         if i <= 1 then c.r else c.r.(httpMethod := Guess(h, i).value))
  }

  lemma FirstLetter(c: Conn, h: Method)
    requires Open(c) && c.m.state.StartReq? && Room(c.m, 1)
    requires Guess(h, 1).Some?
    ensures Goes(c, MethodName(h)[..1], InWord(c, h, 1))
  {
    hide Goes, PeeksAt, MethodName, RequestLineStep;
    var ch := MethodName(h)[0];
    assert MethodName(h)[..1] == [ch];
    NameLetters(h, 0);
    LetterStep(c.m, ch);
    GoesByte(c, ch);
  }

  lemma LetterStep(m: Machine, ch: char)
    requires !Stopped(m) && Room(m, 1) && (m.state.StartReq? || m.state.ReqMethod?)
    ensures !PeeksAt(m, ch)
    ensures Step(m, ch, false)
         == var m1 := m.(nread := m.nread + 1); if m.state.StartReq? then StartReqStep(m1, ch) else MethodStep(m1, ch)
  {
    hide StartReqStep, MethodStep, UrlStep, VersionStep;
  }

  lemma NextGuess(m: Machine, h: Method, i: nat)
    requires 1 <= i < |MethodName(h)| && Guess(h, i + 1).Some? && Guess(h, i).Some?
    requires m.httpMethod == Guess(h, i).value && m.scan.index == i
    ensures var g := Guess(h, i + 1).value;
            MethodStep(m, MethodName(h)[i])
            == Out(m.(httpMethod := g, scan := m.scan.(index := i + 1)), [MethodSeen(g)])
  {
    hide MethodName, Correction, FirstGuess;
    NameLetters(h, i);
  }

  /** One letter more of a method word. */
  lemma NextLetter(c: Conn, s: string, c1: Conn, ch: char, g: Method)
    requires Goes(c, s, c1) && Open(c1) && Room(c1.m, 1) && c1.m.state.ReqMethod?
    requires var m1 := c1.m.(nread := c1.m.nread + 1);
             MethodStep(m1, ch) == Out(m1.(httpMethod := g, scan := m1.scan.(index := m1.scan.index + 1)), [MethodSeen(g)])
    ensures Goes(c, s + [ch], Conn(c1.m.(nread := c1.m.nread + 1, httpMethod := g,
                                         scan := c1.m.scan.(index := c1.m.scan.index + 1)),
                                   c1.r.(httpMethod := g)))
  {
    hide Goes, PeeksAt, Step, MethodStep;
    LetterStep(c1.m, ch);
    ApplyOne(c1.r, MethodSeen(g));
    GoesByteOn(c, s, c1, ch);
  }

  lemma {:induction false} WordPrefix(c: Conn, h: Method, i: nat)
    requires Open(c) && c.m.state.StartReq? && Room(c.m, i) && 1 <= i <= |MethodName(h)| && Guess(h, i).Some?
    ensures Goes(c, MethodName(h)[..i], InWord(c, h, i))
  {
    hide Goes, MethodName, Guess, MethodStep;
    if i == 1 {
      FirstLetter(c, h);
    } else {
      var name := MethodName(h);
      GuessDefined(h, i - 1, i);
      WordPrefix(c, h, i - 1);
      var c1 := InWord(c, h, i - 1);
      NextGuess(c1.m.(nread := c1.m.nread + 1), h, i - 1);
      NextLetter(c, name[..i - 1], c1, name[i - 1], Guess(h, i).value);
      assert name[..i] == name[..i - 1] + [name[i - 1]];
    }
  }

  /** Reading the name of a method and the space after it: the request has that method. */
  lemma MethodWord(c: Conn, h: Method)
    requires Open(c) && c.m.state.StartReq? && Room(c.m, |MethodName(h)| + 1)
    ensures var m1 := c.m.(flags := NO_FLAGS, usesTransferEncoding := false, contentLength := ULLONG_MAX,
                           httpMethod := h, scan := Scan(c.m.scan.state, |MethodName(h)| + 1),
                           state := ReqSpacesBeforeUrl, nread := c.m.nread + |MethodName(h)| + 1);
            Goes(c, MethodName(h) + " ", Conn(m1, c.r.(httpMethod := h)))
  {
    hide Goes, PeeksAt, MethodName, Step, Guess, RequestLineStep, LettersNeeded;
    GuessedRight(h);
    var n := |MethodName(h)|;
    WordPrefix(c, h, n);
    assert MethodName(h)[..n] == MethodName(h);
    var c1 := InWord(c, h, n);
    LetterStep(c1.m, ' ');
    ApplyOne(c1.r, MethodSeen(h));
    GoesByteOn(c, MethodName(h), c1, ' ');
    assert [' '] == " ";
  }
}
