/** Which texts the reader takes for numbers. */
module JsonNumber {
  import opened Wrappers
  import opened JsonText

  // ---------------------------------------------------------------------------------------------
  // The texts

  predicate IsWhole(s: string) {
    s == "0" || (s != "" && AllDigits(s) && s[0] != '0')
  }

  /** A point, with or without digits behind it. */
  predicate IsFraction(s: string) {
    s == "" || (s[0] == '.' && AllDigits(s[1..]))
  }

  /** An `e`, a sign or a digit, and more digits, if there are any. */
  predicate IsExponent(s: string) {
    s == "" || (|s| >= 2 && (s[0] == 'e' || s[0] == 'E') && (s[1] == '+' || s[1] == '-' || '0' <= s[1] <= '9') && AllDigits(s[2..]))
  }

  /** The parts of a number; a zero takes no exponent without a point. */
  predicate AreParts(minus: bool, whole: string, fraction: string, exponent: string) {
    && IsWhole(whole) && IsFraction(fraction) && IsExponent(exponent)
    && (whole == "0" && fraction == "" ==> exponent == "")
  }

  function PartsText(minus: bool, whole: string, fraction: string, exponent: string): string {
    (if minus then "-" else "") + (whole + (fraction + exponent))
  }

  ghost predicate IsNumber(s: string) {
    exists minus: bool, whole: string, fraction: string, exponent: string ::
      AreParts(minus, whole, fraction, exponent) && s == PartsText(minus, whole, fraction, exponent)
  }

  predicate AllNumeric(s: string) {
    forall k :: 0 <= k < |s| ==> InNumber(s[k])
  }

  // ---------------------------------------------------------------------------------------------
  // One character

  /** The first character of a text that goes on as one. */
  lemma {:induction false} First(s: string, post: string, state: NumberState)
    requires s != "" && AllNumeric(s) && !state.Invalid?
    ensures AllNumeric(s[1..])
    ensures NumberLength(s + post, state) == Shift(1, NumberLength(s[1..] + post, NumberStep(state, s[0])))
  {
    hide NumberStep, InNumber;
    assert (s + post)[1..] == s[1..] + post;
  }

  lemma {:induction false} AtTheEnd(post: string, state: NumberState)
    requires NumberEnds(post)
    ensures NumberLength("" + post, state) == if Accepting(state) then Some(0) else None
    ensures NumberLength(post, state) == if Accepting(state) then Some(0) else None
  {
    assert "" + post == post;
  }

  lemma Wrong(s: string)
    ensures NumberLength(s, Invalid) == None
  {
  }

  /** The states in which digits change nothing. */
  predicate TakesDigits(state: NumberState) {
    state.InDigits? || state.DigitsAfterPoints? || state.DigitsAfterE?
  }

  lemma DigitStays(state: NumberState, c: char)
    requires '0' <= c <= '9'
    ensures TakesDigits(state) ==> NumberStep(state, c) == state
    ensures state.E? ==> NumberStep(state, c) == DigitsAfterE
    ensures state.ZeroFirst? ==> NumberStep(state, c) == Invalid
    ensures state.Minus? || state.AfterMinus? ==> NumberStep(state, c) == if c == '0' then ZeroFirst else InDigits
  {
  }

  lemma OtherSteps(state: NumberState, c: char)
    requires InNumber(c) && !('0' <= c <= '9') && !state.Invalid?
    ensures NumberStep(state, c) ==
            if c == '.' then (if state.ZeroFirst? || state.InDigits? then DigitsAfterPoints else Invalid)
            else if c == 'e' || c == 'E' then (if state.InDigits? || state.DigitsAfterPoints? then NumberState.E else Invalid)
            else if state.E? then DigitsAfterE
            else if c == '-' && state.Minus? then AfterMinus else Invalid
  {
  }

  // ---------------------------------------------------------------------------------------------
  // Every number is read

  lemma {:induction false} DigitsPass(d: string, rest: string, state: NumberState)
    requires AllDigits(d) && TakesDigits(state)
    ensures NumberLength(d + rest, state) == Shift(|d|, NumberLength(rest, state))
    decreases |d|
  {
    hide NumberStep, NumberLength;
    if d == "" {
      assert d + rest == rest;
    } else {
      DigitFirst(d);
      DigitStays(state, d[0]);
      assert (d + rest)[1..] == d[1..] + rest;
      NumberMore(d + rest, state);
      DigitsPass(d[1..], rest, state);
    }
  }

  lemma {:induction false} ExponentRead(e: string, post: string, state: NumberState)
    requires IsExponent(e) && NumberEnds(post) && Accepting(state)
    requires e != "" ==> state.InDigits? || state.DigitsAfterPoints?
    ensures NumberLength(e + post, state) == Some(|e|)
  {
    hide NumberStep, NumberLength, NumberEnds;
    if e == "" {
      AtTheEnd(post, state);
    } else {
      var t := e + post;
      assert t[1..][1..] == e[2..] + post;
      NumberMore(t, state);
      OtherSteps(state, e[0]);
      NumberMore(t[1..], NumberState.E);
      if '0' <= e[1] <= '9' { DigitStays(NumberState.E, e[1]); } else { OtherSteps(NumberState.E, e[1]); }
      DigitsPass(e[2..], post, DigitsAfterE);
      AtTheEnd(post, DigitsAfterE);
    }
  }

  lemma Behind(a: string, rest: string)
    requires a != ""
    ensures a + rest != "" && (a + rest)[0] == a[0] && (a + rest)[1..] == a[1..] + rest
  {
  }

  /** The first character of a text that goes on. */
  lemma {:induction false} Over(a: string, rest: string, state: NumberState)
    requires a != "" && InNumber(a[0]) && !state.Invalid?
    ensures NumberLength(a + rest, state) == Shift(1, NumberLength(a[1..] + rest, NumberStep(state, a[0])))
  {
    hide NumberStep, NumberLength, InNumber;
    Behind(a, rest);
    NumberMore(a + rest, state);
  }

  lemma {:induction false} FractionPass(f: string, rest: string, state: NumberState)
    requires f != "" && IsFraction(f) && (state.ZeroFirst? || state.InDigits?)
    ensures NumberLength(f + rest, state) == Shift(|f|, NumberLength(rest, DigitsAfterPoints))
  {
    hide NumberStep, NumberLength, AllDigits;
    PointStep(state, f[0]);
    Over(f, rest, state);
    DigitsPass(f[1..], rest, DigitsAfterPoints);
  }

  lemma PointStep(state: NumberState, c: char)
    requires c == '.' && (state.ZeroFirst? || state.InDigits?)
    ensures NumberStep(state, c) == DigitsAfterPoints
  {
  }

  lemma {:induction false} FractionRead(f: string, e: string, post: string, state: NumberState)
    requires IsFraction(f) && IsExponent(e) && NumberEnds(post) && (state.ZeroFirst? || state.InDigits?)
    requires state.ZeroFirst? && f == "" ==> e == ""
    ensures NumberLength(f + (e + post), state) == Some(|f| + |e|)
  {
    hide NumberStep, NumberLength, IsExponent, IsFraction, NumberEnds;
    var rest := e + post;
    if f == "" {
      assert f + rest == rest;
      ExponentRead(e, post, state);
    } else {
      FractionPass(f, rest, state);
      ExponentRead(e, post, DigitsAfterPoints);
    }
  }

  lemma {:induction false} WholePass(w: string, rest: string, state: NumberState)
    requires IsWhole(w) && (state.Minus? || state.AfterMinus?)
    ensures NumberLength(w + rest, state) == Shift(|w|, NumberLength(rest, if w == "0" then ZeroFirst else InDigits))
  {
    hide NumberStep, NumberLength, AllDigits;
    WholeBegins(w);
    Over(w, rest, state);
    DigitStays(state, w[0]);
    if w == "0" {
      assert w[1..] + rest == rest;
    } else {
      DigitsPass(w[1..], rest, InDigits);
    }
  }

  lemma {:induction false} WholeRead(w: string, f: string, e: string, post: string, state: NumberState)
    requires AreParts(false, w, f, e) && NumberEnds(post) && (state.Minus? || state.AfterMinus?)
    ensures NumberLength(w + (f + (e + post)), state) == Some(|w| + |f| + |e|)
  {
    hide NumberStep, NumberLength, IsExponent, IsFraction, IsWhole, NumberEnds;
    WholePass(w, f + (e + post), state);
    FractionRead(f, e, post, if w == "0" then ZeroFirst else InDigits);
  }

  lemma WholeBegins(w: string)
    requires IsWhole(w)
    ensures w != "" && '0' <= w[0] <= '9' && InNumber(w[0]) && AllDigits(w[1..]) && (w[0] == '0' <==> w == "0")
  {
  }

  lemma {:induction false} PartsRead(minus: bool, w: string, f: string, e: string, post: string)
    requires AreParts(minus, w, f, e) && NumberEnds(post)
    ensures NumberLength(PartsText(minus, w, f, e) + post, Minus) == Some(|PartsText(minus, w, f, e)|)
  {
    hide NumberStep, NumberLength, AreParts, NumberEnds;
    var t := PartsText(minus, w, f, e) + post;
    assert AreParts(false, w, f, e) by { EitherSign(minus, w, f, e); }
    if minus {
      assert t[1..] == w + (f + (e + post)) && t[0] == '-';
      NumberMore(t, Minus);
      OtherSteps(Minus, '-');
      WholeRead(w, f, e, post, AfterMinus);
    } else {
      assert t == w + (f + (e + post));
      WholeRead(w, f, e, post, Minus);
    }
  }

  lemma EitherSign(minus: bool, w: string, f: string, e: string)
    requires AreParts(minus, w, f, e)
    ensures AreParts(!minus, w, f, e) && AreParts(false, w, f, e)
  {
  }

  // ---------------------------------------------------------------------------------------------
  // Nothing else is read

  /** Digits up to where the rest begins. */
  lemma {:induction false} DigitsSplit(s: string, post: string, state: NumberState) returns (d: string, rest: string)
    requires AllNumeric(s) && TakesDigits(state) && NumberLength(s + post, state).Some?
    ensures s == d + rest && AllDigits(d) && (rest != "" ==> !('0' <= rest[0] <= '9'))
    ensures AllNumeric(rest) && NumberLength(rest + post, state).Some?
    decreases |s|
  {
    hide NumberStep, NumberLength, InNumber;
    d, rest := "", s;
    assert "" + s == s;
    if s != "" && '0' <= s[0] <= '9' {
      First(s, post, state);
      DigitStays(state, s[0]);
      var d1, rest1 := DigitsSplit(s[1..], post, state);
      d, rest := [s[0]] + d1, rest1;
      assert s == [s[0]] + s[1..];
    }
  }

  lemma {:induction false} ExponentOf(s: string, post: string, state: NumberState)
    requires AllNumeric(s) && (s != "" ==> !('0' <= s[0] <= '9') && s[0] != '.')
    requires state.InDigits? || state.DigitsAfterPoints? || (state.ZeroFirst? && s == "")
    requires NumberEnds(post) && NumberLength(s + post, state).Some?
    ensures IsExponent(s)
  {
    hide NumberStep, NumberLength, NumberEnds;
    if s != "" {
      First(s, post, state);
      OtherSteps(state, s[0]);
      Wrong(s[1..] + post);
      AtTheEnd(post, NumberState.E);
      First(s[1..], post, NumberState.E);
      assert s[1..][1..] == s[2..] && s[1..][0] == s[1];
      if '0' <= s[1] <= '9' { DigitStays(NumberState.E, s[1]); } else { OtherSteps(NumberState.E, s[1]); }
      Wrong(s[2..] + post);
      OnlyDigits(s[2..], post);
    }
  }

  lemma {:induction false} OnlyDigits(s: string, post: string)
    requires AllNumeric(s) && NumberLength(s + post, DigitsAfterE).Some?
    ensures AllDigits(s)
  {
    hide NumberStep, NumberLength;
    var d, rest := DigitsSplit(s, post, DigitsAfterE);
    if rest != "" {
      First(rest, post, DigitsAfterE);
      OtherSteps(DigitsAfterE, rest[0]);
      Wrong(rest[1..] + post);
    }
    assert s == d;
  }

  lemma {:induction false} FractionOf(s: string, post: string, state: NumberState) returns (f: string, e: string)
    requires AllNumeric(s) && (state.InDigits? || state.ZeroFirst?) && (s != "" ==> !('0' <= s[0] <= '9'))
    requires NumberEnds(post) && NumberLength(s + post, state).Some?
    ensures s == f + e && IsFraction(f) && IsExponent(e) && (state.ZeroFirst? && f == "" ==> e == "")
  {
    hide NumberStep, NumberLength, NumberEnds, IsExponent;
    f, e := "", s;
    assert "" + s == s;
    if s != "" && s[0] == '.' {
      First(s, post, state);
      OtherSteps(state, '.');
      var d, rest := DigitsSplit(s[1..], post, DigitsAfterPoints);
      if rest != "" && rest[0] == '.' {
        First(rest, post, DigitsAfterPoints);
        OtherSteps(DigitsAfterPoints, '.');
        Wrong(rest[1..] + post);
      }
      ExponentOf(rest, post, DigitsAfterPoints);
      f, e := "." + d, rest;
      assert s == "." + s[1..] && f[1..] == d;
    } else {
      if s != "" && state.ZeroFirst? {
        First(s, post, state);
        OtherSteps(state, s[0]);
        Wrong(s[1..] + post);
      }
      ExponentOf(s, post, state);
    }
  }

  lemma {:induction false} WholeOf(s: string, post: string, state: NumberState) returns (w: string, f: string, e: string)
    requires AllNumeric(s) && (state.Minus? || state.AfterMinus?) && (s != "" ==> s[0] != '-' || state.AfterMinus?)
    requires NumberEnds(post) && NumberLength(s + post, state).Some?
    ensures AreParts(false, w, f, e) && s == w + (f + e)
  {
    hide NumberStep, NumberLength, NumberEnds, IsExponent, IsFraction;
    AtTheEnd(post, state);
    First(s, post, state);
    Wrong(s[1..] + post);
    if !('0' <= s[0] <= '9') {
      OtherSteps(state, s[0]);
      assert false;
    }
    DigitStays(state, s[0]);
    assert s == [s[0]] + s[1..];
    if s[0] == '0' {
      NoDigitNext(s[1..], post);
      f, e := FractionOf(s[1..], post, ZeroFirst);
      w := "0";
    } else {
      var d, rest := DigitsSplit(s[1..], post, InDigits);
      f, e := FractionOf(rest, post, InDigits);
      w := [s[0]] + d;
      assert s == w + rest;
    }
  }

  lemma {:induction false} NoDigitNext(s: string, post: string)
    requires AllNumeric(s) && NumberLength(s + post, ZeroFirst).Some?
    ensures s != "" ==> !('0' <= s[0] <= '9')
  {
    hide NumberStep, NumberLength;
    if s != "" && '0' <= s[0] <= '9' {
      First(s, post, ZeroFirst);
      DigitStays(ZeroFirst, s[0]);
      Wrong(s[1..] + post);
    }
  }

  lemma {:induction false} PartsOf(s: string, post: string)
    requires AllNumeric(s) && NumberEnds(post) && NumberLength(s + post, Minus).Some?
    ensures IsNumber(s)
  {
    hide NumberStep, NumberLength, NumberEnds, AreParts, InNumber;
    AtTheEnd(post, Minus);
    if s[0] == '-' {
      First(s, post, Minus);
      MinusStep();
      var w, f, e := WholeOf(s[1..], post, AfterMinus);
      EitherSign(false, w, f, e);
      assert s == PartsText(true, w, f, e);
    } else {
      var w, f, e := WholeOf(s, post, Minus);
      assert s == PartsText(false, w, f, e);
    }
  }

  /** The reader takes a run of digits, signs, points and `e`s for a number exactly if it is one: unlike section 6 of
      RFC 8259 it takes `1.` and `1e+`, and refuses `0e1`. */
  lemma {:induction false} NumberExact(s: string, post: string)
    requires AllNumeric(s) && NumberEnds(post)
    ensures NumberLength(s + post, Minus) == if IsNumber(s) then Some(|s|) else None
  {
    hide NumberLength, AreParts, NumberEnds, AllNumeric;
    if IsNumber(s) {
      var minus: bool, w: string, f: string, e: string :| AreParts(minus, w, f, e) && s == PartsText(minus, w, f, e);
      PartsRead(minus, w, f, e, post);
    } else if NumberLength(s + post, Minus).Some? {
      PartsOf(s, post);
    }
  }
}
