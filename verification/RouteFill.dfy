/** What a rule means for urls: a url that is written by putting values into the places of a rule is found by that
    rule, and these values are what its handler is given. */
module RouteFill {
  import opened Wrappers
  import opened RoutePattern
  import opened RouteTrie
  import opened RouteSearch
  import opened RouteTable

  // ---------------------------------------------------------------------------------------------
  // Numbers as texts

  const FIGURES: string := "0123456789"

  /** The decimal text of a number. */
  function Decimal(n: nat): (s: string)
    ensures s != ""
  {
    if n < 10 then [FIGURES[n]] else Decimal(n / 10) + [FIGURES[n % 10]]
  }

  function Zeros(k: nat): string {
    if k == 0 then "" else "0" + Zeros(k - 1)
  }

  function Signed(sign: string, n: nat): int {
    if sign == "-" then 0 - n else n
  }

  predicate NoFigure(s: string) {
    s == "" || s[0] !in FIGURES
  }

  lemma Figure(d: nat)
    requires d < 10
    ensures IsDigit(FIGURES[d]) && FIGURES[d] as int - '0' as int == d
  {
  }

  lemma FigureIs(c: char)
    ensures c in FIGURES <==> IsDigit(c)
  {
    if IsDigit(c) { assert FIGURES[c as int - '0' as int] == c; }
  }

  predicate AllFigures(s: string) {
    forall k :: 0 <= k < |s| ==> IsDigit(s[k])
  }

  lemma NumberMore(s: string, c: char)
    requires AllFigures(s) && IsDigit(c)
    ensures AllFigures(s + [c]) && Number(s + [c]) == Number(s) * 10 + (c as int - '0' as int)
  {
    assert (s + [c])[..|s|] == s;
  }

  lemma {:induction false} DecimalIs(n: nat)
    ensures AllFigures(Decimal(n)) && Number(Decimal(n)) == n
    decreases n
  {
    Figure(n % 10);
    if n < 10 {
      NumberMore("", FIGURES[n]);
      assert "" + [FIGURES[n]] == Decimal(n);
    } else {
      DecimalIs(n / 10);
      NumberMore(Decimal(n / 10), FIGURES[n % 10]);
    }
  }

  lemma {:induction false} LeadingZero(s: string)
    requires AllFigures(s)
    ensures AllFigures("0" + s) && Number("0" + s) == Number(s)
    decreases |s|
  {
    hide Number, AllFigures;
    if s == "" {
      NothingNumber();
      NumberMore("", '0');
      assert "" + ['0'] == "0" + s;
    } else {
      var front, c := s[..|s| - 1], s[|s| - 1];
      assert front + [c] == s && "0" + front + [c] == "0" + s;
      FrontFigures(front, c);
      LeadingZero(front);
      NumberMore(front, c);
      NumberMore("0" + front, c);
    }
  }

  lemma NothingNumber()
    ensures AllFigures("") && Number("") == 0
  {
  }

  lemma FrontFigures(front: string, c: char)
    requires AllFigures(front + [c])
    ensures AllFigures(front) && IsDigit(c)
  {
    assert forall k :: 0 <= k < |front| ==> (front + [c])[k] == front[k];
    assert (front + [c])[|front|] == c;
  }

  lemma {:induction false} PaddedIs(k: nat, n: nat)
    ensures var d := Zeros(k) + Decimal(n); d != "" && AllFigures(d) && Number(d) == n
    decreases k
  {
    hide Number, Decimal, AllFigures;
    if k == 0 {
      DecimalIs(n);
      assert "" + Decimal(n) == Decimal(n);
    } else {
      PaddedIs(k - 1, n);
      LeadingZero(Zeros(k - 1) + Decimal(n));
      assert Zeros(k) + Decimal(n) == "0" + (Zeros(k - 1) + Decimal(n));
    }
  }

  /** The digits of a text end where the next character is none. */
  lemma {:induction false} DigitsTaken(pre: string, d: string, rest: string, i: nat)
    requires AllFigures(d) && i <= |d| && NoFigure(rest)
    ensures DigitsEnd(pre + d + rest, |pre| + i) == |pre| + |d|
    decreases |d| - i
  {
    var s := pre + d + rest;
    if i < |d| {
      assert s[|pre| + i] == d[i];
      DigitsTaken(pre, d, rest, i + 1);
    } else if rest != "" {
      assert s[|pre| + |d|] == rest[0];
      FigureIs(rest[0]);
    }
  }

  /** A sign, zeros and a decimal text, with no digit behind them, are taken whole, as the number they spell; outside
      of the range they are refused. */
  lemma IntegerTaken(pre: string, sign: string, zeros: nat, n: nat, rest: string, low: int, high: int)
    requires sign in {"", "+", "-"} && NoFigure(rest)
    ensures var text, v: int := sign + (Zeros(zeros) + Decimal(n)), Signed(sign, n);
            && text != ""
            && Integer(pre + (text + rest), |pre|, low, high)
               == if low <= v <= high then Some(Taken(v, |pre| + |text|)) else None
  {
    hide Number, Decimal, DigitsEnd, Integer, Zeros, AllFigures, NoFigure;
    var d := Zeros(zeros) + Decimal(n);
    PaddedIs(zeros, n);
    DigitsTaken(pre + sign, d, rest, 0);
    SignedTaken(pre, sign, d, rest, low, high);
    assert pre + (sign + d + rest) == pre + sign + d + rest;
  }

  lemma SignedTaken(pre: string, sign: string, d: string, rest: string, low: int, high: int)
    requires sign in {"", "+", "-"} && d != "" && AllFigures(d)
    requires DigitsEnd(pre + sign + d + rest, |pre| + |sign|) == |pre| + |sign| + |d|
    ensures Integer(pre + sign + d + rest, |pre|, low, high)
         == (var v := Signed(sign, Number(d));
             if low <= v <= high then Some(Taken(v, |pre| + |sign| + |d|)) else None)
  {
    hide Number, DigitsEnd;
    var s, start := pre + sign + d + rest, |pre| + |sign|;
    assert s[start..start + |d|] == d;
    if sign == "" {
      assert s[|pre|] == d[0] && IsDigit(d[0]);
    } else {
      assert s[|pre|] == sign[0];
    }
  }

  // ---------------------------------------------------------------------------------------------
  // Rules and the urls that are written from them

  /** A place of a rule, with what a url has there. */
  datatype Slot =
    | Plain(c: char)
    | Int(sign: string, zeros: nat, n: nat)
    | UInt(plus: string, zeros: nat, n: nat)
    | Real(text: string, value: real, tag: string)
    | Word(s: string, tag: string)
    | Tail(s: string)

  /** What stands in the text of the rule. */
  function RuleText(slots: seq<Slot>): string {
    if slots == [] then "" else SlotRule(slots[0]) + RuleText(slots[1..])
  }

  function SlotRule(s: Slot): string {
    match s
    case Plain(c) => [c]
    case Int(_, _, _) => "<int>"
    case UInt(_, _, _) => "<uint>"
    case Real(_, _, tag) => tag
    case Word(_, tag) => tag
    case Tail(_) => "<path>"
  }

  /** What stands in the url. */
  function UrlText(slots: seq<Slot>): string {
    if slots == [] then "" else SlotUrl(slots[0]) + UrlText(slots[1..])
  }

  function SlotUrl(s: Slot): string {
    match s
    case Plain(c) => [c]
    case Int(sign, zeros, n) => sign + (Zeros(zeros) + Decimal(n))
    case UInt(plus, zeros, n) => plus + (Zeros(zeros) + Decimal(n))
    case Real(text, _, _) => text
    case Word(s, _) => s
    case Tail(s) => s
  }

  /** What the handler is given. */
  function Given(p: Captured, slots: seq<Slot>): Captured
    decreases |slots|
  {
    if slots == [] then p else Given(SlotGiven(p, slots[0]), slots[1..])
  }

  function SlotGiven(p: Captured, s: Slot): Captured {
    match s
    case Plain(_) => p
    case Int(sign, _, n) => p.(ints := p.ints + [Signed(sign, n)])
    case UInt(_, _, n) => p.(uints := p.uints + [n])
    case Real(_, value, _) => p.(doubles := p.doubles + [value])
    case Word(s, _) => p.(strings := p.strings + [s])
    case Tail(s) => p.(strings := p.strings + [s])
  }

  /** The value fits its place, and what follows in the url does not look like more of it. */
  predicate Fits(f: Strtod, s: Slot, rest: string) {
    match s
    case Plain(c) => c != '<'
    case Int(sign, _, n) =>
      sign in {"", "+", "-"} && NoFigure(rest)
      && (if sign == "-" then n <= 9223372036854775808 else n <= 9223372036854775807)
    case UInt(plus, _, n) => plus in {"", "+"} && NoFigure(rest) && n <= 18446744073709551615
    case Real(text, value, tag) =>
      tag in {"<float>", "<double>"} && text != "" && (text[0] in FIGURES || text[0] in "+-.")
      && f(text + rest) == Some((value, |text|))
    case Word(s, tag) => tag in {"<str>", "<string>"} && s != "" && '/' !in s && (rest == "" || rest[0] == '/')
    case Tail(s) => s != "" && rest == ""
  }

  /** The place can be written in a rule. */
  predicate Writable(s: Slot) {
    match s
    case Plain(c) => c != '<'
    case Real(_, _, tag) => tag in {"<float>", "<double>"}
    case Word(_, tag) => tag in {"<str>", "<string>"}
    case _ => true
  }

  predicate AllWritable(slots: seq<Slot>) {
    forall k :: 0 <= k < |slots| ==> Writable(slots[k])
  }

  /** All values fit their places, in a url that goes on with `rest`. */
  predicate AllFit(f: Strtod, slots: seq<Slot>, rest: string) {
    slots == [] || (Fits(f, slots[0], UrlText(slots[1..]) + rest) && AllFit(f, slots[1..], rest))
  }

  function SlotPiece(s: Slot): Piece {
    match s
    case Plain(c) => Lit(c)
    case Int(_, _, _) => Par(INT)
    case UInt(_, _, _) => Par(UINT)
    case Real(_, _, _) => Par(DOUBLE)
    case Word(_, _) => Par(STRING)
    case Tail(_) => Par(PATH)
  }

  function Pattern(slots: seq<Slot>): seq<Piece> {
    if slots == [] then [] else [SlotPiece(slots[0])] + Pattern(slots[1..])
  }

  // ---------------------------------------------------------------------------------------------
  // The url matches

  lemma {:induction false} SegmentTaken(pre: string, s: string, rest: string, i: nat)
    requires '/' !in s && i <= |s| && (rest == "" || rest[0] == '/')
    ensures SegmentEnd(pre + (s + rest), |pre| + i) == |pre| + |s|
    decreases |s| - i
  {
    var t := pre + (s + rest);
    if i < |s| {
      assert t[|pre| + i] == s[i];
      SegmentTaken(pre, s, rest, i + 1);
    } else if rest != "" {
      assert t[|pre| + |s|] == rest[0];
    }
  }

  lemma SlotEaten(f: Strtod, s: Slot, pre: string, rest: string, p: Captured)
    requires Fits(f, s, rest)
    ensures SlotUrl(s) != ""
    ensures Eat(f, SlotPiece(s), pre + (SlotUrl(s) + rest), At(|pre|, p))
         == Some(At(|pre| + |SlotUrl(s)|, SlotGiven(p, s)))
  {
    hide Integer, SegmentEnd, Decimal, Zeros;
    var t := pre + (SlotUrl(s) + rest);
    match s {
      case Plain(c) =>
        assert t[|pre|] == c;
      case Int(sign, zeros, n) =>
        IntegerTaken(pre, sign, zeros, n, rest, INT_MIN, INT_MAX);
        FirstOfNumber(pre, sign, zeros, n, rest);
      case UInt(plus, zeros, n) =>
        IntegerTaken(pre, plus, zeros, n, rest, 0, UINT_MAX);
        FirstOfNumber(pre, plus, zeros, n, rest);
      case Real(text, _, _) =>
        assert t[|pre|] == text[0] && t[|pre|..] == text + rest;
        FigureIs(text[0]);
      case Word(w, _) =>
        SegmentTaken(pre, w, rest, 0);
        assert t[|pre|..|pre| + |w|] == w;
      case Tail(w) =>
        assert t[|pre|..] == w;
    }
  }

  lemma FirstOfNumber(pre: string, sign: string, zeros: nat, n: nat, rest: string)
    requires sign in {"", "+", "-"}
    ensures var c := (pre + (sign + (Zeros(zeros) + Decimal(n)) + rest))[|pre|];
            if sign == "" then IsDigit(c) else c == sign[0]
  {
    hide Number, Decimal;
    PaddedIs(zeros, n);
    var d := Zeros(zeros) + Decimal(n);
    assert sign == "" ==> (pre + (sign + d + rest))[|pre|] == d[0];
  }

  /** The texts of the first place and of the others. */
  lemma Split(pre: string, slots: seq<Slot>)
    requires slots != []
    ensures UrlText(slots) == SlotUrl(slots[0]) + UrlText(slots[1..])
    ensures pre + RuleText(slots) == pre + (SlotRule(slots[0]) + RuleText(slots[1..]))
         == pre + SlotRule(slots[0]) + RuleText(slots[1..])
    ensures Pattern(slots)[0] == SlotPiece(slots[0]) && Pattern(slots)[1..] == Pattern(slots[1..]) && Pattern(slots) != []
  {
    hide SlotUrl, SlotRule, SlotPiece;
  }

  lemma EatFirst(f: Strtod, pattern: seq<Piece>, url: string, at: At)
    requires pattern != [] && at.pos <= |url| && Eat(f, pattern[0], url, at).Some?
    ensures EatAll(f, pattern, url, at) == EatAll(f, pattern[1..], url, Eat(f, pattern[0], url, at).value)
  {
    hide Eat;
  }

  lemma {:induction false} SlotsEaten(f: Strtod, slots: seq<Slot>, pre: string, rest: string, p: Captured)
    requires AllFit(f, slots, rest)
    ensures EatAll(f, Pattern(slots), pre + (UrlText(slots) + rest), At(|pre|, p))
         == Some(At(|pre| + |UrlText(slots)|, Given(p, slots)))
    decreases |slots|
  {
    hide Eat, EatAll, Fits, SlotUrl, SlotGiven, UrlText, Pattern, SlotPiece;
    var url := pre + (UrlText(slots) + rest);
    if slots == [] {
      NothingEaten(f, pre, rest, p);
    } else {
      var s, more := slots[0], slots[1..];
      Split(pre, slots);
      var first := pre + SlotUrl(s);
      assert url == first + (UrlText(more) + rest) == pre + (SlotUrl(s) + (UrlText(more) + rest));
      SlotEaten(f, s, pre, UrlText(more) + rest, p);
      EatFirst(f, Pattern(slots), url, At(|pre|, p));
      SlotsEaten(f, more, first, rest, SlotGiven(p, s));
    }
  }

  lemma NothingEaten(f: Strtod, pre: string, rest: string, p: Captured)
    ensures UrlText([]) == "" && EatAll(f, Pattern([]), pre + ("" + rest), At(|pre|, p)) == Some(At(|pre|, p))
  {
  }

  /** The url matches the pattern, with the values that were put into it. */
  lemma UrlMatches(f: Strtod, slots: seq<Slot>)
    requires AllFit(f, slots, "")
    ensures Match(f, Pattern(slots), UrlText(slots), At(0, NOTHING)) == Some(Given(NOTHING, slots))
  {
    hide EatAll, AllFit;
    SlotsEaten(f, slots, "", "", NOTHING);
    assert "" + (UrlText(slots) + "") == UrlText(slots);
  }

  /** A number without its range, as "<int>" or "<uint>" has it. */
  predicate OutOfRange(s: Slot, rest: string) {
    match s
    case Int(sign, _, n) =>
      sign in {"", "+", "-"} && NoFigure(rest)
      && !(if sign == "-" then n <= 9223372036854775808 else n <= 9223372036854775807)
    case UInt(plus, _, n) => plus in {"", "+"} && NoFigure(rest) && n > 18446744073709551615
    case _ => false
  }

  lemma NumberRefused(f: Strtod, s: Slot, pre: string, rest: string, p: Captured)
    requires OutOfRange(s, rest)
    ensures Eat(f, SlotPiece(s), pre + (SlotUrl(s) + rest), At(|pre|, p)) == None
  {
    hide Integer, SegmentEnd, Decimal, Zeros;
    if s.Int? {
      IntegerTaken(pre, s.sign, s.zeros, s.n, rest, INT_MIN, INT_MAX);
    } else {
      IntegerTaken(pre, s.plus, s.zeros, s.n, rest, 0, UINT_MAX);
    }
  }

  /** With a number that is out of range in it, a url does not match. */
  lemma UrlRefused(f: Strtod, front: seq<Slot>, s: Slot, behind: seq<Slot>)
    requires AllFit(f, front, SlotUrl(s) + UrlText(behind)) && OutOfRange(s, UrlText(behind))
    ensures Match(f, Pattern(front) + ([SlotPiece(s)] + Pattern(behind)),
                  UrlText(front) + (SlotUrl(s) + UrlText(behind)), At(0, NOTHING)) == None
  {
    hide Eat, EatAll, AllFit, OutOfRange, Given, Pattern, SlotPiece, SlotUrl, UrlText;
    var url := UrlText(front) + (SlotUrl(s) + UrlText(behind));
    SlotsEaten(f, front, "", SlotUrl(s) + UrlText(behind), NOTHING);
    assert "" + url == url;
    EatAppend(f, Pattern(front), [SlotPiece(s)] + Pattern(behind), url, At(0, NOTHING));
    var at := At(|UrlText(front)|, Given(NOTHING, front));
    NumberRefused(f, s, UrlText(front), UrlText(behind), at.params);
    EatNone(f, [SlotPiece(s)] + Pattern(behind), url, at);
  }

  lemma EatNone(f: Strtod, pattern: seq<Piece>, url: string, at: At)
    requires pattern != [] && at.pos <= |url| && Eat(f, pattern[0], url, at).None?
    ensures EatAll(f, pattern, url, at) == None
  {
    hide Eat;
  }

  // ---------------------------------------------------------------------------------------------
  // The text of the rule is that pattern

  /** Another word does not stand where a text has a different character. */
  lemma OtherWord(s: string, i: nat, word: string, j: nat)
    requires j < |word| && (i + j < |s| ==> s[i + j] != word[j])
    ensures !StartsWith(s, i, word)
  {
    if i + |word| <= |s| { assert s[i..i + |word|][j] == s[i + j]; }
  }

  lemma TagRead(pre: string, k: nat, rest: string)
    requires k < |TAGS|
    ensures var s := pre + (TAGS[k].0 + rest);
            TagAt(s, |pre|, 0) == Some(TAGS[k]) && s[|pre|] == '<'
  {
    hide StartsWith, TagAt;
    var s := pre + (TAGS[k].0 + rest);
    ThisWord(pre, TAGS[k].0, rest);
    forall m | 0 <= m < k ensures !StartsWith(s, |pre|, TAGS[m].0) { EarlierTag(pre, m, k, rest); }
    TagFound(s, |pre|, 0, k);
    assert TAGS[k].0[0] == '<' && s[|pre|] == TAGS[k].0[0];
  }

  /** Where an earlier word of the table differs from a later one. */
  function Difference(m: nat, k: nat): nat {
    if m == 4 && k == 5 then 4 else 1
  }

  lemma EarlierTag(pre: string, m: nat, k: nat, rest: string)
    requires m < k < |TAGS|
    ensures !StartsWith(pre + (TAGS[k].0 + rest), |pre|, TAGS[m].0)
  {
    var j := Difference(m, k);
    Differ(m, k);
    assert (pre + (TAGS[k].0 + rest))[|pre| + j] == TAGS[k].0[j];
    OtherWord(pre + (TAGS[k].0 + rest), |pre|, TAGS[m].0, j);
  }

  lemma Differ(m: nat, k: nat)
    requires m < k < |TAGS|
    ensures var j := Difference(m, k); j < |TAGS[k].0| && j < |TAGS[m].0| && TAGS[k].0[j] != TAGS[m].0[j]
  {
  }

  lemma ThisWord(pre: string, word: string, rest: string)
    ensures StartsWith(pre + (word + rest), |pre|, word)
  {
    assert (pre + (word + rest))[|pre|..|pre| + |word|] == word;
  }

  lemma {:induction false} TagFound(s: string, i: nat, j: nat, k: nat)
    requires j <= k < |TAGS| && StartsWith(s, i, TAGS[k].0)
    requires forall m :: j <= m < k ==> !StartsWith(s, i, TAGS[m].0)
    ensures TagAt(s, i, j) == Some(TAGS[k])
    decreases k - j
  {
    hide StartsWith;
    if j < k { TagFound(s, i, j + 1, k); }
  }

  /** Which entry of the table a place is written with. */
  function TagIndex(s: Slot): (k: nat)
    ensures k < 7
  {
    match s
    case Plain(_) => 0
    case Int(_, _, _) => 0
    case UInt(_, _, _) => 1
    case Real(_, _, tag) => if tag == "<float>" then 2 else 3
    case Word(_, tag) => if tag == "<str>" then 4 else 5
    case Tail(_) => 6
  }

  lemma SlotIsTag(s: Slot)
    requires Writable(s) && !s.Plain?
    ensures TAGS[TagIndex(s)] == (SlotRule(s), SlotPiece(s).t) && SlotPiece(s).Par?
  {
  }

  lemma LitPiece(text: string, i: nat)
    requires i < |text| && text[i] != '<'
    ensures Pieces(text, i) == Before(Lit(text[i]), Pieces(text, i + 1))
  {
    hide TagAt;
  }

  lemma TagPiece(text: string, i: nat)
    requires i < |text| && text[i] == '<' && TagAt(text, i, 0).Some?
    ensures var tag := TagAt(text, i, 0).value; Pieces(text, i) == Before(Par(tag.1), Pieces(text, i + |tag.0|))
  {
    hide TagAt;
  }

  lemma {:induction false} RuleIs(slots: seq<Slot>, pre: string)
    requires AllWritable(slots)
    ensures Pieces(pre + RuleText(slots), |pre|) == Some(Pattern(slots))
    decreases |slots|
  {
    hide TagAt, Writable, TagIndex, SlotUrl, SlotRule, RuleText, Pieces, Pattern, SlotPiece;
    if slots == [] {
      NoPieces(pre);
    } else {
      var s, rest := slots[0], slots[1..];
      Split(pre, slots);
      RuleIs(rest, pre + SlotRule(s));
      var text := pre + RuleText(slots);
      if s.Plain? {
        PlainIs(s);
        assert text[|pre|] == SlotRule(s)[0] == s.c;
        LitPiece(text, |pre|);
      } else {
        SlotIsTag(s);
        TagRead(pre, TagIndex(s), RuleText(rest));
        TagPiece(text, |pre|);
      }
      assert Pattern(slots) == [SlotPiece(s)] + Pattern(rest);
    }
  }

  lemma NoPieces(pre: string)
    ensures RuleText([]) == "" && pre + "" == pre && Pieces(pre, |pre|) == Some([]) && Pattern([]) == []
  {
  }

  lemma PlainIs(s: Slot)
    requires s.Plain? && Writable(s)
    ensures s.c != '<' && SlotRule(s) == [s.c] && SlotPiece(s) == Lit(s.c)
  {
  }

  // ---------------------------------------------------------------------------------------------
  // The trie finds it

  lemma {:induction false} FitWritable(f: Strtod, slots: seq<Slot>, rest: string)
    requires AllFit(f, slots, rest)
    ensures AllWritable(slots)
    decreases |slots|
  {
    hide Writable, Fits;
    if slots != [] {
      FitWritable(f, slots[1..], rest);
      FitsWritable(f, slots[0], UrlText(slots[1..]) + rest);
      forall k | 0 <= k < |slots| ensures Writable(slots[k]) { if k > 0 { assert slots[k] == slots[1..][k - 1]; } }
    }
  }

  lemma FitsWritable(f: Strtod, s: Slot, rest: string)
    requires Fits(f, s, rest)
    ensures Writable(s)
  {
  }

  /** A trie with one rule, and what it finds for a url. */
  method FindAlone(f: Strtod, slots: seq<Slot>, index: nat, url: string) returns (r: Found)
    requires AllWritable(slots) && index != 0
    ensures var m := Match(f, Pattern(slots), url, At(0, NOTHING));
            if m.None? then r.index == 0 else r == Found(index, m.value)
  {
    hide AllWritable, Pattern, RuleText, Match, Pieces;
    RuleIs(slots, "");
    assert "" + RuleText(slots) == RuleText(slots);
    var t := new Trie();
    StartsEmpty(Pattern(slots), index);
    var _ := t.Add(RuleText(slots), index);
    r := t.Find(f, url);
    ScanOne(f, Rule(Pattern(slots), index), url, At(0, NOTHING), NONE);
  }

  /** Every url that is written from a rule is found, with the values that were put into it. */
  method FindFilled(f: Strtod, slots: seq<Slot>, index: nat) returns (r: Found)
    requires AllFit(f, slots, "") && index != 0
    ensures r == Found(index, Given(NOTHING, slots))
  {
    hide AllFit, AllWritable, Pattern, UrlText, Match, Given;
    FitWritable(f, slots, "");
    UrlMatches(f, slots);
    r := FindAlone(f, slots, index, UrlText(slots));
  }

  /** A url with a number that is out of range is not. */
  method FindRefused(f: Strtod, front: seq<Slot>, s: Slot, behind: seq<Slot>, index: nat) returns (r: Found)
    requires AllFit(f, front, SlotUrl(s) + UrlText(behind)) && OutOfRange(s, UrlText(behind)) && AllWritable(behind)
    requires index != 0
    ensures r.index == 0
  {
    hide AllFit, Pattern, UrlText, SlotUrl, Match, Writable, OutOfRange;
    var slots := front + ([s] + behind);
    FitWritable(f, front, SlotUrl(s) + UrlText(behind));
    NumberWritable(s, UrlText(behind));
    PatternAppend(front, s, behind);
    UrlRefused(f, front, s, behind);
    r := FindAlone(f, slots, index, UrlText(front) + (SlotUrl(s) + UrlText(behind)));
  }

  lemma NumberWritable(s: Slot, rest: string)
    requires OutOfRange(s, rest)
    ensures Writable(s)
  {
  }

  lemma {:induction false} PatternAppend(front: seq<Slot>, s: Slot, behind: seq<Slot>)
    ensures Pattern(front + ([s] + behind)) == Pattern(front) + ([SlotPiece(s)] + Pattern(behind))
    decreases |front|
  {
    hide SlotPiece;
    var slots := front + ([s] + behind);
    if front == [] {
      assert slots[0] == s && slots[1..] == behind;
    } else {
      PatternAppend(front[1..], s, behind);
      assert slots[0] == front[0] && slots[1..] == front[1..] + ([s] + behind);
    }
  }

  lemma StartsEmpty(pattern: seq<Piece>, index: nat)
    requires index != 0
    ensures Single(EMPTY) && !Misread(EMPTY, pattern) && IndexOf(EMPTY, pattern) == 0
    ensures Entries(Insert(EMPTY, pattern, index)) == [Rule(pattern, index)] && Keyed(Insert(EMPTY, pattern, index))
  {
    hide Insert, Entries, Keyed, AllKeyed, IndexOf, Single, Misread;
    EmptyTrie(pattern);
    InsertEntries(EMPTY, pattern, index);
    var j: nat :| j <= 0 && Entries(Insert(EMPTY, pattern, index)) == [][..j] + [Rule(pattern, index)] + [][j..];
    InsertSingle(EMPTY, pattern, index);
    PerMethod.SingleIsKeyed(Insert(EMPTY, pattern, index));
  }

  lemma EmptyTrie(pattern: seq<Piece>)
    ensures Single(EMPTY) && !Misread(EMPTY, pattern) && IndexOf(EMPTY, pattern) == 0 && Entries(EMPTY) == []
  {
  }
}
