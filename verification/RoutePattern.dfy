/** Route patterns, what they match, and the linear search through a list of rules. */
module RoutePattern {
  import opened Wrappers

  datatype ParamType = INT | UINT | DOUBLE | STRING | PATH

  datatype Piece = Lit(c: char) | Par(t: ParamType)

  datatype Rule = Rule(pattern: seq<Piece>, index: nat)

  /** `routing_params` */
  datatype Captured = Captured(ints: seq<int>, uints: seq<int>, doubles: seq<real>, strings: seq<string>)

  const NOTHING := Captured([], [], [], [])

  /** `strtod`: the value and the number of characters taken; None when it refuses. */
  type Strtod = string -> Option<(real, nat)>

  // ---------------------------------------------------------------------------------------------
  // The text of a pattern

  const TAGS: seq<(string, ParamType)> :=
    [("<int>", INT), ("<uint>", UINT), ("<float>", DOUBLE), ("<double>", DOUBLE), ("<str>", STRING),
     ("<string>", STRING), ("<path>", PATH)]

  predicate StartsWith(s: string, i: nat, word: string) {
    i + |word| <= |s| && s[i..i + |word|] == word
  }

  /** The first entry of the table, from entry `k` on, that stands at `i`. */
  function TagAt(url: string, i: nat, k: nat): (r: Option<(string, ParamType)>)
    requires k <= |TAGS|
    ensures r.Some? ==> i + |r.value.0| <= |url| && |r.value.0| > 0
    decreases |TAGS| - k
  {
    if k == |TAGS| then None
    else if StartsWith(url, i, TAGS[k].0) then Some(TAGS[k])
    else TagAt(url, i, k + 1)
  }

  /** The pieces of a pattern from `i` on; None when a '<' begins no known tag. */
  function Pieces(url: string, i: nat): Option<seq<Piece>>
    requires i <= |url|
    decreases |url| - i
  {
    if i == |url| then Some([])
    else if url[i] == '<' then
      match TagAt(url, i, 0)
      case None => None
      case Some(tag) => Before(Par(tag.1), Pieces(url, i + |tag.0|))
    else Before(Lit(url[i]), Pieces(url, i + 1))
  }

  function Before(p: Piece, rest: Option<seq<Piece>>): Option<seq<Piece>> {
    if rest.None? then None else Some([p] + rest.value)
  }

  // ---------------------------------------------------------------------------------------------
  // Matching

  predicate IsDigit(c: char) {
    '0' <= c <= '9'
  }

  function DigitsEnd(s: string, i: nat): (j: nat)
    requires i <= |s|
    ensures i <= j <= |s| && (forall k :: i <= k < j ==> IsDigit(s[k])) && (j < |s| ==> !IsDigit(s[j]))
    decreases |s| - i
  {
    if i < |s| && IsDigit(s[i]) then DigitsEnd(s, i + 1) else i
  }

  function Number(digits: string): nat
    requires forall k :: 0 <= k < |digits| ==> IsDigit(digits[k])
  {
    if digits == "" then 0
    else
      var last := digits[|digits| - 1];
      assert IsDigit(last);
      Number(digits[..|digits| - 1]) * 10 + (last as int - '0' as int)
  }

  datatype Taken<T> = Taken(value: T, end: nat)

  /** `strtoll` and `strtoull` in base 10 at a digit or a sign, within the given range. */
  function Integer(s: string, i: nat, low: int, high: int): (r: Option<Taken<int>>)
    requires i < |s|
    ensures r.Some? ==> i < r.value.end <= |s|
  {
    var start := if s[i] == '+' || s[i] == '-' then i + 1 else i;
    var end := DigitsEnd(s, start);
    if end == start then None
    else
      var n: int := Number(s[start..end]);
      var value: int := if s[i] == '-' then -n else n;
      if low <= value <= high then Some(Taken(value, end)) else None
  }

  const INT_MIN := -0x8000_0000_0000_0000
  const INT_MAX := 0x7fff_ffff_ffff_ffff
  const UINT_MAX := 0xffff_ffff_ffff_ffff

  function SegmentEnd(s: string, i: nat): (j: nat)
    requires i <= |s|
    ensures i <= j <= |s| && (forall k :: i <= k < j ==> s[k] != '/') && (j < |s| ==> s[j] == '/')
    decreases |s| - i
  {
    if i < |s| && s[i] != '/' then SegmentEnd(s, i + 1) else i
  }

  /** How far a match has come, and what it has captured. */
  datatype At = At(pos: nat, params: Captured)

  /** What one piece takes from a position before the end of the url. */
  function Eat(f: Strtod, p: Piece, url: string, at: At): (r: Option<At>)
    requires at.pos <= |url|
    ensures r.Some? ==> at.pos < r.value.pos <= |url|
  {
    if at.pos == |url| then None
    else
      var c := url[at.pos];
      match p
      case Lit(l) => if c == l then Some(At(at.pos + 1, at.params)) else None
      case Par(INT) =>
        if !(IsDigit(c) || c == '+' || c == '-') then None
        else
          var t := Integer(url, at.pos, INT_MIN, INT_MAX);
          if t.None? then None
          else Some(At(t.value.end, at.params.(ints := at.params.ints + [t.value.value])))
      case Par(UINT) =>
        if !(IsDigit(c) || c == '+') then None
        else
          var t := Integer(url, at.pos, 0, UINT_MAX);
          if t.None? then None
          else Some(At(t.value.end, at.params.(uints := at.params.uints + [t.value.value])))
      case Par(DOUBLE) =>
        if !(IsDigit(c) || c == '+' || c == '-' || c == '.') then None
        else
          var t := f(url[at.pos..]);
          if t.None? || t.value.1 == 0 || at.pos + t.value.1 > |url| then None
          else Some(At(at.pos + t.value.1, at.params.(doubles := at.params.doubles + [t.value.0])))
      case Par(STRING) =>
        var end := SegmentEnd(url, at.pos);
        if end == at.pos then None
        else Some(At(end, at.params.(strings := at.params.strings + [url[at.pos..end]])))
      case Par(PATH) =>
        Some(At(|url|, at.params.(strings := at.params.strings + [url[at.pos..]])))
  }

  function EatAll(f: Strtod, pattern: seq<Piece>, url: string, at: At): (r: Option<At>)
    requires at.pos <= |url|
    ensures r.Some? ==> at.pos <= r.value.pos <= |url|
  {
    if pattern == [] then Some(at)
    else match Eat(f, pattern[0], url, at)
      case None => None
      case Some(next) => EatAll(f, pattern[1..], url, next)
  }

  /** The pattern matches the rest of the url; what has been captured then. */
  function Match(f: Strtod, pattern: seq<Piece>, url: string, at: At): Option<Captured>
    requires at.pos <= |url|
  {
    match EatAll(f, pattern, url, at)
    case None => None
    case Some(end) => if end.pos == |url| then Some(end.params) else None
  }

  // ---------------------------------------------------------------------------------------------
  // The linear search

  /** An index, 0 for none, and what the rule with that index captured. */
  datatype Found = Found(index: nat, params: Captured)

  const NONE := Found(0, NOTHING)

  /** `update_found`: a smaller index replaces a larger one, and any index replaces none. */
  function Better(acc: Found, r: Found): Found {
    if r.index != 0 && (acc.index == 0 || acc.index > r.index) then r else acc
  }

  function Hit(f: Strtod, rule: Rule, url: string, at: At): Found
    requires at.pos <= |url|
  {
    match Match(f, rule.pattern, url, at)
    case None => NONE
    case Some(params) => Found(rule.index, params)
  }

  /** All rules one after the other. */
  function Scan(f: Strtod, rules: seq<Rule>, url: string, at: At, acc: Found): Found
    requires at.pos <= |url|
  {
    if rules == [] then acc
    else Scan(f, rules[1..], url, at, Better(acc, Hit(f, rules[0], url, at)))
  }

  /** The search finds a matching rule of the smallest index, with that rule's captures. */
  ghost predicate IsFirst(f: Strtod, rules: seq<Rule>, url: string, r: Found) {
    var start := At(0, NOTHING);
    && (r.index == 0 <==> forall k :: 0 <= k < |rules| && rules[k].index > 0 ==> Match(f, rules[k].pattern, url, start).None?)
    && (r.index != 0 ==> exists k :: 0 <= k < |rules| && rules[k].index == r.index
                                     && Match(f, rules[k].pattern, url, start) == Some(r.params))
    && (forall k :: 0 <= k < |rules| && 0 < rules[k].index < r.index ==> Match(f, rules[k].pattern, url, start).None?)
  }

  lemma {:induction false} ScanAppend(f: Strtod, a: seq<Rule>, b: seq<Rule>, url: string, at: At, acc: Found)
    requires at.pos <= |url|
    ensures Scan(f, a + b, url, at, acc) == Scan(f, b, url, at, Scan(f, a, url, at, acc))
    decreases |a|
  {
    hide Hit, Better;
    if a == [] {
      assert a + b == b;
    } else {
      assert (a + b)[0] == a[0] && (a + b)[1..] == a[1..] + b;
      ScanAppend(f, a[1..], b, url, at, Better(acc, Hit(f, a[0], url, at)));
    }
  }

  /** Searching part of the rules on its own and then comparing is searching them in the row. */
  lemma {:induction false} ScanBetter(f: Strtod, rules: seq<Rule>, url: string, at: At, acc: Found)
    requires at.pos <= |url|
    ensures Scan(f, rules, url, at, acc) == Better(acc, Scan(f, rules, url, at, NONE))
    decreases |rules|
  {
    hide Hit;
    if rules != [] {
      var h := Hit(f, rules[0], url, at);
      ScanBetter(f, rules[1..], url, at, Better(acc, h));
      ScanBetter(f, rules[1..], url, at, Better(NONE, h));
    }
  }

  lemma {:induction false} ScanFirst(f: Strtod, rules: seq<Rule>, url: string)
    ensures IsFirst(f, rules, url, Scan(f, rules, url, At(0, NOTHING), NONE))
    decreases |rules|
  {
    hide Match, Scan;
    var start := At(0, NOTHING);
    if rules == [] {
      ScanNothing(f, url, start);
    } else {
      var n := |rules| - 1;
      assert rules == rules[..n] + [rules[n]];
      ScanFirst(f, rules[..n], url);
      ScanAppend(f, rules[..n], [rules[n]], url, start, NONE);
      ScanOne(f, rules[n], url, start, Scan(f, rules[..n], url, start, NONE));
      FirstMore(f, rules, url, Scan(f, rules[..n], url, start, NONE));
    }
  }

  lemma ScanNothing(f: Strtod, url: string, at: At)
    requires at.pos <= |url|
    ensures Scan(f, [], url, at, NONE) == NONE
  {
  }

  lemma ScanOne(f: Strtod, rule: Rule, url: string, at: At, acc: Found)
    requires at.pos <= |url|
    ensures Scan(f, [rule], url, at, acc) == Better(acc, Hit(f, rule, url, at))
  {
  }

  lemma FirstMore(f: Strtod, rules: seq<Rule>, url: string, acc: Found)
    requires rules != [] && IsFirst(f, rules[..|rules| - 1], url, acc)
    ensures IsFirst(f, rules, url, Better(acc, Hit(f, rules[|rules| - 1], url, At(0, NOTHING))))
  {
    hide Match;
    var n := |rules| - 1;
    var r := Better(acc, Hit(f, rules[n], url, At(0, NOTHING)));
    assert forall k :: 0 <= k < n ==> rules[..n][k] == rules[k];
    if r.index != 0 {
      if r == acc {
        var k :| 0 <= k < n && rules[..n][k].index == r.index
                 && Match(f, rules[..n][k].pattern, url, At(0, NOTHING)) == Some(r.params);
        assert rules[k].index == r.index;
      } else {
        assert rules[n].index == r.index;
      }
    }
  }

  lemma {:induction false} EatAppend(f: Strtod, a: seq<Piece>, b: seq<Piece>, url: string, at: At)
    requires at.pos <= |url|
    ensures EatAll(f, a + b, url, at)
         == (var m := EatAll(f, a, url, at); if m.None? then None else EatAll(f, b, url, m.value))
    decreases |a|
  {
    hide Eat;
    if a == [] {
      assert a + b == b;
    } else {
      assert (a + b)[0] == a[0] && (a + b)[1..] == a[1..] + b;
      var next := Eat(f, a[0], url, at);
      if next.Some? { EatAppend(f, a[1..], b, url, next.value); }
    }
  }

  function Prefixed(front: seq<Piece>, rules: seq<Rule>): (r: seq<Rule>)
    ensures |r| == |rules|
  {
    seq(|rules|, i requires 0 <= i < |rules| => Rule(front + rules[i].pattern, rules[i].index))
  }

  /** Rules with a common beginning: either the beginning is eaten once for all of them, or none matches. */
  lemma {:induction false} ScanPrefixed(f: Strtod, front: seq<Piece>, rules: seq<Rule>, url: string, at: At, acc: Found)
    requires at.pos <= |url|
    ensures Scan(f, Prefixed(front, rules), url, at, acc)
         == (var m := EatAll(f, front, url, at); if m.None? then acc else Scan(f, rules, url, m.value, acc))
    decreases |rules|
  {
    hide EatAll, Better;
    if rules != [] {
      EatAppend(f, front, rules[0].pattern, url, at);
      assert Prefixed(front, rules)[1..] == Prefixed(front, rules[1..]);
      assert Prefixed(front, rules)[0] == Rule(front + rules[0].pattern, rules[0].index);
      var m := EatAll(f, front, url, at);
      var h := Hit(f, Prefixed(front, rules)[0], url, at);
      ScanPrefixed(f, front, rules[1..], url, at, Better(acc, h));
      if m.None? { NoBetter(acc); }
    }
  }

  lemma NoBetter(acc: Found)
    ensures Better(acc, NONE) == acc
  {
  }

  /** At the end of the url only the empty pattern matches. */
  lemma {:induction false} ScanAtEnd(f: Strtod, rules: seq<Rule>, url: string, at: At, acc: Found)
    requires at.pos == |url| && forall k :: 0 <= k < |rules| ==> rules[k].pattern != []
    ensures Scan(f, rules, url, at, acc) == acc
    decreases |rules|
  {
    if rules != [] { ScanAtEnd(f, rules[1..], url, at, acc); }
  }
}
