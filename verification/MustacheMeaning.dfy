/** What the meaning of a template says: which value a name stands for, what sections and variables put out for it,
    and that escaped text says what was escaped. */
module MustacheMeaning {
  import opened Wrappers
  import opened MustacheTree

  // ---------------------------------------------------------------------------------------------
  // Names

  /** An object of the stack, number `i`, has the name, and none above it has. */
  predicate InnermostAt(name: string, stack: seq<Value>, i: nat)
    requires i < |stack|
  {
    && stack[i].Object? && name in stack[i].fields
    && forall j :: i < j < |stack| ==> !(stack[j].Object? && name in stack[j].fields)
  }

  predicate ValueAt(name: string, stack: seq<Value>, i: nat, v: Value)
    requires i < |stack|
  {
    InnermostAt(name, stack, i) && stack[i].fields[name] == v
  }

  /** The stack holds the value under the name. */
  predicate Holds(stack: seq<Value>, name: string, v: Value) {
    if name == "." then stack != [] && stack[|stack| - 1] == v
    else exists i: nat :: i < |stack| && ValueAt(name, stack, i, v)
  }

  predicate Missing(stack: seq<Value>, name: string) {
    name != "." && forall i :: 0 <= i < |stack| ==> !(stack[i].Object? && name in stack[i].fields)
  }

  lemma BelowSame(name: string, stack: seq<Value>, i: nat, v: Value)
    requires stack != [] && i < |stack|
    requires var top := stack[|stack| - 1]; !(top.Object? && name in top.fields)
    ensures ValueAt(name, stack, i, v) <==> i < |stack| - 1 && ValueAt(name, stack[..|stack| - 1], i, v)
  {
    var front := stack[..|stack| - 1];
    assert forall j :: 0 <= j < |front| ==> front[j] == stack[j];
  }

  /** A top that does not have the name does not matter. */
  lemma HoldsBelow(name: string, stack: seq<Value>, v: Value)
    requires name != "." && stack != []
    requires var top := stack[|stack| - 1]; !(top.Object? && name in top.fields)
    ensures Holds(stack, name, v) <==> Holds(stack[..|stack| - 1], name, v)
    ensures Missing(stack, name) <==> Missing(stack[..|stack| - 1], name)
  {
    hide ValueAt;
    var front := stack[..|stack| - 1];
    assert forall j :: 0 <= j < |front| ==> front[j] == stack[j];
    if Holds(front, name, v) {
      var i: nat :| i < |front| && ValueAt(name, front, i, v);
      BelowSame(name, stack, i, v);
    }
    if Holds(stack, name, v) {
      var i: nat :| i < |stack| && ValueAt(name, stack, i, v);
      BelowSame(name, stack, i, v);
    }
  }

  lemma TopHolds(name: string, stack: seq<Value>, v: Value)
    requires name != "." && stack != []
    requires var top := stack[|stack| - 1]; top.Object? && name in top.fields
    ensures Holds(stack, name, v) <==> stack[|stack| - 1].fields[name] == v
    ensures !Missing(stack, name)
  {
    assert ValueAt(name, stack, |stack| - 1, stack[|stack| - 1].fields[name]);
  }

  lemma {:induction false} SearchIs(name: string, stack: seq<Value>, v: Value)
    requires name != "."
    ensures Search(name, stack) == Some(v) <==> Holds(stack, name, v)
    ensures Search(name, stack) == None <==> Missing(stack, name)
    decreases |stack|
  {
    hide Holds, Missing;
    if stack == [] {
      NothingHeld(name, v);
    } else {
      SearchIs(name, stack[..|stack| - 1], v);
      var top := stack[|stack| - 1];
      if top.Object? && name in top.fields { TopHolds(name, stack, v); } else { HoldsBelow(name, stack, v); }
    }
  }

  lemma NothingHeld(name: string, v: Value)
    requires name != "."
    ensures !Holds([], name, v) && Missing([], name)
  {
  }

  /** The search gives the value that the stack holds, and nothing exactly when it holds none. */
  lemma LookupIs(name: string, stack: seq<Value>, v: Value)
    requires stack != []
    ensures Lookup(name, stack) == Some(v) <==> Holds(stack, name, v)
    ensures Lookup(name, stack) == None <==> Missing(stack, name)
  {
    hide Search;
    if name != "." { SearchIs(name, stack, v); }
  }

  // ---------------------------------------------------------------------------------------------
  // Sections

  /** The name is missing, or stands for false, null or an empty list. */
  predicate Absent(stack: seq<Value>, name: string) {
    Missing(stack, name) || Holds(stack, name, False) || Holds(stack, name, Null) || Holds(stack, name, List([]))
  }

  /** The children with the value on top of the stack, and the text behind them. */
  function Round(children: seq<Node>, last: string, stack: seq<Value>, v: Value): Option<string> {
    Append(Interp(children, stack + [v]), Some(last))
  }

  /** A round for each item, in order. */
  function Rounds(children: seq<Node>, last: string, stack: seq<Value>, items: seq<Value>): Option<string> {
    if items == [] then Some("")
    else Append(Round(children, last, stack, items[0]), Rounds(children, last, stack, items[1..]))
  }

  lemma AppendTwice(a: Option<string>, b: Option<string>, c: Option<string>)
    ensures Append(Append(a, b), c) == Append(a, Append(b, c))
  {
    if a.Some? && b.Some? && c.Some? { assert a.value + b.value + c.value == a.value + (b.value + c.value); }
  }

  lemma {:induction false} RoundsMore(children: seq<Node>, last: string, stack: seq<Value>, items: seq<Value>, v: Value)
    ensures Rounds(children, last, stack, items + [v])
         == Append(Rounds(children, last, stack, items), Round(children, last, stack, v))
    decreases |items|
  {
    hide Round;
    var r := Round(children, last, stack, v);
    if items == [] {
      assert items + [v] == [v] && [v][1..] == [];
      assert r.Some? ==> r.value + "" == r.value && "" + r.value == r.value;
    } else {
      assert (items + [v])[0] == items[0] && (items + [v])[1..] == items[1..] + [v];
      RoundsMore(children, last, stack, items[1..], v);
      AppendTwice(Round(children, last, stack, items[0]), Rounds(children, last, stack, items[1..]), r);
    }
  }

  lemma {:induction false} EachIs(children: seq<Node>, last: string, stack: seq<Value>, items: seq<Value>)
    requires stack != []
    ensures InterpEach(children, last, stack, items) == Rounds(children, last, stack, items)
    decreases |items|
  {
    hide Interp, Append, Rounds;
    if items == [] {
      NoRounds(children, last, stack);
    } else {
      var n := |items| - 1;
      EachIs(children, last, stack, items[..n]);
      RoundsMore(children, last, stack, items[..n], items[n]);
      assert items == items[..n] + [items[n]];
    }
  }

  lemma NoRounds(children: seq<Node>, last: string, stack: seq<Value>)
    ensures Rounds(children, last, stack, []) == Some("")
  {
  }

  lemma OneRound(children: seq<Node>, last: string, stack: seq<Value>, v: Value)
    ensures Rounds(children, last, stack, [v]) == Round(children, last, stack, v)
  {
    hide Round;
    assert [v][1..] == [];
    var r := Round(children, last, stack, v);
    assert r.Some? ==> r.value + "" == r.value;
  }

  /** What a section puts out, by what the stack holds under its name.  An inverted one is rendered in a context
      without names. */
  lemma SectionMeans(text: string, name: string, children: seq<Node>, last: string, stack: seq<Value>, v: Value)
    requires stack != []
    ensures var section := InterpNode(Section(text, name, false, children, last), stack);
            && (Absent(stack, name) ==> section == Some(text))
            && (Holds(stack, name, v) && !v.List? && !v.False? && !v.Null? ==>
                  section == Append(Some(text), Round(children, last, stack, v)))
            && (Holds(stack, name, v) && v.List? ==>
                  section == Append(Some(text), Rounds(children, last, stack, v.items)))
    ensures var inverted := InterpNode(Section(text, name, true, children, last), stack);
            && (Absent(stack, name) ==> inverted == Append(Some(text), Round(children, last, stack, Null)))
            && (Holds(stack, name, v) && !Absent(stack, name) ==> inverted == Some(text))
  {
    hide Lookup, Holds, Missing, InterpEach, Round, Rounds;
    assert text + "" == text;
    LookupIs(name, stack, v);
    LookupIs(name, stack, False);
    LookupIs(name, stack, Null);
    LookupIs(name, stack, List([]));
    EachIs(children, last, stack, []);
    EachIs(children, last, stack, [v]);
    EachIs(children, last, stack, [Null]);
    NoRounds(children, last, stack);
    OneRound(children, last, stack, v);
    OneRound(children, last, stack, Null);
    if v.List? { EachIs(children, last, stack, v.items); }
  }

  /** What a variable puts out.  Only strings are escaped; null, lists and objects have no text. */
  lemma VariableMeans(text: string, name: string, escaped: bool, stack: seq<Value>, v: Value)
    requires stack != []
    ensures var out := InterpNode(Variable(text, name, escaped), stack);
            && (Missing(stack, name) ==> out == Some(text))
            && (Holds(stack, name, v) ==>
                  && (out == None <==> v.Null? || v.List? || v.Object?)
                  && (v.True? ==> out == Some(text + "true")) && (v.False? ==> out == Some(text + "false"))
                  && (v.Number? ==> out == Some(text + v.text))
                  && (v.Str? ==> out == Some(text + if escaped then Escape(v.s) else v.s)))
  {
    hide Lookup, Holds, Missing, Escape;
    assert text + "" == text;
    LookupIs(name, stack, v);
  }

  // ---------------------------------------------------------------------------------------------
  // Escaping

  /** The character of a reference by number, in either base, or by one of four names. */
  function Reference(entity: string): Option<char> {
    if entity == "amp" then Some('&')
    else if entity == "lt" then Some('<')
    else if entity == "gt" then Some('>')
    else if entity == "quot" then Some('"')
    else if |entity| == 3 && entity[0] == '#' && IsFigure(entity[1]) && IsFigure(entity[2]) then
      Some((Figure(entity[1]) * 10 + Figure(entity[2])) as char)
    else if |entity| == 4 && entity[..2] == "#x" && IsFigure(entity[2]) && IsFigure(entity[3]) then
      Some((Figure(entity[2]) * 16 + Figure(entity[3])) as char)
    else None
  }

  predicate IsFigure(c: char) {
    '0' <= c <= '9' || 'A' <= c <= 'F'
  }

  function Figure(c: char): (n: nat)
    requires IsFigure(c)
    ensures n < 16
  {
    if c <= '9' then c as nat - '0' as nat else c as nat - 'A' as nat + 10
  }

  function UpToSemicolon(s: string): (n: nat)
    ensures n <= |s| && (n < |s| ==> s[n] == ';') && ';' !in s[..n]
  {
    if s == "" || s[0] == ';' then 0
    else
      var n := UpToSemicolon(s[1..]);
      assert s[..n + 1] == [s[0]] + s[1..][..n];
      n + 1
  }

  /** What a browser shows for a text: each reference replaced by its character. */
  function Shown(s: string): string
    decreases |s|
  {
    if s == "" then ""
    else if s[0] != '&' then [s[0]] + Shown(s[1..])
    else
      var n := UpToSemicolon(s[1..]);
      if n == |s| - 1 then s
      else
        match Reference(s[1..n + 1])
        case None => [s[0]] + Shown(s[1..])
        case Some(c) => [c] + Shown(s[n + 2..])
  }

  predicate Special(c: char) {
    c == '&' || c == '<' || c == '>' || c == '"' || c == '\'' || c == '/' || c == '`' || c == '='
  }

  lemma {:induction false} SemicolonAt(entity: string, rest: string)
    requires ';' !in entity
    ensures UpToSemicolon(entity + ";" + rest) == |entity|
    decreases |entity|
  {
    var s := entity + ";" + rest;
    if entity != "" {
      assert s[0] == entity[0] && s[1..] == entity[1..] + ";" + rest;
      SemicolonAt(entity[1..], rest);
    }
  }

  lemma ReferenceShown(entity: string, c: char, rest: string)
    requires ';' !in entity && Reference(entity) == Some(c)
    ensures Shown("&" + entity + ";" + rest) == [c] + Shown(rest)
  {
    hide Reference;
    var s := "&" + entity + ";" + rest;
    assert s[1..] == entity + ";" + rest;
    SemicolonAt(entity, rest);
    assert s[1..|entity| + 1] == entity && s[|entity| + 2..] == rest;
  }

  lemma CharShown(c: char, rest: string)
    ensures Shown(EscapeChar(c) + rest) == [c] + Shown(rest)
  {
    hide Shown, Reference;
    if Special(c) {
      var entity := EntityOf(c);
      EntityIs(c);
      ReferenceShown(entity, c, rest);
      assert EscapeChar(c) + rest == "&" + entity + ";" + rest;
    } else {
      NotSpecial(c);
      PlainShown(c, rest);
    }
  }

  lemma PlainShown(c: char, rest: string)
    requires c != '&'
    ensures Shown([c] + rest) == [c] + Shown(rest)
  {
    assert ([c] + rest)[1..] == rest;
  }

  lemma NotSpecial(c: char)
    requires !Special(c)
    ensures EscapeChar(c) == [c] && c != '&'
  {
  }

  /** What stands between the ampersand and the semicolon. */
  function EntityOf(c: char): string {
    match c
    case '&' => "amp"
    case '<' => "lt"
    case '>' => "gt"
    case '"' => "quot"
    case '\'' => "#39"
    case '/' => "#x2F"
    case '`' => "#x60"
    case '=' => "#x3D"
    case _ => ""
  }

  lemma EntityIs(c: char)
    requires Special(c)
    ensures var entity := EntityOf(c);
            && EscapeChar(c) == "&" + entity + ";" && ';' !in entity && Reference(entity) == Some(c)
            && forall k :: 0 <= k < |entity| ==> !Special(entity[k])
  {
    hide Reference, EscapeChar;
    EntityText(c);
    EntityMeans(c);
  }

  lemma EntityText(c: char)
    requires Special(c)
    ensures var entity := EntityOf(c);
            && EscapeChar(c) == "&" + entity + ";" && ';' !in entity
            && forall k :: 0 <= k < |entity| ==> !Special(entity[k])
  {
  }

  lemma EntityMeans(c: char)
    requires Special(c)
    ensures Reference(EntityOf(c)) == Some(c)
  {
    var e := EntityOf(c);
    if |e| == 4 && e[0] == '#' { assert e[..2] == "#x"; }
  }

  /** Escaped text shows as the text that was escaped. */
  lemma {:induction false} EscapeShown(s: string, rest: string)
    ensures Shown(Escape(s) + rest) == s + Shown(rest)
    decreases |s|
  {
    hide EscapeChar, Shown;
    if s == "" {
      assert "" + rest == rest && "" + Shown(rest) == Shown(rest);
    } else {
      var front, c := s[..|s| - 1], s[|s| - 1];
      EscapeShown(front, EscapeChar(c) + rest);
      CharShown(c, rest);
      assert Escape(s) + rest == Escape(front) + (EscapeChar(c) + rest);
      assert front + ([c] + Shown(rest)) == s + Shown(rest);
    }
  }

  /** None of the special characters is left in it, but for the ampersands of references. */
  lemma {:induction false} EscapeHarmless(s: string, k: nat)
    requires k < |Escape(s)|
    ensures Special(Escape(s)[k]) ==> Escape(s)[k] == '&'
    decreases |s|
  {
    hide EscapeChar;
    var front, c := s[..|s| - 1], s[|s| - 1];
    if k < |Escape(front)| {
      EscapeHarmless(front, k);
    } else {
      CharHarmless(c, k - |Escape(front)|);
    }
  }

  lemma CharHarmless(c: char, k: nat)
    requires k < |EscapeChar(c)|
    ensures Special(EscapeChar(c)[k]) ==> EscapeChar(c)[k] == '&'
  {
    if Special(c) { EntityIs(c); } else { NotSpecial(c); }
  }
}
