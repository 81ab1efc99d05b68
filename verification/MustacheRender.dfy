/** `render_internal`: running the flat program with its jumps, its list recursion and one shared stack. */
module MustacheRender {
  import opened Wrappers
  import opened MustacheTree

  /** `Action`; `start` and `end` delimit the tag's name in the body, `pos` is the jump target. */
  datatype Action = Action(t: ActionType, start: nat, end: nat, pos: nat)

  datatype Fragment = Fragment(first: nat, second: nat)

  /** `substr(start, end - start)`: when the end lies before the start the count wraps around and the
      rest of the body is taken. */
  function Sub(body: string, start: nat, end: nat): string
    requires start <= |body|
  {
    if end < start || end > |body| then body[start..] else body[start..end]
  }

  predicate InBody(body: string, fragments: seq<Fragment>, actions: seq<Action>) {
    && |fragments| == |actions|
    && (forall i :: 0 <= i < |fragments| ==> fragments[i].first <= fragments[i].second <= |body|)
    && (forall i :: 0 <= i < |actions| ==> actions[i].start <= |body|)
  }

  function InstrAt(body: string, f: Fragment, a: Action): Instr
    requires f.first <= f.second <= |body| && a.start <= |body|
  {
    Instr(body[f.first..f.second], a.t, Sub(body, a.start, a.end), a.pos)
  }

  /** The program a template holds. */
  function CodeOf(body: string, fragments: seq<Fragment>, actions: seq<Action>): (code: seq<Instr>)
    requires InBody(body, fragments, actions)
    ensures |code| == |actions|
  {
    seq(|actions|, i requires 0 <= i < |actions| => InstrAt(body, fragments[i], actions[i]))
  }

  /** The stack and the output that a rendering shares between its recursive calls. */
  class Output {
    var stack: seq<Value>
    var out: string

    constructor (ctx: Value)
      ensures stack == [ctx] && out == ""
    {
      stack := [ctx];
      out := "";
    }
  }

  // ---------------------------------------------------------------------------------------------
  // Where a run is, in terms of the tree

  /** A section that is being rendered in place: the text before its end, and what follows it. */
  datatype Outer = Outer(last: string, name: string, start: nat, rest: seq<Node>)

  /** The program that remains inside the sections `outer`, innermost first. */
  function FlatRest(nodes: seq<Node>, outer: seq<Outer>, base: nat): seq<Instr>
    decreases |outer|
  {
    if outer == [] then Flat(nodes, base)
    else
      Flat(nodes, base) + [Instr(outer[0].last, CloseBlock, outer[0].name, outer[0].start)]
      + FlatRest(outer[0].rest, outer[1..], base + Sizes(nodes) + 1)
  }

  /** What that program has yet to put out. */
  function Resume(nodes: seq<Node>, outer: seq<Outer>, stack: seq<Value>): Option<string>
    requires |stack| > |outer|
    decreases |outer|
  {
    if outer == [] then Interp(nodes, stack)
    else
      Append(Interp(nodes, stack),
             Append(Some(outer[0].last), Resume(outer[0].rest, outer[1..], stack[..|stack| - 1])))
  }

  predicate AllPlainRest(nodes: seq<Node>, outer: seq<Outer>)
    decreases |outer|
  {
    AllPlain(nodes) && (outer == [] || AllPlainRest(outer[0].rest, outer[1..]))
  }

  lemma AppendAssoc(a: Option<string>, b: Option<string>, c: Option<string>)
    ensures Append(Append(a, b), c) == Append(a, Append(b, c))
  {
    if a.Some? && b.Some? && c.Some? {
      assert a.value + b.value + c.value == a.value + (b.value + c.value);
    }
  }

  /** The first node's part of what remains. */
  lemma ResumeNode(nodes: seq<Node>, outer: seq<Outer>, stack: seq<Value>)
    requires nodes != [] && |stack| > |outer|
    ensures Resume(nodes, outer, stack) == Append(InterpNode(nodes[0], stack), Resume(nodes[1..], outer, stack))
  {
    hide InterpNode;
    if outer != [] {
      AppendAssoc(InterpNode(nodes[0], stack), Interp(nodes[1..], stack),
                  Append(Some(outer[0].last), Resume(outer[0].rest, outer[1..], stack[..|stack| - 1])));
    }
  }

  /** Entering a section in the one context `v` is remembering what comes after it. */
  lemma ResumeEnter(nodes: seq<Node>, outer: seq<Outer>, stack: seq<Value>, start: nat, v: Value)
    requires nodes != [] && nodes[0].Section? && |stack| > |outer|
    requires SectionContexts(Lookup(nodes[0].name, stack), nodes[0].inverted) == [v]
    ensures var n := nodes[0];
            Resume(nodes, outer, stack)
            == Append(Some(n.text),
                      Resume(n.children, [Outer(n.last, n.name, start, nodes[1..])] + outer, stack + [v]))
  {
    hide Lookup, SectionContexts, Interp, Resume;
    var n, tail := nodes[0], Resume(nodes[1..], outer, stack);
    var inner := Interp(n.children, stack + [v]);
    ResumeNode(nodes, outer, stack);
    OneContext(n.children, n.last, stack, v);
    AppendAssoc(Some(n.text), Append(inner, Some(n.last)), tail);
    AppendAssoc(inner, Some(n.last), tail);
    ResumeLeave(n.children, Outer(n.last, n.name, start, nodes[1..]), outer, stack, v);
  }

  lemma OneContext(children: seq<Node>, last: string, stack: seq<Value>, v: Value)
    requires stack != []
    ensures InterpEach(children, last, stack, [v]) == Append(Interp(children, stack + [v]), Some(last))
  {
    hide Interp;
    assert [v][..0] == [];
    assert InterpEach(children, last, stack, [v][..0]) == Some("");
    var t := Append(Interp(children, stack + [v]), Some(last));
    if t.Some? { assert "" + t.value == t.value; }
  }

  lemma ResumeLeave(nodes: seq<Node>, o: Outer, outer: seq<Outer>, stack: seq<Value>, v: Value)
    requires |stack| > |outer|
    ensures Resume(nodes, [o] + outer, stack + [v])
         == Append(Interp(nodes, stack + [v]), Append(Some(o.last), Resume(o.rest, outer, stack)))
  {
    assert ([o] + outer)[1..] == outer && (stack + [v])[..|stack|] == stack;
  }

  // ---------------------------------------------------------------------------------------------
  // The program, seen from its first step

  /** A variable or a comment is one step. */
  lemma FlatSimple(nodes: seq<Node>, outer: seq<Outer>, base: nat)
    requires nodes != [] && !nodes[0].Section?
    ensures FlatRest(nodes, outer, base) == FlatNode(nodes[0], base) + FlatRest(nodes[1..], outer, base + 1)
    ensures |FlatNode(nodes[0], base)| == 1
  {
    hide FlatNode;
    FlatNodeLength(nodes[0], base);
    if outer != [] {
      var c := [Instr(outer[0].last, CloseBlock, outer[0].name, outer[0].start)];
      assert FlatNode(nodes[0], base) + Flat(nodes[1..], base + 1) + c
          == FlatNode(nodes[0], base) + (Flat(nodes[1..], base + 1) + c);
    }
  }

  /** A section's opening step is followed by its children, its closing step and the rest. */
  lemma FlatSection(nodes: seq<Node>, outer: seq<Outer>, base: nat)
    requires nodes != [] && nodes[0].Section?
    ensures var n := nodes[0];
            var close := base + 1 + Sizes(n.children);
            && FlatRest(nodes, outer, base)
               == [Instr(n.text, if n.inverted then ElseBlock else OpenBlock, n.name, close)]
                  + (Flat(n.children, base + 1)
                     + ([Instr(n.last, CloseBlock, n.name, base)] + FlatRest(nodes[1..], outer, close + 1)))
            && FlatRest(n.children, [Outer(n.last, n.name, base, nodes[1..])] + outer, base + 1)
               == Flat(n.children, base + 1)
                  + ([Instr(n.last, CloseBlock, n.name, base)] + FlatRest(nodes[1..], outer, close + 1))
            && |Flat(n.children, base + 1)| == Sizes(n.children)
  {
    hide Flat, FlatRest, Sizes;
    var n := nodes[0];
    FlatLength(n.children, base + 1);
    var a, b := Flat(n.children, base + 1), [Instr(n.last, CloseBlock, n.name, base)];
    var open := [Instr(n.text, if n.inverted then ElseBlock else OpenBlock, n.name, base + 1 + Sizes(n.children))];
    SectionParts(nodes, outer, base, open, a, b);
    FlatInside(n.children, Outer(n.last, n.name, base, nodes[1..]), outer, base + 1);
  }

  lemma FlatInside(nodes: seq<Node>, o: Outer, outer: seq<Outer>, base: nat)
    ensures FlatRest(nodes, [o] + outer, base)
         == Flat(nodes, base)
            + ([Instr(o.last, CloseBlock, o.name, o.start)] + FlatRest(o.rest, outer, base + Sizes(nodes) + 1))
  {
    hide Flat, Sizes;
    assert ([o] + outer)[1..] == outer;
    var a, b, c := Flat(nodes, base), [Instr(o.last, CloseBlock, o.name, o.start)],
                   FlatRest(o.rest, outer, base + Sizes(nodes) + 1);
    assert a + b + c == a + (b + c);
  }

  lemma SectionParts(nodes: seq<Node>, outer: seq<Outer>, base: nat, open: seq<Instr>, a: seq<Instr>, b: seq<Instr>)
    requires nodes != [] && FlatNode(nodes[0], base) == open + (a + b)
    ensures FlatRest(nodes, outer, base) == open + (a + (b + FlatRest(nodes[1..], outer, base + Size(nodes[0]))))
  {
    hide FlatNode;
    var base1 := base + Size(nodes[0]);
    var f := Flat(nodes[1..], base1);
    assert open + (a + b) + f == open + (a + (b + f));
    if outer != [] {
      var c := [Instr(outer[0].last, CloseBlock, outer[0].name, outer[0].start)];
      var t := FlatRest(outer[0].rest, outer[1..], base + Sizes(nodes) + 1);
      assert open + (a + b) + f + c + t == open + (a + (b + (f + c + t)));
    }
  }

  /** Between two parts of one program. */
  lemma Cut(code: seq<Instr>, lo: nat, hi: nat, a: seq<Instr>, b: seq<Instr>)
    requires lo <= hi <= |code| && code[lo..hi] == a + b
    ensures lo + |a| <= hi && code[lo..lo + |a|] == a && code[lo + |a|..hi] == b
    ensures |a| == 1 ==> code[lo] == a[0]
  {
    assert |code[lo..hi]| == |a| + |b|;
    assert code[lo..lo + |a|] == code[lo..hi][..|a|] == (a + b)[..|a|] == a;
    assert code[lo + |a|..hi] == code[lo..hi][|a|..] == (a + b)[|a|..] == b;
    if |a| == 1 { assert code[lo] == code[lo..hi][0]; }
  }

  /** The step at the front of what remains. */
  lemma Front(code: seq<Instr>, current: nat, end: nat, nodes: seq<Node>, outer: seq<Outer>)
    requires current <= end <= |code| && code[current..end] == FlatRest(nodes, outer, current)
    ensures current == end <==> nodes == [] && outer == []
    ensures current < end && nodes == [] ==>
              code[current] == Instr(outer[0].last, CloseBlock, outer[0].name, outer[0].start)
              && code[current + 1..end] == FlatRest(outer[0].rest, outer[1..], current + 1)
    ensures nodes != [] && !nodes[0].Section? ==>
              [code[current]] == FlatNode(nodes[0], current)
              && code[current + 1..end] == FlatRest(nodes[1..], outer, current + 1)
    ensures nodes != [] && nodes[0].Section? ==>
              var n := nodes[0];
              var close := current + 1 + Sizes(n.children);
              && close < end
              && code[current] == Instr(n.text, if n.inverted then ElseBlock else OpenBlock, n.name, close)
              && code[current + 1..close] == Flat(n.children, current + 1)
              && code[current + 1..end]
                 == FlatRest(n.children, [Outer(n.last, n.name, current, nodes[1..])] + outer, current + 1)
              && code[close].text == n.last
              && code[close + 1..end] == FlatRest(nodes[1..], outer, close + 1)
  {
    hide FlatNode;
    if nodes == [] {
      if outer != [] { FrontClose(code, current, end, outer); }
    } else if !nodes[0].Section? {
      FlatSimple(nodes, outer, current);
      Cut(code, current, end, FlatNode(nodes[0], current), FlatRest(nodes[1..], outer, current + 1));
    } else {
      FrontSection(code, current, end, nodes, outer);
    }
  }

  lemma FrontClose(code: seq<Instr>, current: nat, end: nat, outer: seq<Outer>)
    requires current <= end <= |code| && outer != [] && code[current..end] == FlatRest([], outer, current)
    ensures current < end
    ensures code[current] == Instr(outer[0].last, CloseBlock, outer[0].name, outer[0].start)
    ensures code[current + 1..end] == FlatRest(outer[0].rest, outer[1..], current + 1)
  {
    var a, b := [Instr(outer[0].last, CloseBlock, outer[0].name, outer[0].start)],
                FlatRest(outer[0].rest, outer[1..], current + 1);
    assert [] + a + b == a + b;
    Cut(code, current, end, a, b);
  }

  lemma FrontSection(code: seq<Instr>, current: nat, end: nat, nodes: seq<Node>, outer: seq<Outer>)
    requires current <= end <= |code| && code[current..end] == FlatRest(nodes, outer, current)
    requires nodes != [] && nodes[0].Section?
    ensures var n := nodes[0];
            var close := current + 1 + Sizes(n.children);
            && close < end
            && code[current] == Instr(n.text, if n.inverted then ElseBlock else OpenBlock, n.name, close)
            && code[current + 1..close] == Flat(n.children, current + 1)
            && code[current + 1..end]
               == FlatRest(n.children, [Outer(n.last, n.name, current, nodes[1..])] + outer, current + 1)
            && code[close].text == n.last
            && code[close + 1..end] == FlatRest(nodes[1..], outer, close + 1)
  {
    hide FlatRest, Flat, Sizes;
    FlatSection(nodes, outer, current);
    var n := nodes[0];
    var close := current + 1 + Sizes(n.children);
    var a, b, c := Flat(n.children, current + 1), [Instr(n.last, CloseBlock, n.name, current)],
                   FlatRest(nodes[1..], outer, close + 1);
    Cut(code, current, end, [Instr(n.text, if n.inverted then ElseBlock else OpenBlock, n.name, close)], a + (b + c));
    Cut(code, current + 1, end, a, b + c);
    Cut(code, close, end, b, c);
  }

  lemma Starting(nodes: seq<Node>, begin: nat, stack: seq<Value>)
    requires stack != [] && AllPlain(nodes)
    ensures FlatRest(nodes, [], begin) == Flat(nodes, begin) && AllPlainRest(nodes, [])
    ensures Resume(nodes, [], stack) == Interp(nodes, stack)
  {
  }

  lemma Finished(code: seq<Instr>, end: nat, nodes: seq<Node>, outer: seq<Outer>, stack: seq<Value>)
    requires end <= |code| && code[end..end] == FlatRest(nodes, outer, end) && |stack| > |outer|
    ensures nodes == [] && outer == [] && Resume(nodes, outer, stack) == Some("")
  {
    Front(code, end, end, nodes, outer);
  }

  // The items of a list, one at a time.

  lemma NoItems(nodes: seq<Node>, last: string, stack: seq<Value>, items: seq<Value>)
    requires stack != []
    ensures InterpEach(nodes, last, stack, items[..0]) == Some("")
  {
  }

  lemma OneItemMore(nodes: seq<Node>, last: string, stack: seq<Value>, items: seq<Value>, i: nat)
    requires stack != [] && i < |items|
    ensures InterpEach(nodes, last, stack, items[..i + 1])
         == Append(InterpEach(nodes, last, stack, items[..i]), Append(Interp(nodes, stack + [items[i]]), Some(last)))
  {
    hide Interp;
    assert items[..i + 1][..i] == items[..i];
  }

  lemma {:induction false} ItemFails(nodes: seq<Node>, last: string, stack: seq<Value>, items: seq<Value>, i: nat)
    requires stack != [] && i < |items| && Interp(nodes, stack + [items[i]]).None?
    ensures InterpEach(nodes, last, stack, items).None?
    decreases |items|
  {
    hide Interp;
    var n := |items| - 1;
    if i < n { ItemFails(nodes, last, stack, items[..n], i); }
  }

  /** Text that is due first can be put out now. */
  lemma Emit(out: string, text: string, rest: Option<string>, last: string)
    ensures Append(Some(out), Append(Append(Some(text), rest), Some(last)))
         == Append(Some(out + text), Append(rest, Some(last)))
  {
    if rest.Some? {
      assert out + (text + rest.value + last) == out + text + (rest.value + last);
    }
  }

  /** What is put out at the beginning of a list, and behind it. */
  lemma EmitLoop(out: string, text: string, each: Option<string>, rest: Option<string>, last: string)
    ensures var want := Append(Some(out), Append(Append(Append(Some(text), each), rest), Some(last)));
            if each.None? then want.None? else want == Append(Some(out + text + each.value), Append(rest, Some(last)))
  {
    hide Append;
    AppendAssoc(Some(text), each, rest);
    Emit(out, text, Append(each, rest), last);
    if each.None? { AppendNone(rest, out + text, last); } else { Emit(out + text, each.value, rest, last); }
  }

  lemma AppendNone(rest: Option<string>, out: string, last: string)
    ensures Append(Some(out), Append(Append(None, rest), Some(last))) == None
  {
  }

  lemma ResumeClose(outer: seq<Outer>, stack: seq<Value>)
    requires outer != [] && |stack| > |outer|
    ensures Resume([], outer, stack)
         == Append(Some(outer[0].last), Resume(outer[0].rest, outer[1..], stack[..|stack| - 1]))
  {
    var t := Append(Some(outer[0].last), Resume(outer[0].rest, outer[1..], stack[..|stack| - 1]));
    if t.Some? { assert "" + t.value == t.value; }
  }

  // ---------------------------------------------------------------------------------------------

  class Template {
    var body: string
    var fragments: seq<Fragment>
    var actions: seq<Action>

    predicate Valid()
      reads this
    {
      InBody(body, fragments, actions) && |actions| > 0
    }

    function Code(): seq<Instr>
      requires Valid()
      reads this
    {
      CodeOf(body, fragments, actions)
    }

    constructor (body: string, fragments: seq<Fragment>, actions: seq<Action>)
      requires InBody(body, fragments, actions) && |actions| > 0
      ensures Valid() && Code() == CodeOf(body, fragments, actions)
    {
      this.body := body;
      this.fragments := fragments;
      this.actions := actions;
    }

    /** `find_context` for a name without dots (or the single dot): a search down the stack. */
    method FindContext(name: string, stack: seq<Value>) returns (found: Option<Value>)
      requires stack != [] && IsPlain(name)
      ensures found == Lookup(name, stack)
    {
      if name == "." { return Some(stack[|stack| - 1]); }
      var i := |stack|;
      assert stack[..i] == stack;
      while i > 0
        invariant 0 <= i <= |stack|
        invariant Search(name, stack) == Search(name, stack[..i])
      {
        i := i - 1;
        assert stack[..i + 1][..i] == stack[..i];
        if stack[i].Object? && name in stack[i].fields { return Some(stack[i].fields[name]); }
      }
      found := None;
    }

    /** `escape`. */
    method EscapeInto(s: string, st: Output)
      modifies st`out
      ensures st.out == old(st.out) + Escape(s)
    {
      hide EscapeChar;
      var i := 0;
      while i < |s|
        invariant 0 <= i <= |s|
        invariant st.out == old(st.out) + Escape(s[..i])
      {
        assert s[..i + 1][..i] == s[..i];
        st.out := st.out + EscapeChar(s[i]);
        i := i + 1;
      }
      assert s[..i] == s;
    }

    /** A variable tag; false is the exception for a value that is no scalar. */
    method RenderVariable(name: string, escaped: bool, st: Output) returns (ok: bool)
      requires st.stack != [] && IsPlain(name)
      modifies st`out
      ensures var t := VariableText(Lookup(name, st.stack), escaped);
              ok == t.Some? && (ok ==> st.out == old(st.out) + t.value)
    {
      var found := FindContext(name, st.stack);
      ok := true;
      match found {
        case None =>
          assert st.out + "" == st.out;
        case Some(v) =>
          match v {
            case False => st.out := st.out + "false";
            case True => st.out := st.out + "true";
            case Number(text) => st.out := st.out + text;
            case Str(s) => if escaped { EscapeInto(s, st); } else { st.out := st.out + s; }
            case _ => ok := false;
          }
      }
    }

    method RenderFragment(i: nat, st: Output)
      requires Valid() && i < |fragments|
      modifies st`out
      ensures st.out == old(st.out) + Code()[i].text
    {
      var f := fragments[i];
      st.out := st.out + body[f.first..f.second];
    }

    /** What a call has still to do and to put out when it stands at `current`. */
    ghost predicate Midway(current: nat, end: nat, rest: seq<Node>, outer: seq<Outer>, base: seq<Value>,
                           want: Option<string>, st: Output)
      requires Valid() && end < |fragments|
      reads this, st
    {
      && current <= end
      && Code()[current..end] == FlatRest(rest, outer, current) && AllPlainRest(rest, outer)
      && base != [] && |st.stack| == |base| + |outer| && st.stack[..|base|] == base
      && want == Append(Some(st.out), Append(Resume(rest, outer, st.stack), Some(Code()[end].text)))
    }

    /** A closing step: one context less. */
    method Leave(current: nat, end: nat, st: Output, ghost outer: seq<Outer>, ghost base: seq<Value>,
                 ghost want: Option<string>)
      requires Valid() && end < |fragments| && current < end && outer != []
      requires Midway(current, end, [], outer, base, want, st)
      modifies st
      ensures Midway(current + 1, end, outer[0].rest, outer[1..], base, want, st)
    {
      hide Flat, Interp, AllPlain, FlatRest, Resume;
      Front(Code(), current, end, [], outer);
      ResumeClose(outer, st.stack);
      Emit(st.out, outer[0].last, Resume(outer[0].rest, outer[1..], st.stack[..|st.stack| - 1]), Code()[end].text);
      RenderFragment(current, st);
      st.stack := st.stack[..|st.stack| - 1];
    }

    /** A variable or a comment. */
    method Simple(current: nat, end: nat, st: Output, ghost rest: seq<Node>, ghost outer: seq<Outer>,
                  ghost base: seq<Value>, ghost want: Option<string>) returns (ok: bool)
      requires Valid() && end < |fragments| && current < end && rest != [] && !rest[0].Section?
      requires Midway(current, end, rest, outer, base, want, st)
      modifies st
      ensures ok ==> Midway(current + 1, end, rest[1..], outer, base, want, st)
      ensures !ok ==> want.None?
    {
      hide Flat, Interp, FlatRest, Resume, VariableText, Lookup;
      ghost var n := rest[0];
      Front(Code(), current, end, rest, outer);
      ResumeNode(rest, outer, st.stack);
      ghost var tail := Resume(rest[1..], outer, st.stack);
      var a := actions[current];
      ok := true;
      if a.t.Ignore? {
        Emit(st.out, n.text, tail, Code()[end].text);
        RenderFragment(current, st);
      } else {
        ghost var t := VariableText(Lookup(n.name, st.stack), n.escaped);
        AppendAssoc(Some(n.text), t, tail);
        Emit(st.out, n.text, Append(t, tail), Code()[end].text);
        RenderFragment(current, st);
        ghost var before := st.out;
        ok := RenderVariable(Sub(body, a.start, a.end), a.t.Tag?, st);
        if ok { Emit(before, t.value, tail, Code()[end].text); }
      }
    }

    /** Rendering a section in place, in one context: it goes onto the stack until the closing step. */
    method Enter(current: nat, end: nat, v: Value, st: Output, ghost rest: seq<Node>, ghost outer: seq<Outer>,
                 ghost base: seq<Value>, ghost want: Option<string>)
      requires Valid() && end < |fragments| && current < end && rest != [] && rest[0].Section?
      requires Midway(current, end, rest, outer, base, want, st)
      requires SectionContexts(Lookup(rest[0].name, st.stack), rest[0].inverted) == [v]
      modifies st
      ensures var n := rest[0];
              Midway(current + 1, end, n.children, [Outer(n.last, n.name, current, rest[1..])] + outer, base, want, st)
    {
      hide Flat, Interp, FlatRest, Resume, SectionContexts, Lookup;
      ghost var n := rest[0];
      Front(Code(), current, end, rest, outer);
      ResumeEnter(rest, outer, st.stack, current, v);
      ghost var outer1 := [Outer(n.last, n.name, current, rest[1..])] + outer;
      assert outer1[1..] == outer;
      assert AllPlain(n.children) && AllPlainRest(rest[1..], outer);
      assert (st.stack + [v])[..|base|] == st.stack[..|base|];
      Emit(st.out, n.text, Resume(n.children, outer1, st.stack + [v]), Code()[end].text);
      RenderFragment(current, st);
      st.stack := st.stack + [v];
    }

    /** Skipping a section: on to the step after its closing one. */
    method Skip(current: nat, end: nat, st: Output, ghost rest: seq<Node>, ghost outer: seq<Outer>,
                ghost base: seq<Value>, ghost want: Option<string>) returns (next: nat)
      requires Valid() && end < |fragments| && current < end && rest != [] && rest[0].Section?
      requires Midway(current, end, rest, outer, base, want, st)
      requires SectionContexts(Lookup(rest[0].name, st.stack), rest[0].inverted) == []
      modifies st
      ensures current < next && Midway(next, end, rest[1..], outer, base, want, st)
    {
      hide Flat, Interp, FlatRest, Resume, SectionContexts, Lookup;
      ghost var n := rest[0];
      Front(Code(), current, end, rest, outer);
      ResumeNode(rest, outer, st.stack);
      ghost var tail := Resume(rest[1..], outer, st.stack);
      assert n.text + "" == n.text;
      Emit(st.out, n.text, tail, Code()[end].text);
      RenderFragment(current, st);
      next := actions[current].pos + 1;
    }

    /** A section over a list: a recursive call for each item, with the item on the stack. */
    method Each(begin: nat, end: nat, items: seq<Value>, st: Output, ghost nodes: seq<Node>) returns (ok: bool)
      requires Valid() && begin <= end < |fragments| && st.stack != []
      requires Code()[begin..end] == Flat(nodes, begin) && AllPlain(nodes)
      modifies st
      ensures var want := InterpEach(nodes, Code()[end].text, old(st.stack), items);
              ok == want.Some? && (ok ==> st.stack == old(st.stack) && st.out == old(st.out) + want.value)
      decreases end - begin, 4
    {
      hide Flat, Interp, AllPlain;
      ghost var last, stack0 := Code()[end].text, st.stack;
      var i := 0;
      ok := true;
      NoItems(nodes, last, stack0, items);
      assert st.out + "" == st.out;
      while i < |items|
        invariant 0 <= i <= |items| && st.stack == stack0
        invariant InterpEach(nodes, last, stack0, items[..i]).Some?
        invariant st.out == old(st.out) + InterpEach(nodes, last, stack0, items[..i]).value
      {
        ghost var sofar := InterpEach(nodes, last, stack0, items[..i]).value;
        OneItemMore(nodes, last, stack0, items, i);
        st.stack := st.stack + [items[i]];
        ghost var before := st.out;
        ok := RenderInternal(begin, end, st, nodes);
        if !ok {
          ItemFails(nodes, last, stack0, items, i);
          return;
        }
        st.stack := st.stack[..|st.stack| - 1];
        assert old(st.out) + sofar + Append(Interp(nodes, stack0 + [items[i]]), Some(last)).value
            == old(st.out) + (sofar + Append(Interp(nodes, stack0 + [items[i]]), Some(last)).value);
        i := i + 1;
      }
      assert items[..i] == items;
    }

    /** A section over a list. */
    method Loop(current: nat, end: nat, items: seq<Value>, st: Output, ghost rest: seq<Node>, ghost outer: seq<Outer>,
                ghost base: seq<Value>, ghost want: Option<string>) returns (next: nat, ok: bool)
      requires Valid() && end < |fragments| && current < end && rest != [] && rest[0].Section? && !rest[0].inverted
      requires Midway(current, end, rest, outer, base, want, st)
      requires Lookup(rest[0].name, st.stack) == Some(List(items))
      modifies st
      ensures ok ==> current < next && Midway(next, end, rest[1..], outer, base, want, st)
      ensures !ok ==> want.None?
      decreases end - current, 0
    {
      hide Flat, Interp, FlatRest, Resume, Lookup, InterpEach, Append, CodeOf;
      ghost var n := rest[0];
      Front(Code(), current, end, rest, outer);
      ResumeNode(rest, outer, st.stack);
      ghost var tail := Resume(rest[1..], outer, st.stack);
      ghost var t := InterpEach(n.children, n.last, st.stack, items);
      EmitLoop(st.out, n.text, t, tail, Code()[end].text);
      TypeAt(current);
      RenderFragment(current, st);
      next := actions[current].pos + 1;
      ok := Each(current + 1, actions[current].pos, items, st, n.children);
    }

    /** The opening step of a section. */
    method Open(current: nat, end: nat, st: Output, ghost rest: seq<Node>, ghost outer: seq<Outer>,
                ghost base: seq<Value>, ghost want: Option<string>)
      returns (next: nat, ghost rest1: seq<Node>, ghost outer1: seq<Outer>, ok: bool)
      requires Valid() && end < |fragments| && current < end && rest != [] && rest[0].Section?
      requires Midway(current, end, rest, outer, base, want, st)
      modifies st
      ensures ok ==> current < next && Midway(next, end, rest1, outer1, base, want, st)
      ensures !ok ==> want.None?
      decreases end - current, 1
    {
      hide Flat, Interp, FlatRest, Resume, Lookup;
      ghost var n := rest[0];
      Front(Code(), current, end, rest, outer);
      var a := actions[current];
      var found := FindContext(Sub(body, a.start, a.end), st.stack);
      rest1, outer1, ok := rest[1..], outer, true;
      if a.t.OpenBlock? && found.Some? && found.value.List? {
        next, ok := Loop(current, end, found.value.items, st, rest, outer, base, want);
        return;
      }
      var contexts := SectionContexts(found, a.t.ElseBlock?);
      if contexts == [] {
        next := Skip(current, end, st, rest, outer, base, want);
      } else {
        Enter(current, end, contexts[0], st, rest, outer, base, want);
        rest1, outer1 := n.children, [Outer(n.last, n.name, current, rest[1..])] + outer;
        next := current + 1;
      }
    }

    /** One round of the loop. */
    method Round(current: nat, end: nat, st: Output, ghost rest: seq<Node>, ghost outer: seq<Outer>,
                 ghost base: seq<Value>, ghost want: Option<string>)
      returns (next: nat, ghost rest1: seq<Node>, ghost outer1: seq<Outer>, ok: bool)
      requires Valid() && end < |fragments| && current < end
      requires Midway(current, end, rest, outer, base, want, st)
      modifies st
      ensures ok ==> current < next && Midway(next, end, rest1, outer1, base, want, st)
      ensures !ok ==> want.None?
      decreases end - current, 2
    {
      hide Flat, Interp, FlatRest, Resume, AllPlainRest, CodeOf;
      Front(Code(), current, end, rest, outer);
      TypeAt(current);
      var t := actions[current].t;
      if t.CloseBlock? {
        Leave(current, end, st, outer, base, want);
        next, rest1, outer1, ok := current + 1, outer[0].rest, outer[1..], true;
      } else if t.OpenBlock? || t.ElseBlock? {
        next, rest1, outer1, ok := Open(current, end, st, rest, outer, base, want);
      } else {
        ok := Simple(current, end, st, rest, outer, base, want);
        next, rest1, outer1 := current + 1, rest[1..], outer;
      }
    }

    lemma TypeAt(i: nat)
      requires Valid() && i < |actions|
      ensures Code()[i].t == actions[i].t && Code()[i].pos == actions[i].pos
    {
    }

    /** `render_internal` on the steps from `begin` to `end`, which are the program of `nodes`: it puts out
        what the nodes mean in the context of the stack, then the fragment at `end`, and leaves the stack as
        it was.  It throws exactly when the meaning is undefined. */
    method RenderInternal(begin: nat, end: nat, st: Output, ghost nodes: seq<Node>) returns (ok: bool)
      requires Valid() && begin <= end < |fragments| && st.stack != []
      requires Code()[begin..end] == Flat(nodes, begin) && AllPlain(nodes)
      modifies st
      ensures var want := Append(Interp(nodes, old(st.stack)), Some(Code()[end].text));
              ok == want.Some? && (ok ==> st.stack == old(st.stack) && st.out == old(st.out) + want.value)
      decreases end - begin, 3
    {
      hide Flat, Interp, AllPlain, CodeOf, FlatRest, Resume, AllPlainRest;
      Starting(nodes, begin, st.stack);
      var current := begin;
      ghost var rest, outer: seq<Outer> := nodes, [];
      ghost var base, want := st.stack, Append(Some(st.out), Append(Interp(nodes, st.stack), Some(Code()[end].text)));
      while current < end
        invariant Midway(current, end, rest, outer, base, want, st)
        decreases end - current
      {
        current, rest, outer, ok := Round(current, end, st, rest, outer, base, want);
        if !ok { return; }
      }
      Finished(Code(), current, rest, outer, st.stack);
      RenderFragment(end, st);
      ok := true;
    }

    /** `render_string`: what the nodes mean in the given context, and the text after the last tag. */
    method RenderString(ctx: Value, ghost nodes: seq<Node>, ghost last: string) returns (ok: bool, out: string)
      requires Valid() && AllPlain(nodes) && Code() == Flat(nodes, 0) + [Instr(last, Ignore, "", 0)]
      ensures var want := Append(Interp(nodes, [ctx]), Some(last));
              ok == want.Some? && (ok ==> out == want.value)
    {
      hide Flat, Interp, AllPlain, CodeOf;
      var st := new Output(ctx);
      ghost var n := |Flat(nodes, 0)|;
      assert Code()[0..n] == Flat(nodes, 0);
      ok := RenderInternal(0, |fragments| - 1, st, nodes);
      out := st.out;
    }
  }
}
