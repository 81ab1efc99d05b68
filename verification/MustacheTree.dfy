/** Templates as trees of sections, their meaning, and the flat programs they compile to. */
module MustacheTree {
  import opened Wrappers

  /** `json::wvalue` without functions; a number is kept as the text it dumps to. */
  datatype Value =
    | Null | False | True
    | Number(text: string)
    | Str(s: string)
    | List(items: seq<Value>)
    | Object(fields: map<string, Value>)

  datatype ActionType = Ignore | Tag | UnescapeTag | OpenBlock | CloseBlock | ElseBlock

  /** One step of a program: the fragment before a tag, and the tag. */
  datatype Instr = Instr(text: string, t: ActionType, name: string, pos: nat)

  /** A piece of a template: the text before a tag, and what the tag stands for.  `last` is the text
      before the closing tag of a section. */
  datatype Node =
    | Variable(text: string, name: string, escaped: bool)
    | Comment(text: string, name: string)
    | Section(text: string, name: string, inverted: bool, children: seq<Node>, last: string)

  // ---------------------------------------------------------------------------------------------
  // Meaning

  /** Names are looked up as a whole; dotted paths are not part of this model. */
  predicate IsPlain(name: string) {
    name == "." || '.' !in name
  }

  predicate AllPlain(nodes: seq<Node>) {
    nodes == [] ||
    (&& (nodes[0].Comment? || IsPlain(nodes[0].name)) && (nodes[0].Section? ==> AllPlain(nodes[0].children))
     && AllPlain(nodes[1..]))
  }

  /** The innermost object on the stack that has the name; "." is the top of the stack. */
  function Lookup(name: string, stack: seq<Value>): Option<Value>
    requires stack != []
  {
    if name == "." then Some(stack[|stack| - 1]) else Search(name, stack)
  }

  function Search(name: string, stack: seq<Value>): Option<Value> {
    if stack == [] then None
    else
      var top := stack[|stack| - 1];
      if top.Object? && name in top.fields then Some(top.fields[name]) else Search(name, stack[..|stack| - 1])
  }

  function EscapeChar(c: char): string {
    match c
    case '&' => "&amp;"
    case '<' => "&lt;"
    case '>' => "&gt;"
    case '"' => "&quot;"
    case '\'' => "&#39;"
    case '/' => "&#x2F;"
    case '`' => "&#x60;"
    case '=' => "&#x3D;"
    case _ => [c]
  }

  function Escape(s: string): string {
    if s == "" then "" else Escape(s[..|s| - 1]) + EscapeChar(s[|s| - 1])
  }

  /** What a variable tag puts out; None is the exception for null, lists and objects. */
  function VariableText(found: Option<Value>, escaped: bool): Option<string> {
    match found
    case None => Some("")
    case Some(False) => Some("false")
    case Some(True) => Some("true")
    case Some(Number(text)) => Some(text)
    case Some(Str(s)) => Some(if escaped then Escape(s) else s)
    case _ => None
  }

  /** The contexts a section is rendered in, one after the other. */
  function SectionContexts(found: Option<Value>, inverted: bool): seq<Value> {
    if inverted then
      match found
      case None => [Null]
      case Some(List(items)) => if items == [] then [Null] else []
      case Some(False) => [Null]
      case Some(Null) => [Null]
      case _ => []
    else
      match found
      case None => []
      case Some(List(items)) => items
      case Some(False) => []
      case Some(Null) => []
      case Some(v) => [v]
  }

  function Append(a: Option<string>, b: Option<string>): Option<string> {
    if a.Some? && b.Some? then Some(a.value + b.value) else None
  }

  /** The meaning of a list of nodes in a context. */
  function Interp(nodes: seq<Node>, stack: seq<Value>): Option<string>
    requires stack != []
    decreases nodes, 0
  {
    if nodes == [] then Some("") else Append(InterpNode(nodes[0], stack), Interp(nodes[1..], stack))
  }

  function InterpNode(n: Node, stack: seq<Value>): Option<string>
    requires stack != []
    decreases n, 0
  {
    match n
    case Comment(text, _) => Some(text)
    case Variable(text, name, escaped) => Append(Some(text), VariableText(Lookup(name, stack), escaped))
    case Section(text, name, inverted, children, last) =>
      Append(Some(text), InterpEach(children, last, stack, SectionContexts(Lookup(name, stack), inverted)))
  }

  /** The children and the text after them, once for each context. */
  function InterpEach(children: seq<Node>, last: string, stack: seq<Value>, contexts: seq<Value>): Option<string>
    requires stack != []
    decreases children, |contexts| + 1
  {
    if contexts == [] then Some("")
    else
      var n := |contexts| - 1;
      Append(InterpEach(children, last, stack, contexts[..n]),
             Append(Interp(children, stack + [contexts[n]]), Some(last)))
  }

  // ---------------------------------------------------------------------------------------------
  // Flat programs

  function Size(n: Node): nat
    decreases n, 0
  {
    match n
    case Section(_, _, _, children, _) => Sizes(children) + 2
    case _ => 1
  }

  function Sizes(nodes: seq<Node>): nat
    decreases nodes, 0
  {
    if nodes == [] then 0 else Size(nodes[0]) + Sizes(nodes[1..])
  }

  /** The program of a node that begins at index `base`: a section's opening step knows the index of its
      closing step, and the other way round. */
  function FlatNode(n: Node, base: nat): seq<Instr>
    decreases n, 0
  {
    match n
    case Variable(text, name, escaped) => [Instr(text, if escaped then Tag else UnescapeTag, name, 0)]
    case Comment(text, name) => [Instr(text, Ignore, name, 0)]
    case Section(text, name, inverted, children, last) =>
      [Instr(text, if inverted then ElseBlock else OpenBlock, name, base + 1 + Sizes(children))]
      + (Flat(children, base + 1) + [Instr(last, CloseBlock, name, base)])
  }

  function Flat(nodes: seq<Node>, base: nat): seq<Instr>
    decreases nodes, 0
  {
    if nodes == [] then [] else FlatNode(nodes[0], base) + Flat(nodes[1..], base + Size(nodes[0]))
  }

  lemma {:induction false} FlatNodeLength(n: Node, base: nat)
    ensures |FlatNode(n, base)| == Size(n)
    decreases n, 0
  {
    if n.Section? { FlatLength(n.children, base + 1); }
  }

  lemma {:induction false} FlatLength(nodes: seq<Node>, base: nat)
    ensures |Flat(nodes, base)| == Sizes(nodes)
    decreases nodes, 0
  {
    if nodes != [] {
      FlatNodeLength(nodes[0], base);
      FlatLength(nodes[1..], base + Size(nodes[0]));
    }
  }

  lemma {:induction false} FlatAppend(a: seq<Node>, b: seq<Node>, base: nat)
    ensures Sizes(a + b) == Sizes(a) + Sizes(b)
    ensures Flat(a + b, base) == Flat(a, base) + Flat(b, base + Sizes(a))
    decreases a
  {
    if a == [] {
      assert a + b == b;
    } else {
      assert (a + b)[0] == a[0] && (a + b)[1..] == a[1..] + b;
      FlatAppend(a[1..], b, base + Size(a[0]));
    }
  }

  // ---------------------------------------------------------------------------------------------
  // Jump targets

  predicate Opens(i: Instr) {
    i.t.OpenBlock? || i.t.ElseBlock?
  }

  /** The opening step at `i` jumps forward to the closing step of the same name, which knows its way back. */
  predicate Paired(code: seq<Instr>, base: nat, i: nat)
    requires i < |code|
  {
    var close := code[i].pos - base;
    && i < close < |code|
    && code[close].t.CloseBlock? && code[close].name == code[i].name && code[close].pos == base + i
  }

  ghost predicate Bracketed(code: seq<Instr>, base: nat) {
    && (forall i: nat :: i < |code| && Opens(code[i]) ==> Paired(code, base, i))
    && (forall i: nat, k: nat :: i < k < |code| && Opens(code[i]) && Opens(code[k]) && base + k < code[i].pos ==>
          code[k].pos < code[i].pos)
  }

  lemma BracketedAppend(a: seq<Instr>, b: seq<Instr>, base: nat)
    requires Bracketed(a, base) && Bracketed(b, base + |a|)
    ensures Bracketed(a + b, base)
  {
    var c := a + b;
    forall i: nat | i < |c| && Opens(c[i]) ensures Paired(c, base, i) {
      if i < |a| {
        assert Paired(a, base, i);
      } else {
        assert b[i - |a|] == c[i] && Paired(b, base + |a|, i - |a|);
      }
    }
    forall i: nat, k: nat | i < k < |c| && Opens(c[i]) && Opens(c[k]) && base + k < c[i].pos
      ensures c[k].pos < c[i].pos
    {
      if i < |a| {
        assert Paired(a, base, i);
        assert a[i] == c[i] && a[k] == c[k];
      } else {
        assert b[i - |a|] == c[i] && b[k - |a|] == c[k];
      }
    }
  }

  lemma BracketedSection(open: Instr, code: seq<Instr>, close: Instr, base: nat)
    requires Bracketed(code, base + 1) && Opens(open) && open.pos == base + 1 + |code|
    requires close.t.CloseBlock? && close.name == open.name && close.pos == base
    ensures Bracketed([open] + (code + [close]), base)
  {
    var c := [open] + (code + [close]);
    forall i: nat | i < |c| && Opens(c[i]) ensures Paired(c, base, i) {
      if i > 0 { assert code[i - 1] == c[i] && Paired(code, base + 1, i - 1); }
    }
    forall i: nat, k: nat | i < k < |c| && Opens(c[i]) && Opens(c[k]) && base + k < c[i].pos
      ensures c[k].pos < c[i].pos
    {
      assert code[k - 1] == c[k] && Paired(code, base + 1, k - 1);
      if i > 0 { assert code[i - 1] == c[i]; }
    }
  }

  /** Every opening step of a program has its own closing step ahead of it, and two sections are apart or one
      is inside the other. */
  lemma {:induction false} FlatBracketed(nodes: seq<Node>, base: nat)
    ensures Bracketed(Flat(nodes, base), base)
    decreases nodes, 0
  {
    hide Bracketed, FlatNode;
    if nodes == [] {
      NothingBracketed(base);
    } else {
      FlatNodeBracketed(nodes[0], base);
      FlatNodeLength(nodes[0], base);
      FlatBracketed(nodes[1..], base + Size(nodes[0]));
      BracketedAppend(FlatNode(nodes[0], base), Flat(nodes[1..], base + Size(nodes[0])), base);
    }
  }

  lemma NothingBracketed(base: nat)
    ensures Bracketed([], base)
  {
  }

  lemma {:induction false} FlatNodeBracketed(n: Node, base: nat)
    ensures Bracketed(FlatNode(n, base), base)
    decreases n, 0
  {
    hide Flat;
    if n.Section? {
      FlatLength(n.children, base + 1);
      FlatBracketed(n.children, base + 1);
      BracketedSection(FlatNode(n, base)[0], Flat(n.children, base + 1), Instr(n.last, CloseBlock, n.name, base), base);
    }
  }
}
