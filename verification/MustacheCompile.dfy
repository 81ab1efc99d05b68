/** The second pass of `parse`, which removes standalone lines, and `render_string` on what both passes make. */
module MustacheCompile {
  import opened Wrappers
  import opened MustacheTree
  import opened MustacheRender
  import opened MustacheParse

  // ---------------------------------------------------------------------------------------------
  // Standalone lines

  predicate Spaces(body: string, from: nat, to: nat)
    requires to <= |body|
  {
    forall i :: from <= i < to ==> body[i] == ' '
  }

  /** `body[from..to]` is empty, or the rest of a line of spaces with its line end. */
  predicate BlankLineEnd(body: string, from: nat, to: nat)
    requires from <= to <= |body|
  {
    || from == to
    || (Spaces(body, from, to - 1) && body[to - 1] == '\n')
    || (from + 2 <= to && Spaces(body, from, to - 2) && body[to - 2] == '\r' && body[to - 1] == '\n')
  }

  /** `g` is the fragment `f` without spaces at its end and without a blank line end at its beginning; the end
      is cut only back to the beginning of a line, or of the text. */
  predicate Trimmed(body: string, f: Fragment, g: Fragment) {
    && f.first <= g.first <= g.second <= f.second <= |body|
    && Spaces(body, g.second, f.second) && BlankLineEnd(body, f.first, g.first)
    && (g.second < f.second ==> g.second == 0 || body[g.second - 1] == '\n')
  }

  /** A fragment ends at a tag, at the end of the text, or, once cut, before a space. */
  predicate Ended(body: string, f: Fragment) {
    f.first <= f.second <= |body| && (f.second == |body| || body[f.second] == '{' || body[f.second] == ' ')
  }

  /** Where the spaces before `end` begin, looking back no further than `from`. */
  function SpacesFrom(body: string, from: nat, end: nat): (j: nat)
    requires from <= end <= |body|
    ensures from <= j <= end && Spaces(body, j, end) && (j > from ==> body[j - 1] != ' ')
    decreases end
  {
    if end > from && body[end - 1] == ' ' then SpacesFrom(body, from, end - 1) else end
  }

  /** Where the spaces from `from` on end, looking no further than `end`. */
  function SpacesTo(body: string, from: nat, end: nat): (k: nat)
    requires from <= end <= |body|
    ensures from <= k <= end && Spaces(body, from, k) && (k < end ==> body[k] != ' ')
    decreases end - from
  {
    if from < end && body[from] == ' ' then SpacesTo(body, from + 1, end) else from
  }

  predicate LineEndAt(body: string, k: nat)
    requires k < |body|
  {
    body[k] == '\n' || (body[k] == '\r' && k + 1 < |body| && body[k + 1] == '\n')
  }

  /** A tag between these fragments has a line of its own: nothing but spaces before it and behind it. */
  predicate Standalone(body: string, before: Fragment, after: Fragment, isFirst: bool, isLast: bool)
    requires Ended(body, before) && Ended(body, after)
  {
    var j, k := SpacesFrom(body, before.first, before.second), SpacesTo(body, after.first, after.second);
    && (if j == before.first then isFirst else body[j - 1] == '\n')
    && (if k == after.second then isLast else LineEndAt(body, k))
  }

  /** The fragments around a tag that puts nothing out: the whole line of a standalone tag goes with it. */
  function Around(body: string, before: Fragment, after: Fragment, isFirst: bool, isLast: bool): (r: (Fragment, Fragment))
    requires Ended(body, before) && Ended(body, after)
    ensures Ended(body, r.0) && Ended(body, r.1)
    ensures r.0.first == before.first && r.1.second == after.second
  {
    if !Standalone(body, before, after, isFirst, isLast) then (before, after)
    else
      var j, k := SpacesFrom(body, before.first, before.second), SpacesTo(body, after.first, after.second);
      (before.(second := j),
       if k == after.second then after else after.(first := if body[k] == '\n' then k + 1 else k + 2))
  }

  predicate PutsOut(t: ActionType) {
    t.Tag? || t.UnescapeTag?
  }

  predicate AllInText(body: string, fragments: seq<Fragment>) {
    fragments != [] && forall i :: 0 <= i < |fragments| ==> Ended(body, fragments[i])
  }

  /** The fragments once the tags from the last down to number `i` have been dealt with. */
  function TrimFrom(body: string, fragments: seq<Fragment>, kinds: seq<ActionType>, i: nat): (r: seq<Fragment>)
    requires AllInText(body, fragments) && i < |fragments| == |kinds|
    ensures |r| == |fragments| && AllInText(body, r)
    decreases |fragments| - i
  {
    if i == |fragments| - 1 then fragments
    else
      var t := TrimFrom(body, fragments, kinds, i + 1);
      if PutsOut(kinds[i]) then t
      else
        var x := Around(body, t[i], t[i + 1], i == 0, i == |fragments| - 2);
        t[i := x.0][i + 1 := x.1]
  }

  lemma AroundTrims(body: string, before: Fragment, after: Fragment, isFirst: bool, isLast: bool, f: Fragment)
    requires Ended(body, before) && Ended(body, after) && Trimmed(body, f, after) && after.first == f.first
    requires isFirst ==> before.first == 0
    ensures var x := Around(body, before, after, isFirst, isLast);
            Trimmed(body, before, x.0) && Trimmed(body, f, x.1)
  {
  }

  /** Nothing but spaces and line ends is cut from the texts, and nothing around a variable. */
  lemma {:induction false} TrimKeeps(body: string, fragments: seq<Fragment>, kinds: seq<ActionType>, i: nat)
    requires AllInText(body, fragments) && i < |fragments| == |kinds| && fragments[0].first == 0
    ensures var r := TrimFrom(body, fragments, kinds, i);
            && (forall j :: 0 <= j < |r| ==> Trimmed(body, fragments[j], r[j]))
            && (forall j :: 0 <= j < i ==> r[j] == fragments[j]) && r[i].first == fragments[i].first
            && forall j :: i <= j < |r| - 1 && PutsOut(kinds[j]) ==>
                 r[j].second == fragments[j].second && r[j + 1].first == fragments[j + 1].first
    decreases |fragments| - i
  {
    hide Trimmed, Ended, Around;
    if i == |fragments| - 1 {
      Untrimmed(body, fragments);
    } else {
      TrimKeeps(body, fragments, kinds, i + 1);
      var t := TrimFrom(body, fragments, kinds, i + 1);
      if !PutsOut(kinds[i]) {
        AroundTrims(body, t[i], t[i + 1], i == 0, i == |fragments| - 2, fragments[i + 1]);
      }
    }
  }

  lemma Untrimmed(body: string, fragments: seq<Fragment>)
    requires AllInText(body, fragments)
    ensures forall i :: 0 <= i < |fragments| ==> Trimmed(body, fragments[i], fragments[i])
  {
  }

  /** One round of the pass, with its two scanning loops. */
  method TrimAround(body: string, before: Fragment, after: Fragment, isFirst: bool, isLast: bool)
    returns (b: Fragment, a: Fragment)
    requires Ended(body, before) && Ended(body, after)
    ensures (b, a) == Around(body, before, after, isFirst, isLast)
  {
    hide Spaces;
    b, a := before, after;
    var j := before.second;
    while j > before.first && body[j - 1] == ' '
      invariant before.first <= j <= before.second
      invariant SpacesFrom(body, before.first, j) == SpacesFrom(body, before.first, before.second)
    {
      j := j - 1;
    }
    var allSpaceBefore := j == before.first;
    if allSpaceBefore && !isFirst { return; }
    if !allSpaceBefore && body[j - 1] != '\n' { return; }
    var k := after.first;
    while k < after.second && body[k] == ' '
      invariant after.first <= k <= after.second
      invariant SpacesTo(body, k, after.second) == SpacesTo(body, after.first, after.second)
    {
      k := k + 1;
    }
    var allSpaceAfter := k == after.second;
    if allSpaceAfter && !isLast { return; }
    if !allSpaceAfter && !(body[k] == '\n' || (body[k] == '\r' && k + 1 < |body| && body[k + 1] == '\n')) { return; }
    b := before.(second := j);
    if !allSpaceAfter {
      a := after.(first := if body[k] == '\n' then k + 1 else k + 2);
    }
  }

  /** The pass over all tags, from the last to the first. */
  method RemoveStandalones(body: string, fragments: seq<Fragment>, actions: seq<Action>) returns (trimmed: seq<Fragment>)
    requires |fragments| == |actions| && AllInText(body, fragments)
    ensures trimmed == TrimFrom(body, fragments, Kinds(actions), 0)
  {
    hide Ended, Around;
    trimmed := fragments;
    var i := |actions| - 1;
    while i > 0
      invariant 0 <= i < |fragments| && trimmed == TrimFrom(body, fragments, Kinds(actions), i)
    {
      i := i - 1;
      if !(actions[i].t.Tag? || actions[i].t.UnescapeTag?) {
        var b, a := TrimAround(body, trimmed[i], trimmed[i + 1], i == 0, i == |actions| - 2);
        trimmed := trimmed[i := b][i + 1 := a];
      }
    }
  }

  // ---------------------------------------------------------------------------------------------
  // The same program with other texts

  function WithTexts(code: seq<Instr>, texts: seq<string>): (r: seq<Instr>)
    requires |texts| == |code|
    ensures |r| == |code|
  {
    seq(|code|, i requires 0 <= i < |code| => code[i].(text := texts[i]))
  }

  /** The node with other texts, in the order in which they appear. */
  function RetextNode(n: Node, texts: seq<string>): (r: Node)
    requires |texts| == Size(n)
    ensures Size(r) == Size(n)
    decreases n, 0
  {
    match n
    case Variable(_, name, escaped) => Variable(texts[0], name, escaped)
    case Comment(_, name) => Comment(texts[0], name)
    case Section(_, name, inverted, children, _) =>
      Section(texts[0], name, inverted, Retext(children, texts[1..|texts| - 1]), texts[|texts| - 1])
  }

  function Retext(nodes: seq<Node>, texts: seq<string>): (r: seq<Node>)
    requires |texts| == Sizes(nodes)
    ensures Sizes(r) == Sizes(nodes)
    decreases nodes, 0
  {
    if nodes == [] then []
    else [RetextNode(nodes[0], texts[..Size(nodes[0])])] + Retext(nodes[1..], texts[Size(nodes[0])..])
  }

  lemma {:induction false} RetextFlat(nodes: seq<Node>, texts: seq<string>, base: nat)
    requires |texts| == Sizes(nodes)
    ensures |Flat(nodes, base)| == Sizes(nodes)
    ensures Flat(Retext(nodes, texts), base) == WithTexts(Flat(nodes, base), texts)
    decreases nodes, 0
  {
    FlatLength(nodes, base);
    if nodes != [] {
      var n := nodes[0];
      RetextFlatNode(n, texts[..Size(n)], base);
      RetextFlat(nodes[1..], texts[Size(n)..], base + Size(n));
      RetextStep(nodes, texts, base);
    }
  }

  lemma RetextStep(nodes: seq<Node>, texts: seq<string>, base: nat)
    requires nodes != [] && |texts| == Sizes(nodes)
    requires var n := nodes[0];
             && |FlatNode(n, base)| == Size(n)
             && FlatNode(RetextNode(n, texts[..Size(n)]), base) == WithTexts(FlatNode(n, base), texts[..Size(n)])
             && |Flat(nodes[1..], base + Size(n))| == Sizes(nodes[1..])
             && Flat(Retext(nodes[1..], texts[Size(n)..]), base + Size(n))
                == WithTexts(Flat(nodes[1..], base + Size(n)), texts[Size(n)..])
    ensures |Flat(nodes, base)| == Sizes(nodes)
    ensures Flat(Retext(nodes, texts), base) == WithTexts(Flat(nodes, base), texts)
  {
    hide FlatNode, RetextNode, Size;
    var n := nodes[0];
    var m := Size(n);
    var r := Retext(nodes, texts);
    assert r[0] == RetextNode(n, texts[..m]) && r[1..] == Retext(nodes[1..], texts[m..]);
    WithTextsSplit(FlatNode(n, base), Flat(nodes[1..], base + m), texts);
  }

  lemma WithTextsSplit(a: seq<Instr>, b: seq<Instr>, texts: seq<string>)
    requires |texts| == |a| + |b|
    ensures WithTexts(a + b, texts) == WithTexts(a, texts[..|a|]) + WithTexts(b, texts[|a|..])
  {
  }

  lemma {:induction false} RetextFlatNode(n: Node, texts: seq<string>, base: nat)
    requires |texts| == Size(n)
    ensures |FlatNode(n, base)| == Size(n)
    ensures FlatNode(RetextNode(n, texts), base) == WithTexts(FlatNode(n, base), texts)
    decreases n, 0
  {
    FlatNodeLength(n, base);
    if n.Section? {
      var inner := texts[1..|texts| - 1];
      RetextFlat(n.children, inner, base + 1);
      RetextSection(n, texts, base);
    }
  }

  lemma RetextSection(n: Node, texts: seq<string>, base: nat)
    requires n.Section? && |texts| == Size(n)
    requires var inner := texts[1..|texts| - 1];
             && |Flat(n.children, base + 1)| == Sizes(n.children)
             && Flat(Retext(n.children, inner), base + 1) == WithTexts(Flat(n.children, base + 1), inner)
    ensures |FlatNode(n, base)| == Size(n)
    ensures FlatNode(RetextNode(n, texts), base) == WithTexts(FlatNode(n, base), texts)
  {
    hide Flat, Retext, Sizes;
    var inner := texts[1..|texts| - 1];
    var close := base + 1 + Sizes(n.children);
    var a := [Instr(n.text, if n.inverted then ElseBlock else OpenBlock, n.name, close)];
    var b, c := Flat(n.children, base + 1), [Instr(n.last, CloseBlock, n.name, base)];
    WithTextsSplit(a, b + c, texts);
    WithTextsSplit(b, c, texts[1..]);
    assert texts[1..][..|b|] == inner;
    assert WithTexts(a, texts[..1]) == [a[0].(text := texts[0])];
    assert WithTexts(c, texts[1..][|b|..]) == [c[0].(text := texts[|texts| - 1])];
  }

  lemma {:induction false} RetextPlain(nodes: seq<Node>, texts: seq<string>)
    requires |texts| == Sizes(nodes) && AllPlain(nodes)
    ensures AllPlain(Retext(nodes, texts))
    decreases nodes
  {
    if nodes != [] {
      var n := nodes[0];
      var t := texts[..Size(n)];
      if n.Section? { RetextPlain(n.children, t[1..|t| - 1]); }
      RetextPlain(nodes[1..], texts[Size(n)..]);
      var r := Retext(nodes, texts);
      assert r[0] == RetextNode(n, t) && r[1..] == Retext(nodes[1..], texts[Size(n)..]);
    }
  }

  function TextsOf(body: string, fragments: seq<Fragment>): (texts: seq<string>)
    requires forall i :: 0 <= i < |fragments| ==> fragments[i].first <= fragments[i].second <= |body|
    ensures |texts| == |fragments|
  {
    seq(|fragments|, i requires 0 <= i < |fragments| => body[fragments[i].first..fragments[i].second])
  }

  lemma OtherTexts(body: string, fragments: seq<Fragment>, trimmed: seq<Fragment>, actions: seq<Action>)
    requires InBody(body, fragments, actions) && InBody(body, trimmed, actions)
    ensures CodeOf(body, trimmed, actions) == WithTexts(CodeOf(body, fragments, actions), TextsOf(body, trimmed))
  {
    hide Sub;
  }

  // ---------------------------------------------------------------------------------------------
  // Both passes

  /** Where fragments begin and end. */
  lemma {:induction false} FragmentsEnded(body: string, tokens: seq<Token>, at: nat)
    requires at <= |body| && Scanned(body, tokens, at) && TokensInBody(body, tokens)
    ensures forall i :: 0 <= i < |tokens| ==> Ended(body, tokens[i].fragment)
    ensures tokens == [] ==> at == 0
    ensures tokens != [] ==> tokens[0].fragment.first == 0
    decreases |tokens|
  {
    hide NextTag;
    if tokens != [] {
      var n := |tokens| - 1;
      var from := if n == 0 then 0 else tokens[n - 1].next;
      assert NextTag(body, from) == Tagged(tokens[n]);
      NextStarts(body, from);
      FragmentsEnded(body, tokens[..n], from);
      forall i | 0 <= i < n ensures Ended(body, tokens[i].fragment) { assert tokens[..n][i] == tokens[i]; }
      if n > 0 { assert tokens[..n][0] == tokens[0]; }
    }
  }

  lemma NextStarts(body: string, current: nat)
    requires current <= |body| && NextTag(body, current).Tagged?
    ensures NextTag(body, current).token.fragment.first == current
    ensures Ended(body, NextTag(body, current).token.fragment)
  {
  }

  /** The texts between the tags, as places in the template. */
  function FragmentsIn(body: string): (fragments: seq<Fragment>)
    ensures AllInText(body, fragments) && fragments[0].first == 0 && |fragments| == |ReadTags(body).tokens| + 1
  {
    var q := ReadTags(body);
    ReadWell(body);
    AllEnded(body, q.tokens, q.at);
    FragmentsOf(q.tokens) + [Fragment(q.at, |body|)]
  }

  function KindsIn(body: string): (kinds: seq<ActionType>)
    ensures |kinds| == |ReadTags(body).tokens| + 1
  {
    KindsOf(ReadTags(body).tokens) + [Ignore]
  }

  /** What is left of these texts once standalone lines are removed. */
  function TrimmedIn(body: string): (trimmed: seq<Fragment>)
    ensures AllInText(body, trimmed) && |trimmed| == |ReadTags(body).tokens| + 1
  {
    TrimFrom(body, FragmentsIn(body), KindsIn(body), 0)
  }

  function TextsIn(body: string): (texts: seq<string>)
    ensures |texts| == |ReadTags(body).tokens| + 1
  {
    TextsOf(body, TrimmedIn(body))
  }

  /** Nothing but spaces and line ends is cut from a template's texts, and nothing around a variable. */
  lemma OnlyLinesCut(body: string)
    ensures var f, g := FragmentsIn(body), TrimmedIn(body);
            && (forall j :: 0 <= j < |f| ==> Trimmed(body, f[j], g[j]))
            && forall j :: 0 <= j < |f| - 1 && PutsOut(KindsIn(body)[j]) ==>
                 g[j].second == f[j].second && g[j + 1].first == f[j + 1].first
  {
    hide TrimFrom, Trimmed, FragmentsIn, KindsIn;
    TrimKeeps(body, FragmentsIn(body), KindsIn(body), 0);
  }

  /** `template_t(body)`. */
  method Compile(body: string) returns (r: Result)
    ensures var q := ReadTags(body);
            && (r.Parsed? <==> NextTag(body, q.at).Last?)
            && (r.Parsed? ==> |r.open| == |q.p.frames| && InBody(body, r.fragments, r.actions) && r.fragments == TrimmedIn(body))
    ensures r.Failed? ==>
              var q := ReadTags(body);
              var n := NextTag(body, q.at);
              n == Bad(r.error) || (n.Tagged? && Grow(q.p, TagOf(body, n.token)).None?)
    ensures r.Parsed? && r.open == [] ==>
              var nodes, texts, n := ReadTags(body).p.nodes, TextsIn(body), |ReadTags(body).tokens|;
              && Sizes(nodes) == n
              && CodeOf(body, r.fragments, r.actions) == Flat(Retext(nodes, texts[..n]), 0) + [Instr(texts[n], Ignore, "", 0)]
  {
    hide NextTag, ReadTags, CodeOf, OpenCode, Flat, Retext, Grow, Sub, TrimFrom, KindsOf, Kinds, FragmentsOf, Ended;
    r := ScanTags(body);
    if r.Failed? { return; }
    var fragments, actions := r.fragments, r.actions;
    assert fragments == FragmentsIn(body) && Kinds(actions) == KindsIn(body);
    var trimmed := RemoveStandalones(body, fragments, actions);
    assert trimmed == TrimmedIn(body);
    TrimmedInBody(body, fragments, trimmed, actions);
    ghost var q := ReadTags(body);
    if q.p.frames == [] { Shape(body, fragments, trimmed, actions, q.p.nodes, |q.tokens|, q.at); }
    r := Parsed(trimmed, actions, r.open);
  }

  lemma AllEnded(body: string, tokens: seq<Token>, at: nat)
    requires at <= |body| && Scanned(body, tokens, at) && TokensInBody(body, tokens)
    ensures var fragments := FragmentsOf(tokens) + [Fragment(at, |body|)];
            fragments[0].first == 0 && AllInText(body, fragments)
  {
    hide Scanned, TokensInBody;
    FragmentsEnded(body, tokens, at);
  }

  lemma TrimmedInBody(body: string, fragments: seq<Fragment>, trimmed: seq<Fragment>, actions: seq<Action>)
    requires InBody(body, fragments, actions) && |trimmed| == |fragments| && AllInText(body, trimmed)
    ensures InBody(body, trimmed, actions)
  {
  }

  lemma Shape(body: string, fragments: seq<Fragment>, trimmed: seq<Fragment>, actions: seq<Action>,
              nodes: seq<Node>, n: nat, at: nat)
    requires InBody(body, fragments, actions) && InBody(body, trimmed, actions) && |actions| == n + 1 && at <= |body|
    requires CodeOf(body, fragments, actions) == OpenCode([], nodes) + [Instr(body[at..], Ignore, "", 0)]
    ensures Sizes(nodes) == n
    ensures var texts := TextsOf(body, trimmed);
            CodeOf(body, trimmed, actions) == Flat(Retext(nodes, texts[..n]), 0) + [Instr(texts[n], Ignore, "", 0)]
  {
    hide CodeOf, Flat, OpenCode, Retext, Sub;
    NoFrames(nodes);
    FlatLength(nodes, 0);
    OtherTexts(body, fragments, trimmed, actions);
    var texts := TextsOf(body, trimmed);
    RetextFlat(nodes, texts[..n], 0);
    var last := [Instr(body[at..], Ignore, "", 0)];
    WithTextsSplit(Flat(nodes, 0), last, texts);
    assert WithTexts(last, texts[n..]) == [Instr(texts[n], Ignore, "", 0)];
  }
}
