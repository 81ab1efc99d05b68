/** `template_t::parse`: from the text of a template to its flat program. */
module MustacheParse {
  import opened Wrappers
  import opened MustacheTree
  import opened MustacheRender

  /** The exceptions of the parser.  `Unsupported` marks partials and delimiter changes, which are not part of
      this model; `Unbalanced` a closing tag with nothing open, for which the source has no check. */
  datatype Error = EmptyTag | NotMatchedTag | NotMatchedTriple | NotMatchedPair | Unsupported | Unbalanced

  // ---------------------------------------------------------------------------------------------
  // Tags

  /** `body.find(cc, from)` for a two-character pattern `cc`. */
  function Find(body: string, c: char, from: nat): (r: Option<nat>)
    requires from <= |body|
    ensures r.Some? ==> from <= r.value && r.value + 2 <= |body| && body[r.value] == body[r.value + 1] == c
    ensures r.Some? ==> forall i :: from <= i < r.value ==> !(body[i] == c && body[i + 1] == c)
    ensures r.None? ==> forall i :: from <= i && i + 1 < |body| ==> !(body[i] == c && body[i + 1] == c)
    decreases |body| - from
  {
    if from + 2 > |body| then None
    else if body[from] == c && body[from + 1] == c then Some(from)
    else Find(body, c, from + 1)
  }

  function SkipSpaces(body: string, i: nat): (j: nat)
    requires i <= |body|
    ensures i <= j <= |body| && (forall k :: i <= k < j ==> body[k] == ' ') && (j < |body| ==> body[j] != ' ')
    decreases |body| - i
  {
    if i < |body| && body[i] == ' ' then SkipSpaces(body, i + 1) else i
  }

  function TrimSpaces(body: string, i: nat): (j: nat)
    requires i <= |body|
    ensures j <= i && (forall k :: j <= k < i ==> body[k] == ' ') && (j > 0 ==> body[j - 1] != ' ')
  {
    if i > 0 && body[i - 1] == ' ' then TrimSpaces(body, i - 1) else i
  }

  /** A tag with the fragment before it; `next` is where the text goes on. */
  datatype Token = Token(fragment: Fragment, t: ActionType, start: nat, end: nat, next: nat)

  datatype Next = Last(fragment: Fragment) | Tagged(token: Token) | Bad(error: Error)

  function Named(fragment: Fragment, t: ActionType, body: string, i: nat, end: nat, next: nat): Next
    requires i <= |body| && end <= |body|
  {
    Tagged(Token(fragment, t, SkipSpaces(body, i), TrimSpaces(body, end), next))
  }

  /** The next tag of the text from `current` on. */
  function NextTag(body: string, current: nat): (n: Next)
    requires current <= |body|
    ensures n.Tagged? ==> current < n.token.next <= |body| && n.token.fragment.first == current
                          && current <= n.token.fragment.second < |body| && n.token.start <= |body|
                          && body[n.token.fragment.second] == '{'
    ensures n.Last? ==> n.fragment == Fragment(current, |body|)
  {
    match Find(body, '{', current)
    case None => Last(Fragment(current, |body|))
    case Some(idx) =>
      var fragment := Fragment(current, idx);
      match Find(body, '}', idx + 2)
      case None => Bad(NotMatchedTag)
      case Some(end) =>
        if end == idx + 2 then Bad(EmptyTag)
        else match body[idx + 2]
          case '#' => Named(fragment, OpenBlock, body, idx + 3, end, end + 2)
          case '/' => Named(fragment, CloseBlock, body, idx + 3, end, end + 2)
          case '^' => Named(fragment, ElseBlock, body, idx + 3, end, end + 2)
          case '&' => Named(fragment, UnescapeTag, body, idx + 3, end, end + 2)
          case '!' => Tagged(Token(fragment, Ignore, idx + 3, end, end + 2))
          case '{' =>
            if end + 2 < |body| && body[end + 2] == '}' then Named(fragment, UnescapeTag, body, idx + 3, end, end + 3)
            else Bad(NotMatchedTriple)
          case '>' => Bad(Unsupported)
          case '=' => Bad(Unsupported)
          case _ => Named(fragment, Tag, body, idx + 2, end, end + 2)
  }

  /** All tags of the text up to `current`, given those found so far, and whether the text ends there. */
  ghost predicate Scanned(body: string, tokens: seq<Token>, current: nat)
    requires current <= |body|
  {
    if tokens == [] then current == 0
    else
      var n := |tokens| - 1;
      var from := if n == 0 then 0 else tokens[n - 1].next;
      from <= |body| && Scanned(body, tokens[..n], from) && NextTag(body, from) == Tagged(tokens[n])
      && current == tokens[n].next
  }

  // ---------------------------------------------------------------------------------------------
  // Sections under construction

  /** A section whose closing tag has not been read: what came before it, and its opening tag. */
  datatype Frame = Frame(before: seq<Node>, text: string, name: string, inverted: bool)

  function OpenInstr(f: Frame, pos: nat): Instr {
    Instr(f.text, if f.inverted then ElseBlock else OpenBlock, f.name, pos)
  }

  /** The program so far, with `nodes` read since the last open section began; open sections still have the
      jump target 0. */
  function OpenCode(frames: seq<Frame>, nodes: seq<Node>): seq<Instr>
    decreases |frames|
  {
    if frames == [] then Flat(nodes, 0)
    else
      var f := frames[|frames| - 1];
      var outside := OpenCode(frames[..|frames| - 1], f.before);
      outside + [OpenInstr(f, 0)] + Flat(nodes, |outside| + 1)
  }

  /** A template read so far: the open sections, outermost first, and what was read inside the innermost. */
  datatype Partial = Partial(frames: seq<Frame>, nodes: seq<Node>)

  /** What one more tag does to it; a closing tag must carry the name of the innermost open section. */
  function Grow(p: Partial, i: Instr): Option<Partial> {
    if i.t.OpenBlock? || i.t.ElseBlock? then
      Some(Partial(p.frames + [Frame(p.nodes, i.text, i.name, i.t.ElseBlock?)], []))
    else if i.t.CloseBlock? then
      if p.frames == [] then None
      else
        var n := |p.frames| - 1;
        var f := p.frames[n];
        if f.name != i.name then None
        else Some(Partial(p.frames[..n], f.before + [Section(f.text, f.name, f.inverted, p.nodes, i.text)]))
    else Some(p.(nodes := p.nodes + [if i.t.Ignore? then Comment(i.text, i.name)
                                     else Variable(i.text, i.name, i.t.Tag?)]))
  }

  function Grown(p: Partial, code: seq<Instr>): Option<Partial> {
    if code == [] then Some(p)
    else match Grown(p, code[..|code| - 1])
      case None => None
      case Some(q) => Grow(q, code[|code| - 1])
  }

  /** What a list of tags stands for: the reading of section tags as brackets. */
  function Tree(code: seq<Instr>): Option<Partial> {
    Grown(Partial([], []), code)
  }

  /** The entries of `blockPositions`. */
  predicate Positions(frames: seq<Frame>, positions: seq<nat>) {
    |positions| == |frames|
    && forall i :: 0 <= i < |frames| ==> positions[i] == |OpenCode(frames[..i], frames[i].before)|
  }

  lemma NodeAppended(frames: seq<Frame>, nodes: seq<Node>, n: Node)
    ensures OpenCode(frames, nodes + [n]) == OpenCode(frames, nodes) + FlatNode(n, |OpenCode(frames, nodes)|)
  {
    hide Flat, FlatNode, OpenCode;
    if frames == [] {
      NoFrames(nodes);
      NoFrames(nodes + [n]);
      FlatMore(nodes, n, 0);
    } else {
      AppendedInside(frames, nodes, n);
    }
  }

  lemma AppendedInside(frames: seq<Frame>, nodes: seq<Node>, n: Node)
    requires frames != []
    ensures OpenCode(frames, nodes + [n]) == OpenCode(frames, nodes) + FlatNode(n, |OpenCode(frames, nodes)|)
  {
    hide Flat, FlatNode, OpenCode, OpenInstr;
    var f := frames[|frames| - 1];
    var outside := OpenCode(frames[..|frames| - 1], f.before);
    var base := |outside| + 1;
    CodeInside(frames, nodes);
    CodeInside(frames, nodes + [n]);
    FlatMore(nodes, n, base);
    Associative(outside + [OpenInstr(f, 0)], Flat(nodes, base), FlatNode(n, base + |Flat(nodes, base)|));
  }

  lemma Associative(a: seq<Instr>, b: seq<Instr>, c: seq<Instr>)
    ensures a + (b + c) == a + b + c
  {
  }

  lemma NoFrames(nodes: seq<Node>)
    ensures OpenCode([], nodes) == Flat(nodes, 0)
  {
  }

  lemma FlatMore(nodes: seq<Node>, n: Node, base: nat)
    ensures Flat(nodes + [n], base) == Flat(nodes, base) + FlatNode(n, base + |Flat(nodes, base)|)
  {
    hide Flat, FlatNode;
    FlatAppend(nodes, [n], base);
    FlatLength(nodes, base);
    FlatOne(n, base + Sizes(nodes));
  }

  lemma FlatOne(n: Node, base: nat)
    ensures Flat([n], base) == FlatNode(n, base)
  {
    hide FlatNode;
    assert FlatNode(n, base) + [] == FlatNode(n, base);
  }

  /** An opening tag begins a new frame. */
  lemma SectionOpened(frames: seq<Frame>, nodes: seq<Node>, f: Frame)
    requires f.before == nodes
    ensures OpenCode(frames + [f], []) == OpenCode(frames, nodes) + [OpenInstr(f, 0)]
  {
    assert (frames + [f])[..|frames|] == frames;
    var c := OpenCode(frames, nodes) + [OpenInstr(f, 0)];
    assert c + Flat([], |OpenCode(frames, nodes)| + 1) == c;
  }

  /** A closing tag turns the innermost frame into a section: the patched opening step and the closing step
      make the program that of the section. */
  lemma SectionClosed(frames: seq<Frame>, nodes: seq<Node>, last: string)
    requires frames != []
    ensures var n := |frames| - 1;
            var f := frames[n];
            var code := OpenCode(frames, nodes);
            var open := |OpenCode(frames[..n], f.before)|;
            && open < |code| && code[open] == OpenInstr(f, 0)
            && OpenCode(frames[..n], f.before + [Section(f.text, f.name, f.inverted, nodes, last)])
               == code[open := OpenInstr(f, |code|)] + [Instr(last, CloseBlock, f.name, open)]
  {
    hide Flat, OpenCode;
    var n := |frames| - 1;
    var f := frames[n];
    var a := OpenCode(frames[..n], f.before);
    CodeInside(frames, nodes);
    var b := Flat(nodes, |a| + 1);
    FlatLength(nodes, |a| + 1);
    NodeAppended(frames[..n], f.before, Section(f.text, f.name, f.inverted, nodes, last));
    var code, close := a + [OpenInstr(f, 0)] + b, [Instr(last, CloseBlock, f.name, |a|)];
    assert code[|a| := OpenInstr(f, |code|)] == a + [OpenInstr(f, |code|)] + b;
    assert a + ([OpenInstr(f, |code|)] + (b + close)) == a + [OpenInstr(f, |code|)] + b + close;
  }

  lemma CodeInside(frames: seq<Frame>, nodes: seq<Node>)
    requires frames != []
    ensures var f := frames[|frames| - 1];
            var a := OpenCode(frames[..|frames| - 1], f.before);
            OpenCode(frames, nodes) == a + [OpenInstr(f, 0)] + Flat(nodes, |a| + 1)
  {
  }

  // ---------------------------------------------------------------------------------------------
  // The parser

  predicate SameName(body: string, a: Action, start: nat, end: nat)
    requires a.start <= |body| && start <= |body|
  {
    Sub(body, start, end) == Sub(body, a.start, a.end)
  }

  datatype Result = Parsed(fragments: seq<Fragment>, actions: seq<Action>, open: seq<nat>) | Failed(error: Error)

  function Unpatched(t: Token): Action {
    Action(t.t, t.start, t.end, 0)
  }

  /** The tag as a step without a jump target. */
  function TagOf(body: string, t: Token): Instr
    requires t.fragment.first <= t.fragment.second <= |body| && t.start <= |body|
  {
    InstrAt(body, t.fragment, Unpatched(t))
  }

  predicate TokenInBody(body: string, t: Token) {
    t.fragment.first <= t.fragment.second < |body| && body[t.fragment.second] == '{' && t.start <= |body|
  }

  predicate TokensInBody(body: string, tokens: seq<Token>) {
    forall i :: 0 <= i < |tokens| ==> TokenInBody(body, tokens[i])
  }

  function TagsOf(body: string, tokens: seq<Token>): (tags: seq<Instr>)
    requires TokensInBody(body, tokens)
    ensures |tags| == |tokens|
  {
    seq(|tokens|, i requires 0 <= i < |tokens| => TagOf(body, tokens[i]))
  }

  /** Tags that were read, where the text goes on, and the template so far. */
  datatype Reading = Reading(tokens: seq<Token>, at: nat, p: Partial)

  const UNREAD := Reading([], 0, Partial([], []))

  /** Reading on, tag by tag, up to the first that is bad or does not fit, or else to the last. */
  function ReadOn(body: string, r: Reading): (q: Reading)
    requires r.at <= |body|
    ensures r.at <= q.at <= |body|
    decreases |body| - r.at
  {
    match NextTag(body, r.at)
    case Last(_) => r
    case Bad(_) => r
    case Tagged(t) =>
      match Grow(r.p, TagOf(body, t))
      case None => r
      case Some(p) => ReadOn(body, Reading(r.tokens + [t], t.next, p))
  }

  /** What can be read of a template. */
  function ReadTags(body: string): (q: Reading)
    ensures q.at <= |body|
  {
    ReadOn(body, UNREAD)
  }

  /** Where reading stops. */
  lemma {:induction false} ReadStops(body: string, r: Reading)
    requires r.at <= |body|
    ensures var q := ReadOn(body, r);
            var n := NextTag(body, q.at);
            n.Tagged? ==> Grow(q.p, TagOf(body, n.token)).None?
    decreases |body| - r.at
  {
    hide Grow, TagOf;
    match NextTag(body, r.at) {
      case Last(_) =>
      case Bad(_) =>
      case Tagged(t) =>
        match Grow(r.p, TagOf(body, t)) {
          case None =>
          case Some(p) => ReadStops(body, Reading(r.tokens + [t], t.next, p));
        }
    }
  }

  /** The section tree of a template.  There is none if a tag is bad, if a closing tag does not fit, or if a
      section is left open. */
  function TreeOf(body: string): Option<seq<Node>> {
    var q := ReadTags(body);
    if NextTag(body, q.at).Last? && q.p.frames == [] then Some(q.p.nodes) else None
  }

  /** Tags in the order of the text, and the template they stand for. */
  ghost predicate WellRead(body: string, r: Reading) {
    && r.at <= |body| && Scanned(body, r.tokens, r.at) && TokensInBody(body, r.tokens)
    && Tree(TagsOf(body, r.tokens)) == Some(r.p)
  }

  lemma {:induction false} ReadOnWell(body: string, r: Reading)
    requires WellRead(body, r)
    ensures WellRead(body, ReadOn(body, r))
    decreases |body| - r.at
  {
    hide NextTag, Grow, WellRead;
    assert r.at <= |body| by { EndsInText(body, r); }
    match NextTag(body, r.at) {
      case Last(_) =>
      case Bad(_) =>
      case Tagged(t) =>
        match Grow(r.p, TagOf(body, t)) {
          case None =>
          case Some(p) =>
            OneTagMore(body, r, t, p);
            ReadOnWell(body, Reading(r.tokens + [t], t.next, p));
        }
    }
  }

  lemma EndsInText(body: string, r: Reading)
    requires WellRead(body, r)
    ensures r.at <= |body|
  {
  }

  lemma OneTagMore(body: string, r: Reading, t: Token, p: Partial)
    requires r.at <= |body| && WellRead(body, r) && NextTag(body, r.at) == Tagged(t)
    requires Grow(r.p, TagOf(body, t)) == Some(p)
    ensures WellRead(body, Reading(r.tokens + [t], t.next, p))
  {
    hide NextTag, Grow, Tree, TagsOf;
    TokenMore(body, r.tokens, t);
    TokenRead(body, r.tokens, r.at, t);
  }

  /** What is read of a template is well read. */
  lemma ReadWell(body: string)
    ensures WellRead(body, ReadTags(body))
  {
    hide ReadOn;
    NothingRead(body);
    ReadOnWell(body, UNREAD);
  }

  lemma NothingRead(body: string)
    ensures WellRead(body, UNREAD)
  {
  }

  /** The state of the parser when it has read `tokens`, which stand for `p`. */
  ghost predicate Holds(body: string, fragments: seq<Fragment>, actions: seq<Action>, positions: seq<nat>,
                        tokens: seq<Token>, p: Partial)
  {
    && InBody(body, fragments, actions) && Positions(p.frames, positions)
    && CodeOf(body, fragments, actions) == OpenCode(p.frames, p.nodes)
    && fragments == FragmentsOf(tokens) && Kinds(actions) == KindsOf(tokens)
  }

  function Kinds(actions: seq<Action>): (kinds: seq<ActionType>)
    ensures |kinds| == |actions|
  {
    seq(|actions|, i requires 0 <= i < |actions| => actions[i].t)
  }

  function KindsOf(tokens: seq<Token>): (kinds: seq<ActionType>)
    ensures |kinds| == |tokens|
  {
    seq(|tokens|, i requires 0 <= i < |tokens| => tokens[i].t)
  }

  lemma KindMore(actions: seq<Action>, tokens: seq<Token>, a: Action, t: Token)
    requires Kinds(actions) == KindsOf(tokens) && a.t == t.t
    ensures Kinds(actions + [a]) == KindsOf(tokens + [t])
  {
    assert Kinds(actions + [a]) == Kinds(actions) + [a.t];
    assert KindsOf(tokens + [t]) == KindsOf(tokens) + [t.t];
  }

  lemma KindKept(actions: seq<Action>, k: nat, pos: nat)
    requires k < |actions|
    ensures Kinds(actions[k := actions[k].(pos := pos)]) == Kinds(actions)
  {
  }

  function FragmentsOf(tokens: seq<Token>): (fragments: seq<Fragment>)
    ensures |fragments| == |tokens|
  {
    seq(|tokens|, i requires 0 <= i < |tokens| => tokens[i].fragment)
  }

  lemma CodeMore(body: string, fragments: seq<Fragment>, actions: seq<Action>, f: Fragment, a: Action)
    requires InBody(body, fragments, actions) && f.first <= f.second <= |body| && a.start <= |body|
    ensures InBody(body, fragments + [f], actions + [a])
    ensures CodeOf(body, fragments + [f], actions + [a]) == CodeOf(body, fragments, actions) + [InstrAt(body, f, a)]
  {
    hide Sub;
  }

  lemma TokenMore(body: string, tokens: seq<Token>, t: Token)
    requires TokensInBody(body, tokens) && TokenInBody(body, t)
    ensures TokensInBody(body, tokens + [t])
    ensures TagsOf(body, tokens + [t]) == TagsOf(body, tokens) + [TagOf(body, t)]
    ensures Tree(TagsOf(body, tokens + [t]))
         == (var p := Tree(TagsOf(body, tokens)); if p.None? then None else Grow(p.value, TagOf(body, t)))
  {
    hide Grow, TagOf;
    var tags := TagsOf(body, tokens) + [TagOf(body, t)];
    assert tags[..|tags| - 1] == TagsOf(body, tokens);
  }

  /** A variable or a comment. */
  lemma AfterSimple(body: string, fragments: seq<Fragment>, actions: seq<Action>, p: Partial, t: Token)
    requires InBody(body, fragments, actions) && CodeOf(body, fragments, actions) == OpenCode(p.frames, p.nodes)
    requires t.fragment.first <= t.fragment.second <= |body| && t.start <= |body|
    requires t.t.Tag? || t.t.UnescapeTag? || t.t.Ignore?
    ensures InBody(body, fragments + [t.fragment], actions + [Unpatched(t)])
    ensures Grow(p, TagOf(body, t)).Some?
    ensures var p1 := Grow(p, TagOf(body, t)).value;
            p1.frames == p.frames
            && CodeOf(body, fragments + [t.fragment], actions + [Unpatched(t)]) == OpenCode(p1.frames, p1.nodes)
  {
    hide CodeOf, OpenCode, Sub;
    var i := TagOf(body, t);
    CodeMore(body, fragments, actions, t.fragment, Unpatched(t));
    NodeAppended(p.frames, p.nodes, if t.t.Ignore? then Comment(i.text, i.name) else Variable(i.text, i.name, t.t.Tag?));
  }

  lemma AfterOpen(body: string, fragments: seq<Fragment>, actions: seq<Action>, positions: seq<nat>,
                  p: Partial, t: Token)
    requires InBody(body, fragments, actions) && CodeOf(body, fragments, actions) == OpenCode(p.frames, p.nodes)
    requires t.fragment.first <= t.fragment.second <= |body| && t.start <= |body|
    requires (t.t.OpenBlock? || t.t.ElseBlock?) && Positions(p.frames, positions)
    ensures InBody(body, fragments + [t.fragment], actions + [Unpatched(t)])
    ensures Grow(p, TagOf(body, t)).Some?
    ensures var p1 := Grow(p, TagOf(body, t)).value;
            Positions(p1.frames, positions + [|actions|])
            && CodeOf(body, fragments + [t.fragment], actions + [Unpatched(t)]) == OpenCode(p1.frames, p1.nodes)
  {
    hide CodeOf, OpenCode, Sub, Positions;
    var i := TagOf(body, t);
    var f := Frame(p.nodes, i.text, i.name, t.t.ElseBlock?);
    CodeMore(body, fragments, actions, t.fragment, Unpatched(t));
    SectionOpened(p.frames, p.nodes, f);
    PositionPushed(p.frames, positions, f, |actions|);
  }

  lemma PositionPushed(frames: seq<Frame>, positions: seq<nat>, f: Frame, at: nat)
    requires Positions(frames, positions) && at == |OpenCode(frames, f.before)|
    ensures Positions(frames + [f], positions + [at])
  {
    hide OpenCode;
    var frames1, positions1 := frames + [f], positions + [at];
    forall k | 0 <= k < |frames1| ensures positions1[k] == |OpenCode(frames1[..k], frames1[k].before)| {
      assert frames1[..k] == frames[..k];
      if k == |frames| { assert frames[..k] == frames; }
    }
  }

  lemma PositionPopped(frames: seq<Frame>, positions: seq<nat>)
    requires Positions(frames, positions) && frames != []
    ensures |positions| == |frames|
    ensures var n := |frames| - 1;
            Positions(frames[..n], positions[..n]) && positions[n] == |OpenCode(frames[..n], frames[n].before)|
  {
    hide OpenCode;
    var n := |frames| - 1;
    forall k | 0 <= k < n ensures positions[k] == |OpenCode(frames[..n][..k], frames[k].before)| {
      assert frames[..n][..k] == frames[..k];
    }
  }

  /** A closing tag: its name is compared with the one the opening action delimits in the body; if they agree
      the opening action gets its jump target. */
  lemma AfterClose(body: string, fragments: seq<Fragment>, actions: seq<Action>, positions: seq<nat>,
                   p: Partial, t: Token)
    requires InBody(body, fragments, actions) && CodeOf(body, fragments, actions) == OpenCode(p.frames, p.nodes)
    requires t.fragment.first <= t.fragment.second <= |body| && t.start <= |body| && t.t.CloseBlock?
    requires Positions(p.frames, positions) && positions != []
    ensures var n := |positions| - 1;
            var at := positions[n];
            var p1 := Grow(p, TagOf(body, t));
            && at < |actions|
            && p1.Some? == SameName(body, actions[at], t.start, t.end)
            && (p1.Some? ==>
                  var actions1 := actions[at := actions[at].(pos := |actions|)] + [Unpatched(t).(pos := at)];
                  && InBody(body, fragments + [t.fragment], actions1)
                  && Positions(p1.value.frames, positions[..n])
                  && CodeOf(body, fragments + [t.fragment], actions1) == OpenCode(p1.value.frames, p1.value.nodes))
  {
    hide CodeOf, OpenCode, Sub, Positions;
    SameLength(p.frames, positions);
    PositionPopped(p.frames, positions);
    var n := |positions| - 1;
    var at, f := positions[n], p.frames[n];
    var close := Unpatched(t).(pos := at);
    var text := InstrAt(body, t.fragment, close).text;
    SectionClosed(p.frames, p.nodes, text);
    Patched(body, fragments, actions, at, |actions|);
    if f.name == TagOf(body, t).name {
      CodeMore(body, fragments, actions[at := actions[at].(pos := |actions|)], t.fragment, close);
    }
  }

  lemma SameLength(frames: seq<Frame>, positions: seq<nat>)
    requires Positions(frames, positions)
    ensures |frames| == |positions|
  {
  }

  /** Patching a jump target in place. */
  lemma Patched(body: string, fragments: seq<Fragment>, actions: seq<Action>, p: nat, pos: nat)
    requires InBody(body, fragments, actions) && p < |actions|
    ensures var actions1 := actions[p := actions[p].(pos := pos)];
            && InBody(body, fragments, actions1)
            && CodeOf(body, fragments, actions1)
               == CodeOf(body, fragments, actions)[p := CodeOf(body, fragments, actions)[p].(pos := pos)]
            && CodeOf(body, fragments, actions)[p].name == Sub(body, actions[p].start, actions[p].end)
  {
    hide Sub;
  }

  /** The loop of `parse`.  It succeeds exactly when every tag of the text is well formed and no closing tag
      is out of place.  The steps are then the program of what the tags stand for: every opening step jumps
      forward to its own closing step and back, and they nest. */
  method ScanTags(body: string) returns (r: Result)
    ensures var q := ReadTags(body);
            && (r.Parsed? <==> NextTag(body, q.at).Last?)
            && (r.Parsed? ==>
                  && InBody(body, r.fragments, r.actions) && |r.open| == |q.p.frames|
                  && r.fragments == FragmentsOf(q.tokens) + [Fragment(q.at, |body|)]
                  && Kinds(r.actions) == KindsOf(q.tokens) + [Ignore]
                  && CodeOf(body, r.fragments, r.actions)
                     == OpenCode(q.p.frames, q.p.nodes) + [Instr(body[q.at..], Ignore, "", 0)])
    ensures r.Failed? ==>
              var q := ReadTags(body);
              var n := NextTag(body, q.at);
              || n == Bad(r.error)
              || (n.Tagged? && Grow(q.p, TagOf(body, n.token)).None?
                  && r.error == if q.p.frames == [] then Unbalanced else NotMatchedPair)
  {
    hide NextTag, CodeOf, OpenCode, Sub, Positions, FragmentsOf, Kinds, KindsOf, Grow;
    var fragments: seq<Fragment>, actions: seq<Action>, positions: seq<nat>, current := [], [], [], 0;
    ghost var tokens: seq<Token>, p := [], Partial([], []);
    NothingYet(body);
    while true
      invariant current <= |body| && ReadOn(body, Reading(tokens, current, p)) == ReadTags(body)
      invariant Holds(body, fragments, actions, positions, tokens, p) && |p.frames| == |positions|
      decreases |body| - current
    {
      match NextTag(body, current) {
        case Bad(e) =>
          r := Failed(e);
          return;
        case Last(f) =>
          LastFragment(body, fragments, actions, p, f);
          LastKind(actions);
          r := Parsed(fragments + [f], actions + [Action(Ignore, 0, 0, 0)], positions);
          return;
        case Tagged(t) =>
          if t.t.CloseBlock? {
            if positions == [] {
              NothingOpen(p, TagOf(body, t));
              r := Failed(Unbalanced);
              return;
            }
            var open := positions[|positions| - 1];
            AfterClose(body, fragments, actions, positions, p, t);
            if !SameName(body, actions[open], t.start, t.end) {
              r := Failed(NotMatchedPair);
              return;
            }
            KindKept(actions, open, |actions|);
            actions := actions[open := actions[open].(pos := |actions|)];
            KindMore(actions, tokens, Action(CloseBlock, t.start, t.end, open), t);
            actions := actions + [Action(CloseBlock, t.start, t.end, open)];
            positions := positions[..|positions| - 1];
          } else if t.t.OpenBlock? || t.t.ElseBlock? {
            AfterOpen(body, fragments, actions, positions, p, t);
            KindMore(actions, tokens, Action(t.t, t.start, t.end, 0), t);
            positions := positions + [|actions|];
            actions := actions + [Action(t.t, t.start, t.end, 0)];
          } else {
            AfterSimple(body, fragments, actions, p, t);
            KindMore(actions, tokens, Action(t.t, t.start, t.end, 0), t);
            actions := actions + [Action(t.t, t.start, t.end, 0)];
          }
          p := Grow(p, TagOf(body, t)).value;
          SameLength(p.frames, positions);
          FragmentMore(tokens, t);
          fragments := fragments + [t.fragment];
          tokens := tokens + [t];
          current := t.next;
      }
    }
  }

  lemma FragmentMore(tokens: seq<Token>, t: Token)
    ensures FragmentsOf(tokens + [t]) == FragmentsOf(tokens) + [t.fragment]
  {
  }

  lemma LastKind(actions: seq<Action>)
    ensures Kinds(actions + [Action(Ignore, 0, 0, 0)]) == Kinds(actions) + [Ignore]
  {
  }

  lemma NothingYet(body: string)
    ensures Holds(body, [], [], [], [], Partial([], []))
  {
  }

  lemma NothingOpen(p: Partial, i: Instr)
    requires p.frames == [] && i.t.CloseBlock?
    ensures Grow(p, i).None?
  {
  }

  lemma TokenRead(body: string, tokens: seq<Token>, current: nat, t: Token)
    requires current <= |body| && Scanned(body, tokens, current) && NextTag(body, current) == Tagged(t)
    ensures Scanned(body, tokens + [t], t.next)
  {
    hide NextTag;
    assert (tokens + [t])[..|tokens|] == tokens;
  }

  lemma LastFragment(body: string, fragments: seq<Fragment>, actions: seq<Action>, p: Partial, f: Fragment)
    requires InBody(body, fragments, actions) && CodeOf(body, fragments, actions) == OpenCode(p.frames, p.nodes)
    requires f.first <= f.second == |body|
    ensures InBody(body, fragments + [f], actions + [Action(Ignore, 0, 0, 0)])
    ensures CodeOf(body, fragments + [f], actions + [Action(Ignore, 0, 0, 0)])
         == OpenCode(p.frames, p.nodes) + [Instr(body[f.first..], Ignore, "", 0)]
    ensures (fragments + [f])[..|fragments|] == fragments
  {
    hide CodeOf, OpenCode;
    CodeMore(body, fragments, actions, f, Action(Ignore, 0, 0, 0));
    assert body[f.first..f.second] == body[f.first..];
  }
}
