/** Writing a tree as a template, and the way back. */
module MustachePrint {
  import opened Wrappers
  import opened MustacheTree
  import opened MustacheRender
  import opened MustacheParse
  import opened MustacheCompile

  function Sigil(t: ActionType): string {
    match t
    case Ignore => "!"
    case Tag => ""
    case UnescapeTag => "&"
    case OpenBlock => "#"
    case CloseBlock => "/"
    case ElseBlock => "^"
  }

  function PrintTag(i: Instr): string {
    i.text + "{{" + Sigil(i.t) + i.name + "}}"
  }

  function Print(code: seq<Instr>): string {
    if code == [] then "" else Print(code[..|code| - 1]) + PrintTag(code[|code| - 1])
  }

  /** The texts and names that can be written down as they are. */
  predicate Printable(i: Instr) {
    && '{' !in i.text && '}' !in i.name
    && (!i.t.Ignore? ==> i.name == "" || (i.name[0] != ' ' && i.name[|i.name| - 1] != ' '))
    && (i.t.Tag? ==> i.name != "" && i.name[0] !in "#/^&!{>=")
  }

  predicate AllPrintable(code: seq<Instr>) {
    forall i :: 0 <= i < |code| ==> Printable(code[i])
  }

  // ---------------------------------------------------------------------------------------------
  // Scanning what was printed

  lemma FindIs(body: string, c: char, from: nat, k: nat)
    requires from <= k && k + 2 <= |body| && body[k] == body[k + 1] == c
    requires forall i :: from <= i < k ==> body[i] != c
    ensures Find(body, c, from) == Some(k)
  {
  }

  lemma TagRead(pre: string, i: Instr, rest: string)
    requires Printable(i)
    ensures var body := pre + PrintTag(i) + rest;
            var n := NextTag(body, |pre|);
            && n.Tagged? && n.token.next == |pre + PrintTag(i)|
            && TokenInBody(body, n.token) && TagOf(body, n.token) == i.(pos := 0)
  {
    hide NextTag, PrintTag, Find, TagOf, Printable, TokenInBody, Sigil;
    var body := pre + PrintTag(i) + rest;
    var idx := |pre| + |i.text|;
    var name := idx + 2 + |Sigil(i.t)|;
    var end := name + |i.name|;
    Pieces(pre, i, rest);
    FindIs(body, '{', |pre|, idx);
    FindIs(body, '}', idx + 2, end);
    TagIs(body, |pre|, i, idx, name, end);
  }

  lemma Pieces(pre: string, i: Instr, rest: string)
    requires Printable(i)
    ensures var body := pre + PrintTag(i) + rest;
            var idx := |pre| + |i.text|;
            var name := idx + 2 + |Sigil(i.t)|;
            var end := name + |i.name|;
            && end + 2 == |pre + PrintTag(i)| <= |body|
            && body[|pre|..idx] == i.text && body[idx] == body[idx + 1] == '{' && body[idx + 2..name] == Sigil(i.t)
            && body[name..end] == i.name && body[end] == body[end + 1] == '}'
            && (forall k :: |pre| <= k < idx ==> body[k] != '{') && (forall k :: idx + 2 <= k < end ==> body[k] != '}')
  {
    var body := pre + PrintTag(i) + rest;
    var idx := |pre| + |i.text|;
    var name := idx + 2 + |Sigil(i.t)|;
    var end := name + |i.name|;
    forall k | |pre| <= k < idx ensures body[k] != '{' { assert body[k] == i.text[k - |pre|]; }
    forall k | idx + 2 <= k < end ensures body[k] != '}' {
      assert body[k] == (Sigil(i.t) + i.name)[k - idx - 2];
    }
  }

  lemma TagIs(body: string, current: nat, i: Instr, idx: nat, name: nat, end: nat)
    requires Printable(i) && current <= idx && name == idx + 2 + |Sigil(i.t)| && end == name + |i.name| && end + 2 <= |body|
    requires body[current..idx] == i.text && body[idx] == '{'
    requires body[idx + 2..name] == Sigil(i.t) && body[name..end] == i.name && body[end] == '}'
    requires Find(body, '{', current) == Some(idx) && Find(body, '}', idx + 2) == Some(end)
    ensures var n := NextTag(body, current);
            && n.Tagged? && n.token.next == end + 2
            && TokenInBody(body, n.token) && TagOf(body, n.token) == i.(pos := 0)
  {
    hide Find, NextTag, SkipSpaces, TrimSpaces, Printable, Sigil;
    SigilAt(body, i, idx, name, end);
    TokenIs(body, current, i, idx, name, end);
    if !i.t.Ignore? { Tight(body, i, name, end); }
  }

  /** The character after the braces tells the kind of the tag. */
  lemma SigilAt(body: string, i: Instr, idx: nat, name: nat, end: nat)
    requires Printable(i) && name == idx + 2 + |Sigil(i.t)| && end == name + |i.name| && end < |body|
    requires body[idx + 2..name] == Sigil(i.t) && body[name..end] == i.name
    ensures idx + 2 < end
    ensures i.t.Tag? ==> body[idx + 2] !in "#/^&!{>=" && name == idx + 2
    ensures !i.t.Tag? ==> body[idx + 2] == Sigil(i.t)[0] && name == idx + 3 && |Sigil(i.t)| == 1
    ensures i.name == "" ==> body[name - 1] != ' '
  {
    if i.t.Tag? { assert body[name] == i.name[0]; } else { assert body[idx + 2] == Sigil(i.t)[0]; }
  }

  lemma TokenIs(body: string, current: nat, i: Instr, idx: nat, name: nat, end: nat)
    requires current <= idx && idx + 2 < end < |body|
    requires i.t.Tag? ==> body[idx + 2] !in "#/^&!{>=" && name == idx + 2
    requires !i.t.Tag? ==> |Sigil(i.t)| == 1 && body[idx + 2] == Sigil(i.t)[0] && name == idx + 3
    requires Find(body, '{', current) == Some(idx) && Find(body, '}', idx + 2) == Some(end)
    ensures NextTag(body, current)
         == (if i.t.Ignore? then Tagged(Token(Fragment(current, idx), Ignore, name, end, end + 2))
             else Named(Fragment(current, idx), i.t, body, name, end, end + 2))
  {
    hide Find, Named;
  }

  /** A name without spaces at its ends is taken as it is. */
  lemma Tight(body: string, i: Instr, name: nat, end: nat)
    requires Printable(i) && !i.t.Ignore? && 0 < name <= end < |body| && body[name..end] == i.name && body[end] == '}'
    requires i.name == "" ==> body[name - 1] != ' '
    ensures SkipSpaces(body, name) == name && TrimSpaces(body, end) == end
  {
    if i.name != "" {
      assert body[name] == i.name[0] && body[end - 1] == i.name[|i.name| - 1];
    }
  }

  // ---------------------------------------------------------------------------------------------
  // Other ways to write a tag

  function Blanks(n: nat): (s: string)
    ensures |s| == n && forall k :: 0 <= k < n ==> s[k] == ' '
  {
    if n == 0 then "" else " " + Blanks(n - 1)
  }

  function Joined(parts: seq<string>): string {
    if parts == [] then "" else Joined(parts[..|parts| - 1]) + parts[|parts| - 1]
  }

  /** Where part `k` begins. */
  function Offset(parts: seq<string>, k: nat): nat
    requires k <= |parts|
  {
    |Joined(parts[..k])|
  }

  /** Part `k` stands in the whole from `from` up to `to`. */
  predicate StandsAt(parts: seq<string>, k: nat, from: nat, to: nat)
    requires k < |parts|
  {
    && from + |parts[k]| == to <= |Joined(parts)| && Joined(parts)[from..to] == parts[k]
    && forall j :: from <= j < to ==> Joined(parts)[j] == parts[k][j - from]
  }

  lemma {:induction false} PartAt(parts: seq<string>, k: nat)
    requires k < |parts|
    ensures StandsAt(parts, k, Offset(parts, k), Offset(parts, k + 1))
    decreases |parts|
  {
    var n := |parts| - 1;
    assert parts[..k + 1][..k] == parts[..k];
    if k == n {
      assert parts[..n + 1] == parts;
    } else {
      PartAt(parts[..n], k);
      assert parts[..n][..k] == parts[..k] && parts[..n][..k + 1] == parts[..k + 1];
      assert Joined(parts) == Joined(parts[..n]) + parts[n];
    }
  }

  /** A tag with blanks around its name; an unescaped variable may have a third pair of braces. */
  function Spaced(i: Instr, triple: bool, left: nat, right: nat): seq<string> {
    [i.text, "{{", if triple then "{" else Sigil(i.t), Blanks(left), i.name, Blanks(right), if triple then "}}}" else "}}"]
  }

  lemma SignOf(i: Instr)
    ensures |Sigil(i.t)| <= 1 && (Sigil(i.t) != "" ==> Sigil(i.t)[0] != '}')
  {
  }

  /** Where the pieces of a tag stand: after the text from `p[1]` on, between the offsets `p`. */
  predicate Laid(parts: seq<string>, p: seq<nat>) {
    |parts| == 9 && |p| == 9 && forall k :: 0 <= k < 8 ==> StandsAt(parts, k, p[k], p[k + 1])
  }

  lemma LaidOut(parts: seq<string>) returns (p: seq<nat>)
    requires |parts| == 9
    ensures |p| == 9 && Laid(parts, p) && p[0] == 0 && forall k :: 0 <= k <= 8 ==> p[k] == Offset(parts, k)
  {
    hide Joined, StandsAt, Offset;
    p := seq(9, k requires 0 <= k < 9 => Offset(parts, k));
    forall k | 0 <= k < 8 ensures StandsAt(parts, k, p[k], p[k + 1]) { PartAt(parts, k); }
    StartsAtZero(parts);
  }

  lemma StartsAtZero(parts: seq<string>)
    ensures Offset(parts, 0) == 0
  {
  }

  /** Blanks around a name do not matter, and three braces say what the ampersand says. */
  lemma SpacedRead(pre: string, i: Instr, triple: bool, left: nat, right: nat, rest: string)
    requires Printable(i) && !i.t.Ignore? && i.name != "" && (triple ==> i.t.UnescapeTag?)
    ensures var tag := Spaced(i, triple, left, right);
            var body := Joined([pre] + tag + [rest]);
            |pre| <= |body|
            && var n := NextTag(body, |pre|);
               && n.Tagged? && n.token.next == |Joined([pre] + tag)|
               && TokenInBody(body, n.token) && TagOf(body, n.token) == i.(pos := 0)
  {
    hide NextTag, Find, Printable, Sigil, Joined, Blanks, StandsAt, Laid, TagOf, TokenInBody;
    var parts := [pre] + Spaced(i, triple, left, right) + [rest];
    assert parts[..8] == [pre] + Spaced(i, triple, left, right);
    var p := LaidOut(parts);
    LaidTells(parts, p);
    SpacedFrom(parts, p, i, triple, left, right);
  }

  /** The same, with the places of the parts given. */
  lemma SpacedFrom(parts: seq<string>, p: seq<nat>, i: Instr, triple: bool, left: nat, right: nat)
    requires Printable(i) && !i.t.Ignore? && i.name != "" && (triple ==> i.t.UnescapeTag?)
    requires |p| == 9 && Laid(parts, p) && p[0] == 0 && |parts| == 9 && parts[1..8] == Spaced(i, triple, left, right)
    requires p[1] <= |Joined(parts)|
    ensures var n := NextTag(Joined(parts), p[1]);
            && n.Tagged? && n.token.next == p[8]
            && TokenInBody(Joined(parts), n.token) && TagOf(Joined(parts), n.token) == i.(pos := 0)
  {
    hide NextTag, Find, Printable, Sigil, Joined, Blanks, StandsAt, Laid, TagOf, TokenInBody, FirstPair;
    SignOf(i);
    SpacedParts(parts, i, triple, left, right);
    LaidTells(parts, p);
    OpeningPair(parts, p, i);
    ClosingPair(parts, p, i, left, right);
    SpacesThere(parts, p, i, left, right);
    PlacedRead(Joined(parts), p, i, triple);
  }

  /** What the bytes of such a tag are, between the offsets `p`. */
  predicate Placed(body: string, p: seq<nat>, i: Instr, triple: bool) {
    && |p| == 9 && p[1] <= p[2] && p[3] == p[2] + 2 <= p[4] <= p[5] < p[6] <= p[7] < p[8] <= |body|
    && p[4] == p[3] + |if triple then "{" else Sigil(i.t)| && p[8] == p[7] + (if triple then 3 else 2)
    && body[p[1]..p[2]] == i.text && body[p[3]..p[4]] == (if triple then "{" else Sigil(i.t))
    && body[p[5]..p[6]] == i.name
    && (forall k :: p[4] <= k < p[5] ==> body[k] == ' ') && (forall k :: p[6] <= k < p[7] ==> body[k] == ' ')
    && (body[p[4]] == ' ' || body[p[4]] == i.name[0]) && (triple ==> body[p[7] + 2] == '}')
  }

  lemma PlacedRead(body: string, p: seq<nat>, i: Instr, triple: bool)
    requires Printable(i) && !i.t.Ignore? && i.name != "" && (triple ==> i.t.UnescapeTag?)
    requires Placed(body, p, i, triple) && FirstPair(body, '{', p[1], p[2]) && FirstPair(body, '}', p[3], p[7])
    ensures var n := NextTag(body, p[1]);
            && n.Tagged? && n.token.next == p[8] && TokenInBody(body, n.token) && TagOf(body, n.token) == i.(pos := 0)
  {
    hide NextTag, Printable, Sigil, SkipSpaces, TrimSpaces, TagOf, TokenInBody, Named, FirstPair;
    PairsToken(body, p[1], i, triple, p[2], p[4], p[7]);
    SpacedName(body, i, p[4], p[5], p[6], p[7]);
    SpacedIs(body, i, p, p[8]);
  }

  lemma PairsToken(body: string, current: nat, i: Instr, triple: bool, idx: nat, open: nat, end: nat)
    requires Printable(i) && !i.t.Ignore? && i.name != "" && current <= idx && idx + 2 < end && end + 2 <= |body|
    requires open == idx + 2 + |if triple then "{" else Sigil(i.t)| <= |body| && (triple ==> i.t.UnescapeTag?)
    requires body[idx + 2..open] == (if triple then "{" else Sigil(i.t))
    requires !triple && i.t.Tag? ==> body[open] == ' ' || body[open] == i.name[0]
    requires triple ==> end + 3 <= |body| && body[end + 2] == '}'
    requires FirstPair(body, '{', current, idx) && FirstPair(body, '}', idx + 2, end)
    ensures body[idx] == '{'
    ensures NextTag(body, current)
         == Named(Fragment(current, idx), i.t, body, open, end, if triple then end + 3 else end + 2)
  {
    hide NextTag, Find, Printable, Sigil, Named, FirstPair, NoPair;
    FindFirst(body, '{', current, idx);
    FindFirst(body, '}', idx + 2, end);
    SpacedToken(body, current, i, triple, idx, open, end);
  }

  lemma SpacedParts(parts: seq<string>, i: Instr, triple: bool, left: nat, right: nat)
    requires |parts| == 9 && parts[1..8] == Spaced(i, triple, left, right)
    ensures parts[1] == i.text && parts[2] == "{{" && parts[3] == if triple then "{" else Sigil(i.t)
    ensures parts[4] == Blanks(left) && parts[5] == i.name && parts[6] == Blanks(right)
    ensures parts[7] == if triple then "}}}" else "}}"
  {
    hide Sigil, Blanks;
    ghost var tag := parts[1..8];
    assert forall k :: 0 <= k < 7 ==> tag[k] == parts[k + 1];
  }

  lemma LaidTells(parts: seq<string>, p: seq<nat>)
    requires Laid(parts, p) && p[0] == 0
    ensures p[1] == |parts[0]| && p[1] <= p[2] && p[3] == p[2] + |parts[2]| && p[4] == p[3] + |parts[3]|
    ensures p[4] <= p[5] && p[6] == p[5] + |parts[5]| && p[6] <= p[7] && p[8] == p[7] + |parts[7]| <= |Joined(parts)|
    ensures Joined(parts)[p[1]..p[2]] == parts[1] && Joined(parts)[p[3]..p[4]] == parts[3]
            && Joined(parts)[p[5]..p[6]] == parts[5]
    ensures forall j :: p[7] <= j < p[8] ==> Joined(parts)[j] == parts[7][j - p[7]]
  {
    hide Joined;
    assert forall k :: 0 <= k < 8 ==> StandsAt(parts, k, p[k], p[k + 1]);
    assert StandsAt(parts, 0, p[0], p[0 + 1]) && StandsAt(parts, 1, p[1], p[1 + 1]) && StandsAt(parts, 2, p[2], p[2 + 1]);
    assert StandsAt(parts, 3, p[3], p[3 + 1]) && StandsAt(parts, 4, p[4], p[4 + 1]) && StandsAt(parts, 5, p[5], p[5 + 1]);
    assert StandsAt(parts, 6, p[6], p[6 + 1]) && StandsAt(parts, 7, p[7], p[7 + 1]);
  }

  lemma OpeningPair(parts: seq<string>, p: seq<nat>, i: Instr)
    requires Laid(parts, p) && Printable(i) && parts[1] == i.text && parts[2] == "{{"
    ensures FirstPair(Joined(parts), '{', p[1], p[2])
  {
    hide Joined;
    assert StandsAt(parts, 1, p[1], p[1 + 1]) && StandsAt(parts, 2, p[2], p[2 + 1]);
  }

  lemma ClosingPair(parts: seq<string>, p: seq<nat>, i: Instr, left: nat, right: nat)
    requires Laid(parts, p) && Printable(i) && parts[5] == i.name && parts[4] == Blanks(left) && parts[6] == Blanks(right)
    requires |parts[3]| <= 1 && (parts[3] != "" ==> parts[3][0] != '}') && (parts[7] == "}}" || parts[7] == "}}}")
    ensures FirstPair(Joined(parts), '}', p[3], p[7])
  {
    hide Joined;
    assert StandsAt(parts, 3, p[3], p[3 + 1]) && StandsAt(parts, 4, p[4], p[4 + 1]) && StandsAt(parts, 5, p[5], p[5 + 1]);
    assert StandsAt(parts, 6, p[6], p[6 + 1]) && StandsAt(parts, 7, p[7], p[7 + 1]);
    var body := Joined(parts);
    forall k | p[3] <= k < p[7] ensures body[k] != '}' {
      if k < p[4] { assert body[k] == parts[3][k - p[3]]; }
      else if k < p[5] { assert body[k] == parts[4][k - p[4]]; }
      else if k < p[6] { assert body[k] == parts[5][k - p[5]]; }
      else { assert body[k] == parts[6][k - p[6]]; }
    }
  }

  lemma SpacesThere(parts: seq<string>, p: seq<nat>, i: Instr, left: nat, right: nat)
    requires Laid(parts, p) && parts[4] == Blanks(left) && parts[5] == i.name != "" && parts[6] == Blanks(right)
    ensures p[4] <= p[5] < p[6] <= p[7] < |Joined(parts)| || parts[7] == ""
    ensures forall k :: p[4] <= k < p[5] ==> Joined(parts)[k] == ' '
    ensures forall k :: p[6] <= k < p[7] ==> Joined(parts)[k] == ' '
    ensures Joined(parts)[p[4]] == ' ' || Joined(parts)[p[4]] == i.name[0]
  {
    hide Joined;
    assert StandsAt(parts, 4, p[4], p[4 + 1]) && StandsAt(parts, 5, p[5], p[5 + 1]) && StandsAt(parts, 6, p[6], p[6 + 1])
           && StandsAt(parts, 7, p[7], p[7 + 1]);
    if left == 0 { assert Joined(parts)[p[5]] == parts[5][0]; }
  }

  /** The token of such a tag, and the step that it stands for. */
  lemma SpacedIs(body: string, i: Instr, p: seq<nat>, next: nat)
    requires |p| == 9 && p[1] <= p[2] < |body| && p[4] <= p[7] <= |body| && p[5] <= p[6] <= |body| && body[p[2]] == '{'
    requires body[p[1]..p[2]] == i.text && body[p[5]..p[6]] == i.name && !i.t.Ignore?
    requires SkipSpaces(body, p[4]) == p[5] && TrimSpaces(body, p[7]) == p[6]
    ensures var n := Named(Fragment(p[1], p[2]), i.t, body, p[4], p[7], next);
            && n.Tagged? && n.token.next == next && TokenInBody(body, n.token) && TagOf(body, n.token) == i.(pos := 0)
  {
    hide SkipSpaces, TrimSpaces;
  }

  lemma SpacedToken(body: string, current: nat, i: Instr, triple: bool, idx: nat, open: nat, end: nat)
    requires Printable(i) && !i.t.Ignore? && i.name != "" && current <= idx && idx + 2 < end && end + 2 <= |body|
    requires open == idx + 2 + |if triple then "{" else Sigil(i.t)| <= |body| && (triple ==> i.t.UnescapeTag?)
    requires body[idx + 2..open] == (if triple then "{" else Sigil(i.t))
    requires !triple && i.t.Tag? ==> body[open] == ' ' || body[open] == i.name[0]
    requires triple ==> end + 3 <= |body| && body[end + 2] == '}'
    requires Find(body, '{', current) == Some(idx) && Find(body, '}', idx + 2) == Some(end)
    ensures NextTag(body, current)
         == Named(Fragment(current, idx), i.t, body, open, end, if triple then end + 3 else end + 2)
  {
    hide Find, Named, NextTag, Printable;
    SpacedSign(body, i, triple, idx, open);
    SignToken(body, current, i.t, body[idx + 2], triple, idx, end);
  }

  /** The character behind the braces of such a tag. */
  lemma SpacedSign(body: string, i: Instr, triple: bool, idx: nat, open: nat)
    requires Printable(i) && !i.t.Ignore? && i.name != "" && (triple ==> i.t.UnescapeTag?)
    requires open == idx + 2 + |if triple then "{" else Sigil(i.t)| < |body|
    requires body[idx + 2..open] == (if triple then "{" else Sigil(i.t))
    requires !triple && i.t.Tag? ==> body[open] == ' ' || body[open] == i.name[0]
    ensures open == if !triple && i.t.Tag? then idx + 2 else idx + 3
    ensures Signs(i.t, triple, body[idx + 2])
  {
    if triple {
      assert body[idx + 2..open][0] == '{';
    } else if !i.t.Tag? {
      assert body[idx + 2..open][0] == Sigil(i.t)[0];
    }
  }

  predicate Signs(t: ActionType, triple: bool, c: char) {
    if triple then c == '{' && t.UnescapeTag?
    else if t.Tag? then c !in "#/^&!{>="
    else Sigil(t) == [c] && !t.Ignore?
  }

  lemma SignToken(body: string, current: nat, t: ActionType, c: char, triple: bool, idx: nat, end: nat)
    requires current <= idx && idx + 2 < end && end + 2 <= |body| && body[idx + 2] == c && Signs(t, triple, c)
    requires triple ==> end + 3 <= |body| && body[end + 2] == '}'
    requires Find(body, '{', current) == Some(idx) && Find(body, '}', idx + 2) == Some(end)
    ensures NextTag(body, current)
         == Named(Fragment(current, idx), t, body, if !triple && t.Tag? then idx + 2 else idx + 3, end,
                  if triple then end + 3 else end + 2)
  {
    hide Find, Named;
    assert Sigil(OpenBlock)[0] == '#' && Sigil(CloseBlock)[0] == '/' && Sigil(ElseBlock)[0] == '^' && Sigil(UnescapeTag)[0] == '&';
  }

  lemma SpacedName(body: string, i: Instr, open: nat, name: nat, tail: nat, end: nat)
    requires Printable(i) && !i.t.Ignore? && i.name != "" && open <= name < tail <= end < |body| && body[name..tail] == i.name
    requires (forall k :: open <= k < name ==> body[k] == ' ') && (forall k :: tail <= k < end ==> body[k] == ' ')
    ensures SkipSpaces(body, open) == name && TrimSpaces(body, end) == tail
  {
    hide SkipSpaces, TrimSpaces;
    assert body[name] == i.name[0] && body[tail - 1] == i.name[|i.name| - 1];
  }

  /** When reading ends, and which tags are refused: by the first pair of opening braces, at `idx`, and the first pair
      of closing ones behind it, at `end`. */
  lemma TagsRefused(body: string, current: nat, idx: nat, end: nat)
    requires current <= |body|
    ensures NextTag(body, current).Last? <==> NoPair(body, '{', current)
    ensures FirstPair(body, '{', current, idx) ==>
              (NextTag(body, current) == Bad(NotMatchedTag) <==> NoPair(body, '}', idx + 2))
    ensures FirstPair(body, '{', current, idx) && FirstPair(body, '}', idx + 2, end) ==>
              && (NextTag(body, current) == Bad(EmptyTag) <==> end == idx + 2)
              && (end > idx + 2 ==>
                    && (NextTag(body, current) == Bad(Unsupported) <==> body[idx + 2] == '>' || body[idx + 2] == '=')
                    && (NextTag(body, current) == Bad(NotMatchedTriple) <==>
                          body[idx + 2] == '{' && !(end + 2 < |body| && body[end + 2] == '}')))
  {
    hide Find, SkipSpaces, TrimSpaces, FirstPair, NoPair;
    FindFirst(body, '{', current, idx);
    if FirstPair(body, '{', current, idx) { FindFirst(body, '}', idx + 2, end); }
  }

  predicate NoPair(body: string, c: char, from: nat) {
    forall k :: from <= k < |body| - 1 ==> !(body[k] == c && body[k + 1] == c)
  }

  /** At `k` is the first pair of this brace. */
  predicate FirstPair(body: string, c: char, from: nat, k: nat) {
    from <= k && k + 2 <= |body| && body[k] == body[k + 1] == c
    && forall i :: from <= i < k ==> !(body[i] == c && body[i + 1] == c)
  }

  lemma FindFirst(body: string, c: char, from: nat, k: nat)
    ensures FirstPair(body, c, from, k) ==> from <= k && k + 2 <= |body| && body[k] == c
    ensures from <= |body| ==>
              && (FirstPair(body, c, from, k) <==> Find(body, c, from) == Some(k))
              && (NoPair(body, c, from) <==> Find(body, c, from) == None)
  {
    hide Find;
  }

  lemma {:induction false} PrintSplit(code: seq<Instr>, k: nat)
    requires k < |code|
    ensures exists rest :: Print(code) == Print(code[..k]) + PrintTag(code[k]) + rest
    decreases |code|
  {
    hide PrintTag;
    var n := |code| - 1;
    if k == n {
      assert Print(code) == Print(code[..k]) + PrintTag(code[k]) + "";
    } else {
      PrintSplit(code[..n], k);
      assert code[..n][..k] == code[..k];
      var rest :| Print(code[..n]) == Print(code[..k]) + PrintTag(code[k]) + rest;
      assert Print(code) == Print(code[..k]) + PrintTag(code[k]) + (rest + PrintTag(code[n]));
    }
  }

  lemma TagAt(code: seq<Instr>, last: string, k: nat)
    requires AllPrintable(code) && k < |code| && |Print(code[..k])| <= |Print(code) + last|
    ensures var body := Print(code) + last;
            var n := NextTag(body, |Print(code[..k])|);
            && n.Tagged? && n.token.next == |Print(code[..k + 1])|
            && TokenInBody(body, n.token) && TagOf(body, n.token) == code[k].(pos := 0)
  {
    hide PrintTag, NextTag, TagOf, TokenInBody, Printable;
    PrintSplit(code, k);
    var rest :| Print(code) == Print(code[..k]) + PrintTag(code[k]) + rest;
    var body := Print(code) + last;
    assert body == Print(code[..k]) + PrintTag(code[k]) + (rest + last);
    TagRead(Print(code[..k]), code[k], rest + last);
    assert code[..k + 1][..k] == code[..k];
  }

  lemma NoTagAfter(code: seq<Instr>, last: string)
    requires '{' !in last
    ensures var body := Print(code) + last;
            NextTag(body, |Print(code)|) == Last(Fragment(|Print(code)|, |body|))
  {
    hide Print;
    var body := Print(code) + last;
    forall k | |Print(code)| <= k < |body| ensures body[k] != '{' { assert body[k] == last[k - |Print(code)|]; }
  }

  function Stripped(code: seq<Instr>): (r: seq<Instr>)
    ensures |r| == |code|
  {
    seq(|code|, i requires 0 <= i < |code| => code[i].(pos := 0))
  }

  /** Whatever has been scanned of a printed program are its first tags. */
  lemma {:induction false} PrintedScan(code: seq<Instr>, last: string, tokens: seq<Token>, at: nat)
    requires AllPrintable(code) && '{' !in last
    requires var body := Print(code) + last; at <= |body| && Scanned(body, tokens, at) && TokensInBody(body, tokens)
    ensures |tokens| <= |code| && at == |Print(code[..|tokens|])|
    ensures TagsOf(Print(code) + last, tokens) == Stripped(code[..|tokens|])
    decreases |tokens|
  {
    hide NextTag, Print, TagOf, AllPrintable;
    var body := Print(code) + last;
    if tokens == [] {
      EmptyPrint(code);
    } else {
      var n := |tokens| - 1;
      var from := if n == 0 then 0 else tokens[n - 1].next;
      PrintedScan(code, last, tokens[..n], from);
      if n == |code| {
        assert code[..n] == code;
        NoTagAfter(code, last);
        assert false;
      }
      TagAt(code, last, n);
      assert NextTag(body, from) == Tagged(tokens[n]);
      forall k | 0 <= k <= n ensures TagsOf(body, tokens)[k] == code[k].(pos := 0) {
        if k < n {
          assert TagsOf(body, tokens)[k] == TagsOf(body, tokens[..n])[k] == Stripped(code[..n])[k];
        }
      }
    }
  }

  lemma EmptyPrint(code: seq<Instr>)
    ensures |Print(code[..0])| == 0
  {
  }

  // ---------------------------------------------------------------------------------------------
  // Reading the tags as brackets

  lemma {:induction false} GrownAppend(p: Partial, a: seq<Instr>, b: seq<Instr>)
    ensures Grown(p, a + b) == (if Grown(p, a).None? then None else Grown(Grown(p, a).value, b))
    decreases |b|
  {
    hide Grow;
    if b == [] {
      assert a + b == a;
    } else {
      var c := a + b;
      assert c[..|c| - 1] == a + b[..|b| - 1];
      GrownAppend(p, a, b[..|b| - 1]);
    }
  }

  lemma GrownOne(p: Partial, i: Instr)
    ensures Grown(p, [i]) == Grow(p, i)
  {
    hide Grow;
    assert [i][..0] == [];
  }

  lemma {:induction false} GrownStripped(p: Partial, code: seq<Instr>)
    ensures Grown(p, Stripped(code)) == Grown(p, code)
    decreases |code|
  {
    if code != [] {
      var n := |code| - 1;
      assert Stripped(code)[..n] == Stripped(code[..n]);
      GrownStripped(p, code[..n]);
    }
  }

  /** The tags of a tree stand for that tree, wherever they appear. */
  lemma {:induction false} GrownFlat(p: Partial, nodes: seq<Node>, base: nat)
    ensures Grown(p, Flat(nodes, base)) == Some(p.(nodes := p.nodes + nodes))
    decreases nodes, 0
  {
    hide FlatNode, Grow;
    if nodes == [] {
      assert p.nodes + nodes == p.nodes;
    } else {
      var a, b := FlatNode(nodes[0], base), Flat(nodes[1..], base + Size(nodes[0]));
      var p1 := p.(nodes := p.nodes + [nodes[0]]);
      GrownFlatNode(p, nodes[0], base);
      GrownFlat(p1, nodes[1..], base + Size(nodes[0]));
      GrownAppend(p, a, b);
      assert p.nodes + [nodes[0]] + nodes[1..] == p.nodes + nodes;
    }
  }

  lemma {:induction false} GrownFlatNode(p: Partial, n: Node, base: nat)
    ensures Grown(p, FlatNode(n, base)) == Some(p.(nodes := p.nodes + [n]))
    decreases n, 0
  {
    hide Flat, Grown;
    if n.Section? {
      var open := FlatNode(n, base)[0];
      var close := Instr(n.last, CloseBlock, n.name, base);
      var p1 := Partial(p.frames + [Frame(p.nodes, n.text, n.name, n.inverted)], []);
      var children := Flat(n.children, base + 1);
      GrownFlat(p1, n.children, base + 1);
      assert p1.nodes + n.children == n.children;
      GrownAppend(p1, children, [close]);
      GrownOne(p1.(nodes := n.children), close);
      GrownAppend(p, [open], children + [close]);
      GrownOne(p, open);
      assert (p.frames + [Frame(p.nodes, n.text, n.name, n.inverted)])[..|p.frames|] == p.frames;
    } else {
      GrownOne(p, FlatNode(n, base)[0]);
    }
  }

  // ---------------------------------------------------------------------------------------------
  // The round trip

  /** Scanning does not stop inside a printed tree, so what it reads is that tree. */
  lemma PrintedRead(nodes: seq<Node>, last: string, tokens: seq<Token>, at: nat, p: Partial)
    requires AllPrintable(Flat(nodes, 0)) && '{' !in last
    requires var body := Print(Flat(nodes, 0)) + last;
             && at <= |body| && Scanned(body, tokens, at) && TokensInBody(body, tokens)
             && Tree(TagsOf(body, tokens)) == Some(p)
    ensures var body := Print(Flat(nodes, 0)) + last;
            var n := NextTag(body, at);
            && !n.Bad? && (n.Tagged? ==> Grow(p, TagOf(body, n.token)).Some?)
            && (n.Last? ==> p == Partial([], nodes) && TagsOf(body, tokens) == Stripped(Flat(nodes, 0))
                            && at == |Print(Flat(nodes, 0))|)
  {
    hide Flat, Print, NextTag, Grow, AllPrintable, Grown, TagOf;
    var code := Flat(nodes, 0);
    var body := Print(code) + last;
    PrintedScan(code, last, tokens, at);
    var k := |tokens|;
    var start := Partial([], []);
    GrownStripped(start, code[..k]);
    GrownFlat(start, nodes, 0);
    assert start.nodes + nodes == nodes;
    if k == |code| {
      assert code[..k] == code;
      NoTagAfter(code, last);
    } else {
      TagAt(code, last, k);
      var i := code[k].(pos := 0);
      assert code == code[..k] + ([code[k]] + code[k + 1..]);
      GrownAppend(start, code[..k], [code[k]] + code[k + 1..]);
      GrownAppend(p, [code[k]], code[k + 1..]);
      GrownOne(p, code[k]);
      GrowStripped(p, code[k]);
    }
  }

  lemma GrowStripped(p: Partial, i: Instr)
    ensures Grow(p, i.(pos := 0)) == Grow(p, i)
  {
  }

  /** The texts of a program. */
  function OwnTexts(code: seq<Instr>): (texts: seq<string>)
    ensures |texts| == |code|
  {
    seq(|code|, i requires 0 <= i < |code| => code[i].text)
  }

  /** A printed tree is read as that tree, with its own texts between the tags. */
  lemma PrintedTree(nodes: seq<Node>, last: string)
    requires AllPrintable(Flat(nodes, 0)) && '{' !in last
    ensures var body := Print(Flat(nodes, 0)) + last;
            && TreeOf(body) == Some(nodes)
            && TextsOf(body, FragmentsIn(body)) == OwnTexts(Flat(nodes, 0)) + [last]
  {
    hide Flat, Print, NextTag, Grow, AllPrintable, Grown, Scanned, TagsOf, TokensInBody, ReadOn, TrimFrom;
    var code := Flat(nodes, 0);
    var body := Print(code) + last;
    var q := ReadTags(body);
    ReadWell(body);
    ReadStops(body, UNREAD);
    PrintedRead(nodes, last, q.tokens, q.at, q.p);
    var own := TextsOf(body, FragmentsIn(body));
    assert |q.tokens| == |code|;
    forall k | 0 <= k < |code| ensures own[k] == code[k].text {
      PrintedFragment(code, last, q.tokens, q.at, k);
      PrintedText(code, last, k);
    }
    assert own[|code|] == body[q.at..|body|] == last;
    assert own == OwnTexts(code) + [last];
  }

  lemma PrintedText(code: seq<Instr>, last: string, k: nat)
    requires k < |code|
    ensures var start := |Print(code[..k])|;
            && start + |code[k].text| <= |Print(code) + last|
            && (Print(code) + last)[start..start + |code[k].text|] == code[k].text
  {
    hide Print;
    PrintSplit(code, k);
    var rest :| Print(code) == Print(code[..k]) + PrintTag(code[k]) + rest;
    var i := code[k];
    var tag := "{{" + Sigil(i.t) + i.name + "}}";
    assert PrintTag(i) == i.text + tag;
    assert Print(code) + last == Print(code[..k]) + i.text + (tag + rest + last);
    Middle(Print(code[..k]), i.text, tag + rest + last);
  }

  lemma Middle(a: string, b: string, c: string)
    ensures (a + b + c)[|a|..|a| + |b|] == b
  {
  }

  lemma PrintedFragment(code: seq<Instr>, last: string, tokens: seq<Token>, at: nat, k: nat)
    requires AllPrintable(code) && '{' !in last && k < |tokens|
    requires var body := Print(code) + last; at <= |body| && Scanned(body, tokens, at) && TokensInBody(body, tokens)
    ensures k < |code|
    ensures var start := |Print(code[..k])|; tokens[k].fragment == Fragment(start, start + |code[k].text|)
    decreases |tokens|
  {
    hide NextTag, Print, AllPrintable;
    var body := Print(code) + last;
    PrintedScan(code, last, tokens, at);
    var n := |tokens| - 1;
    var from := if n == 0 then 0 else tokens[n - 1].next;
    if k < n {
      PrintedFragment(code, last, tokens[..n], from, k);
    } else {
      PrintedScan(code, last, tokens[..n], from);
      assert NextTag(body, from) == Tagged(tokens[n]);
      TokenStarts(body, from);
      assert TagsOf(body, tokens)[k] == Stripped(code[..|tokens|])[k] == code[k].(pos := 0);
    }
  }

  lemma TokenStarts(body: string, current: nat)
    requires current <= |body| && NextTag(body, current).Tagged?
    ensures NextTag(body, current).token.fragment.first == current
  {
  }
}
