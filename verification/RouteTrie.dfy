/** `Trie`: rules in a tree of pieces, searched with one shared stack of captured parameters. */
module RouteTrie {
  import opened Wrappers
  import opened RoutePattern

  /** `Trie::Node`; the children of a node are values it owns. */
  datatype Node = Node(rule: nat, key: string, param: Option<ParamType>, children: seq<Node>)

  const EMPTY := Node(0, "", None, [])

  function Lits(key: string): (r: seq<Piece>)
    ensures |r| == |key|
  {
    seq(|key|, i requires 0 <= i < |key| => Lit(key[i]))
  }

  function Label(n: Node): seq<Piece> {
    if n.param.Some? then [Par(n.param.value)] else Lits(n.key)
  }

  // ---------------------------------------------------------------------------------------------
  // The rules of a tree

  function Entries(n: Node): seq<Rule>
    decreases n, 0
  {
    (if n.rule != 0 then [Rule([], n.rule)] else []) + EntriesOf(n.children)
  }

  /** The rules below a list of nodes, in the order in which the tree is searched. */
  function EntriesOf(nodes: seq<Node>): seq<Rule>
    decreases nodes, 0
  {
    if nodes == [] then [] else Prefixed(Label(nodes[0]), Entries(nodes[0])) + EntriesOf(nodes[1..])
  }

  /** No child has an empty key. */
  predicate Keyed(n: Node)
    decreases n, 0
  {
    AllKeyed(n.children)
  }

  predicate AllKeyed(nodes: seq<Node>)
    decreases nodes, 0
  {
    nodes == [] || (Label(nodes[0]) != [] && Keyed(nodes[0]) && AllKeyed(nodes[1..]))
  }

  lemma {:induction false} EntriesAppend(a: seq<Node>, b: seq<Node>)
    ensures EntriesOf(a + b) == EntriesOf(a) + EntriesOf(b)
    ensures AllKeyed(a + b) == (AllKeyed(a) && AllKeyed(b))
    decreases |a|
  {
    hide Entries, Label, Keyed;
    if a == [] {
      assert a + b == b;
    } else {
      assert (a + b)[0] == a[0] && (a + b)[1..] == a[1..] + b;
      EntriesAppend(a[1..], b);
    }
  }

  lemma EntriesSplit(nodes: seq<Node>, k: nat)
    requires k < |nodes|
    ensures EntriesOf(nodes[..k + 1]) == EntriesOf(nodes[..k]) + Prefixed(Label(nodes[k]), Entries(nodes[k]))
  {
    hide Entries, Label, Keyed, EntriesOf, AllKeyed, Prefixed;
    assert nodes[..k + 1] == nodes[..k] + [nodes[k]];
    EntriesAppend(nodes[..k], [nodes[k]]);
    EntriesOne(nodes[k]);
  }

  lemma EntriesOne(n: Node)
    ensures EntriesOf([n]) == Prefixed(Label(n), Entries(n))
  {
    hide Entries, Label, Prefixed;
    assert [n][1..] == [] && EntriesOf([]) == [];
  }

  lemma {:induction false} KeyedPatterns(nodes: seq<Node>)
    requires AllKeyed(nodes)
    ensures forall k :: 0 <= k < |EntriesOf(nodes)| ==> EntriesOf(nodes)[k].pattern != []
    decreases |nodes|
  {
    hide Label, Entries, Keyed;
    if nodes != [] { KeyedPatterns(nodes[1..]); }
  }

  // ---------------------------------------------------------------------------------------------
  // Searching

  /** The parameters captured so far, shared by all calls of one search. */
  class ParamStack {
    var ints: seq<int>
    var uints: seq<int>
    var doubles: seq<real>
    var strings: seq<string>

    constructor ()
      ensures Value() == NOTHING
    {
      ints, uints, doubles, strings := [], [], [], [];
    }

    function Value(): Captured
      reads this
    {
      Captured(ints, uints, doubles, strings)
    }

    /** Takes the part of the url that a child stands for, and pushes what it captures. */
    method Enter(f: Strtod, url: string, child: Node, pos: nat) returns (next: Option<nat>)
      requires pos < |url|
      modifies this
      ensures var at := EatAll(f, Label(child), url, At(pos, old(Value())));
              && next.Some? == at.Some?
              && (next.Some? ==> at.value == At(next.value, Value()))
              && (next.None? ==> Value() == old(Value()))
      ensures next.Some? ==> pos <= next.value <= |url|
    {
      hide EatAll, Integer, SegmentEnd;
      ghost var start := At(pos, Value());
      next := None;
      if child.param.None? {
        EatLits(f, child.key, url, start);
        if StartsWith(url, pos, child.key) { next := Some(pos + |child.key|); }
        return;
      }
      EatOne(f, Par(child.param.value), url, start);
      var c := url[pos];
      match child.param.value {
        case INT =>
          if IsDigit(c) || c == '+' || c == '-' {
            var t := Integer(url, pos, INT_MIN, INT_MAX);
            if t.Some? {
              ints := ints + [t.value.value];
              next := Some(t.value.end);
            }
          }
        case UINT =>
          if IsDigit(c) || c == '+' {
            var t := Integer(url, pos, 0, UINT_MAX);
            if t.Some? {
              uints := uints + [t.value.value];
              next := Some(t.value.end);
            }
          }
        case DOUBLE =>
          if IsDigit(c) || c == '+' || c == '-' || c == '.' {
            var t := f(url[pos..]);
            if t.Some? && 0 < t.value.1 && pos + t.value.1 <= |url| {
              doubles := doubles + [t.value.0];
              next := Some(pos + t.value.1);
            }
          }
        case STRING =>
          var end := SegmentEnd(url, pos);
          if end != pos {
            strings := strings + [url[pos..end]];
            next := Some(end);
          }
        case PATH =>
          strings := strings + [url[pos..]];
          next := Some(|url|);
      }
    }

    /** Pops what entering the child has pushed. */
    method Leave(child: Node, ghost before: Captured, ghost f: Strtod, ghost url: string, ghost pos: nat)
      requires pos < |url|
      requires var at := EatAll(f, Label(child), url, At(pos, before)); at.Some? && at.value.params == Value()
      modifies this
      ensures Value() == before
    {
      hide EatAll, Integer, SegmentEnd;
      if child.param.None? {
        EatLits(f, child.key, url, At(pos, before));
        return;
      }
      EatOne(f, Par(child.param.value), url, At(pos, before));
      match child.param.value {
        case INT => ints := ints[..|ints| - 1];
        case UINT => uints := uints[..|uints| - 1];
        case DOUBLE => doubles := doubles[..|doubles| - 1];
        case STRING => strings := strings[..|strings| - 1];
        case PATH => strings := strings[..|strings| - 1];
      }
    }
  }

  lemma EatOne(f: Strtod, p: Piece, url: string, at: At)
    requires at.pos <= |url|
    ensures EatAll(f, [p], url, at) == Eat(f, p, url, at)
  {
    hide Eat;
    var m := Eat(f, p, url, at);
    if m.Some? { assert [p][1..] == [] && EatAll(f, [], url, m.value) == m; }
  }

  /** A literal key takes exactly its own characters. */
  lemma {:induction false} EatLits(f: Strtod, key: string, url: string, at: At)
    requires at.pos <= |url|
    ensures EatAll(f, Lits(key), url, at)
         == if StartsWith(url, at.pos, key) then Some(At(at.pos + |key|, at.params)) else None
    decreases |key|
  {
    if key == "" {
      assert url[at.pos..at.pos] == "";
    } else {
      assert Lits(key)[0] == Lit(key[0]) && Lits(key)[1..] == Lits(key[1..]);
      var fits := at.pos < |url| && url[at.pos] == key[0];
      LitsFit(url, at.pos, key);
      if fits {
        assert Eat(f, Lit(key[0]), url, at) == Some(At(at.pos + 1, at.params));
        EatLits(f, key[1..], url, At(at.pos + 1, at.params));
      }
    }
  }

  lemma LitsFit(url: string, i: nat, key: string)
    requires key != ""
    ensures StartsWith(url, i, key) <==> i < |url| && url[i] == key[0] && StartsWith(url, i + 1, key[1..])
  {
    if i + |key| <= |url| {
      assert url[i..i + |key|] == [url[i]] + url[i + 1..i + |key|];
      assert key == [key[0]] + key[1..];
    }
  }

  /** What `find` returns and what the linear search finds agree wherever there is an index. */
  predicate Agrees(r: Found, scan: Found) {
    r.index == scan.index && (r.index != 0 ==> r == scan)
  }

  // ---------------------------------------------------------------------------------------------
  // Adding

  /** `child.key[0]`; a parameter's key is the empty string, which ends in a NUL. */
  function KeyHead(n: Node): char {
    if n.key == "" then '\0' else n.key[0]
  }

  /** Every child stands for one piece, as before path compression. */
  predicate Single(n: Node)
    decreases n, 0
  {
    AllSingle(n.children)
  }

  predicate AllSingle(nodes: seq<Node>)
    decreases nodes, 0
  {
    nodes == [] || (SingleLabel(nodes[0]) && Single(nodes[0]) && AllSingle(nodes[1..]))
  }

  predicate SingleLabel(n: Node) {
    if n.param.Some? then n.key == "" else |n.key| == 1
  }

  function NewNode(p: Piece): Node {
    match p
    case Lit(c) => Node(0, [c], None, [])
    case Par(t) => Node(0, "", Some(t), [])
  }

  /** The first child with the label, or the number of children. */
  function FirstChild(nodes: seq<Node>, p: Piece): (k: nat)
    ensures k <= |nodes| && (k < |nodes| ==> Label(nodes[k]) == [p])
    ensures forall i :: 0 <= i < k ==> Label(nodes[i]) != [p]
  {
    if nodes == [] then 0
    else if Label(nodes[0]) == [p] then 0
    else FirstChild(nodes[1..], p) + 1
  }

  /** The tree with a path for the pattern. */
  function Touch(n: Node, pattern: seq<Piece>): Node
    decreases |pattern|
  {
    if pattern == [] then n
    else
      var k := FirstChild(n.children, pattern[0]);
      if k < |n.children| then n.(children := n.children[k := Touch(n.children[k], pattern[1..])])
      else n.(children := n.children + [Touch(NewNode(pattern[0]), pattern[1..])])
  }

  /** The index that the tree has for the pattern. */
  function IndexOf(n: Node, pattern: seq<Piece>): nat
    decreases |pattern|
  {
    if pattern == [] then n.rule
    else
      var k := FirstChild(n.children, pattern[0]);
      if k < |n.children| then IndexOf(n.children[k], pattern[1..]) else 0
  }

  /** The tree with the index at the end of the pattern. */
  function Insert(n: Node, pattern: seq<Piece>, index: nat): Node
    decreases |pattern|
  {
    if pattern == [] then n.(rule := index)
    else
      var k := FirstChild(n.children, pattern[0]);
      if k < |n.children| then n.(children := n.children[k := Insert(n.children[k], pattern[1..], index)])
      else n.(children := n.children + [Insert(NewNode(pattern[0]), pattern[1..], index)])
  }

  predicate InTree(n: Node, path: seq<nat>)
    decreases |path|
  {
    path == [] || (path[0] < |n.children| && InTree(n.children[path[0]], path[1..]))
  }

  /** The node that a pointer into the tree stands for, as the children taken on the way to it. */
  function NodeAt(n: Node, path: seq<nat>): Node
    requires InTree(n, path)
    decreases |path|
  {
    if path == [] then n else NodeAt(n.children[path[0]], path[1..])
  }

  /** Writing through the pointer. */
  function Put(n: Node, path: seq<nat>, m: Node): Node
    requires InTree(n, path)
    decreases |path|
  {
    if path == [] then m else n.(children := n.children[path[0] := Put(n.children[path[0]], path[1..], m)])
  }

  /** The pointer is where walking along the pattern leads. */
  predicate Leads(n: Node, path: seq<nat>, pattern: seq<Piece>)
    requires InTree(n, path)
    decreases |path|
  {
    && |path| == |pattern|
    && (path == [] || (path[0] == FirstChild(n.children, pattern[0])
                       && Leads(n.children[path[0]], path[1..], pattern[1..])))
  }

  lemma {:induction false} Descend(n: Node, path: seq<nat>, pattern: seq<Piece>, p: Piece, k: nat)
    requires InTree(n, path) && Leads(n, path, pattern)
    requires k == FirstChild(NodeAt(n, path).children, p) && k < |NodeAt(n, path).children|
    ensures InTree(n, path + [k]) && Leads(n, path + [k], pattern + [p])
    ensures NodeAt(n, path + [k]) == NodeAt(n, path).children[k]
    decreases |path|
  {
    hide FirstChild;
    if path == [] {
      assert path + [k] == [k] && pattern + [p] == [p];
      assert [k][1..] == [] && [p][1..] == [];
      assert InTree(n.children[k], [k][1..]);
    } else {
      assert (path + [k])[1..] == path[1..] + [k] && (pattern + [p])[1..] == pattern[1..] + [p];
      Descend(n.children[path[0]], path[1..], pattern[1..], p, k);
    }
  }

  /** A child that exists needs no new node. */
  lemma {:induction false} TouchKnown(n: Node, path: seq<nat>, pattern: seq<Piece>, p: Piece)
    requires InTree(Touch(n, pattern), path) && Leads(Touch(n, pattern), path, pattern)
    requires var m := NodeAt(Touch(n, pattern), path); FirstChild(m.children, p) < |m.children|
    ensures Touch(n, pattern + [p]) == Touch(n, pattern)
    decreases |pattern|
  {
    if pattern == [] {
      assert pattern + [p] == [p];
      assert [p][1..] == [];
      var k := FirstChild(n.children, p);
      assert Touch(n.children[k], []) == n.children[k];
      assert n.children[k := n.children[k]] == n.children;
    } else {
      assert (pattern + [p])[0] == pattern[0] && (pattern + [p])[1..] == pattern[1..] + [p];
      var k := FirstChild(n.children, pattern[0]);
      TouchChild(n, pattern);
      TouchKnown(if k < |n.children| then n.children[k] else NewNode(pattern[0]), path[1..], pattern[1..], p);
    }
  }

  /** Where the touched child is. */
  lemma TouchChild(n: Node, pattern: seq<Piece>)
    requires pattern != []
    ensures var k := FirstChild(n.children, pattern[0]);
            var m := Touch(n, pattern);
            && k < |m.children| && FirstChild(m.children, pattern[0]) == k
            && m.children[k] == Touch(if k < |n.children| then n.children[k] else NewNode(pattern[0]), pattern[1..])
  {
    var k := FirstChild(n.children, pattern[0]);
    var m := Touch(n, pattern);
    TouchLabel(if k < |n.children| then n.children[k] else NewNode(pattern[0]), pattern[1..]);
    assert Label(NewNode(pattern[0])) == [pattern[0]] by { NewLabel(pattern[0]); }
    FirstIs(m.children, pattern[0], k);
  }

  lemma NewLabel(p: Piece)
    ensures Label(NewNode(p)) == [p]
  {
  }

  lemma TouchLabel(n: Node, pattern: seq<Piece>)
    ensures Label(Touch(n, pattern)) == Label(n)
  {
    hide FirstChild;
  }

  lemma {:induction false} FirstIs(nodes: seq<Node>, p: Piece, k: nat)
    requires k < |nodes| && Label(nodes[k]) == [p] && forall i :: 0 <= i < k ==> Label(nodes[i]) != [p]
    ensures FirstChild(nodes, p) == k
  {
  }

  /** A child that is missing is added at the end. */
  lemma {:induction false} TouchMore(n: Node, path: seq<nat>, pattern: seq<Piece>, p: Piece)
    requires InTree(Touch(n, pattern), path) && Leads(Touch(n, pattern), path, pattern)
    requires var m := NodeAt(Touch(n, pattern), path); FirstChild(m.children, p) == |m.children|
    ensures var m := NodeAt(Touch(n, pattern), path);
            var n1 := Put(Touch(n, pattern), path, m.(children := m.children + [NewNode(p)]));
            && Touch(n, pattern + [p]) == n1
            && InTree(n1, path + [|m.children|]) && Leads(n1, path + [|m.children|], pattern + [p])
            && NodeAt(n1, path + [|m.children|]) == NewNode(p)
    decreases |pattern|
  {
    hide FirstChild;
    var m := NodeAt(Touch(n, pattern), path);
    if pattern == [] {
      TouchNew(n, p);
      assert pattern + [p] == [p] && path + [|m.children|] == [|m.children|];
    } else {
      hide Touch, NewNode;
      assert (pattern + [p])[0] == pattern[0] && (pattern + [p])[1..] == pattern[1..] + [p];
      assert (path + [|m.children|])[1..] == path[1..] + [|m.children|];
      var k := FirstChild(n.children, pattern[0]);
      var c := if k < |n.children| then n.children[k] else NewNode(pattern[0]);
      FirstBound(n.children, pattern[0]);
      TouchChild(n, pattern);
      TouchMore(c, path[1..], pattern[1..], p);
      TouchChild(n, pattern + [p]);
      PutChild(n, pattern, path, pattern + [p], m.(children := m.children + [NewNode(p)]));
    }
  }

  lemma TouchNew(n: Node, p: Piece)
    requires FirstChild(n.children, p) == |n.children|
    ensures var n1 := n.(children := n.children + [NewNode(p)]);
            && Touch(n, [p]) == n1
            && InTree(n1, [|n.children|]) && Leads(n1, [|n.children|], [p])
            && NodeAt(n1, [|n.children|]) == NewNode(p)
  {
    hide FirstChild;
    assert [p][1..] == [] && [|n.children|][1..] == [];
    var children := n.children + [NewNode(p)];
    NewLabel(p);
    NoneBefore(n.children, p);
    FirstIs(children, p, |n.children|);
    assert InTree(NewNode(p), []) && Leads(NewNode(p), [], []);
  }

  lemma FirstBound(nodes: seq<Node>, p: Piece)
    ensures FirstChild(nodes, p) <= |nodes|
  {
  }

  lemma NoneBefore(nodes: seq<Node>, p: Piece)
    requires FirstChild(nodes, p) == |nodes|
    ensures forall i :: 0 <= i < |nodes| ==> Label(nodes[i]) != [p]
  {
  }

  /** The step of the induction: the change below the touched child is a change of the whole tree. */
  lemma PutChild(n: Node, pattern: seq<Piece>, path: seq<nat>, q: seq<Piece>, m: Node)
    requires pattern != [] && path != [] && q != [] && q[0] == pattern[0]
    requires var k := FirstChild(n.children, pattern[0]);
             var c := if k < |n.children| then n.children[k] else NewNode(pattern[0]);
             var t := Touch(n, pattern);
             && path[0] == k && k <= |n.children| && InTree(t, path)
             && k < |t.children| && t.children[k] == Touch(c, pattern[1..])
             && Put(Touch(c, pattern[1..]), path[1..], m) == Touch(c, q[1..])
    ensures Put(Touch(n, pattern), path, m) == Touch(n, q)
  {
    hide FirstChild, Touch;
    var k := FirstChild(n.children, pattern[0]);
    var c := if k < |n.children| then n.children[k] else NewNode(pattern[0]);
    var w := Touch(c, q[1..]);
    InsertIs(n, pattern, 0);
    InsertIs(n, q, 0);
    if k < |n.children| {
      assert n.children[k := Touch(c, pattern[1..])][k := w] == n.children[k := w];
    } else {
      assert (n.children + [Touch(c, pattern[1..])])[k := w] == n.children + [w];
    }
  }

  /** Writing the index at the end of the walk is inserting it. */
  lemma {:induction false} InsertTouch(n: Node, path: seq<nat>, pattern: seq<Piece>, index: nat)
    requires InTree(Touch(n, pattern), path) && Leads(Touch(n, pattern), path, pattern)
    ensures var t := Touch(n, pattern);
            var m := NodeAt(t, path);
            && Put(t, path, m.(rule := index)) == Insert(n, pattern, index)
            && m.rule == IndexOf(n, pattern) && (m.rule != 0 ==> t == n)
    decreases |pattern|
  {
    hide FirstChild;
    if pattern != [] {
      var k := FirstChild(n.children, pattern[0]);
      var c := if k < |n.children| then n.children[k] else NewNode(pattern[0]);
      FirstBound(n.children, pattern[0]);
      TouchChild(n, pattern);
      InsertTouch(c, path[1..], pattern[1..], index);
      if k == |n.children| { NoIndex(pattern[0], pattern[1..]); }
      InsertChild(n, pattern, path, index);
    }
  }

  lemma NoIndex(p: Piece, rest: seq<Piece>)
    ensures IndexOf(NewNode(p), rest) == 0
  {
  }

  lemma InsertChild(n: Node, pattern: seq<Piece>, path: seq<nat>, index: nat)
    requires pattern != [] && path != []
    requires var k := FirstChild(n.children, pattern[0]);
             var c := if k < |n.children| then n.children[k] else NewNode(pattern[0]);
             var t := Touch(n, pattern);
             && path[0] == k && k <= |n.children| && InTree(t, path)
             && k < |t.children| && t.children[k] == Touch(c, pattern[1..])
             && Put(Touch(c, pattern[1..]), path[1..], NodeAt(Touch(c, pattern[1..]), path[1..]).(rule := index))
                == Insert(c, pattern[1..], index)
    ensures var t := Touch(n, pattern);
            Put(t, path, NodeAt(t, path).(rule := index)) == Insert(n, pattern, index)
    ensures var k := FirstChild(n.children, pattern[0]);
            k < |n.children| && Touch(n.children[k], pattern[1..]) == n.children[k] ==> Touch(n, pattern) == n
  {
    hide FirstChild, Insert, Touch;
    var k := FirstChild(n.children, pattern[0]);
    var c := if k < |n.children| then n.children[k] else NewNode(pattern[0]);
    var w := Insert(c, pattern[1..], index);
    InsertIs(n, pattern, index);
    if k < |n.children| {
      assert n.children[k := Touch(c, pattern[1..])][k := w] == n.children[k := w];
      assert n.children[k := n.children[k]] == n.children;
    } else {
      assert (n.children + [Touch(c, pattern[1..])])[k := w] == n.children + [w];
    }
  }

  lemma InsertIs(n: Node, pattern: seq<Piece>, index: nat)
    requires pattern != []
    ensures FirstChild(n.children, pattern[0]) <= |n.children|
    ensures var k := FirstChild(n.children, pattern[0]);
            && Insert(n, pattern, index) == (
                 if k < |n.children| then n.(children := n.children[k := Insert(n.children[k], pattern[1..], index)])
                 else n.(children := n.children + [Insert(NewNode(pattern[0]), pattern[1..], index)]))
            && Touch(n, pattern) == (
                 if k < |n.children| then n.(children := n.children[k := Touch(n.children[k], pattern[1..])])
                 else n.(children := n.children + [Touch(NewNode(pattern[0]), pattern[1..])]))
  {
    hide FirstChild;
    FirstBound(n.children, pattern[0]);
  }

  // ---------------------------------------------------------------------------------------------
  // What inserting does to the rules

  /** `b` is `a` with the rule `r` somewhere. */
  ghost predicate Inserted(a: seq<Rule>, b: seq<Rule>, r: Rule) {
    exists j: nat :: j <= |a| && b == a[..j] + [r] + a[j..]
  }

  lemma InsertedPrefixed(front: seq<Piece>, a: seq<Rule>, b: seq<Rule>, r: Rule)
    requires Inserted(a, b, r)
    ensures Inserted(Prefixed(front, a), Prefixed(front, b), Rule(front + r.pattern, r.index))
  {
    var j: nat :| j <= |a| && b == a[..j] + [r] + a[j..];
    var pa, pb := Prefixed(front, a), Prefixed(front, b);
    assert pb == pa[..j] + [Rule(front + r.pattern, r.index)] + pa[j..];
  }

  lemma InsertedInside(x: seq<Rule>, a: seq<Rule>, b: seq<Rule>, y: seq<Rule>, r: Rule)
    requires Inserted(a, b, r)
    ensures Inserted(x + a + y, x + b + y, r)
  {
    var j: nat :| j <= |a| && b == a[..j] + [r] + a[j..];
    var whole := x + a + y;
    var i := |x| + j;
    assert whole[..i] == x + a[..j] && whole[i..] == a[j..] + y;
    assert x + b + y == whole[..i] + [r] + whole[i..];
  }

  lemma InsertedBag(a: seq<Rule>, b: seq<Rule>, r: Rule)
    requires Inserted(a, b, r)
    ensures multiset(b) == multiset(a) + multiset{r}
  {
    var j: nat :| j <= |a| && b == a[..j] + [r] + a[j..];
    assert a == a[..j] + a[j..];
  }

  /** A rule more, and no other change, when the pattern had none. */
  lemma {:induction false} InsertEntries(n: Node, pattern: seq<Piece>, index: nat)
    requires IndexOf(n, pattern) == 0 && index != 0
    ensures Inserted(Entries(n), Entries(Insert(n, pattern, index)), Rule(pattern, index))
    decreases |pattern|
  {
    hide EntriesOf, FirstChild;
    if pattern == [] {
      var a, b := Entries(n), Entries(n.(rule := index));
      assert b == a[..0] + [Rule([], index)] + a[0..];
    } else {
      hide Entries;
      var k := FirstChild(n.children, pattern[0]);
      FirstBound(n.children, pattern[0]);
      FirstLabel(n.children, pattern[0]);
      if k < |n.children| {
        InsertEntries(n.children[k], pattern[1..], index);
        InsertLabel(n.children[k], pattern[1..], index);
        InsertBelow(n, pattern, k, Insert(n.children[k], pattern[1..], index), index);
      } else {
        NoIndex(pattern[0], pattern[1..]);
        InsertEntries(NewNode(pattern[0]), pattern[1..], index);
        InsertLabel(NewNode(pattern[0]), pattern[1..], index);
        NewLabel(pattern[0]);
        NewEntries(pattern[0]);
        InsertNew(n, pattern, Insert(NewNode(pattern[0]), pattern[1..], index), index);
      }
    }
  }

  lemma FirstLabel(nodes: seq<Node>, p: Piece)
    ensures var k := FirstChild(nodes, p); k < |nodes| ==> Label(nodes[k]) == [p]
  {
  }

  lemma InsertLabel(n: Node, pattern: seq<Piece>, index: nat)
    ensures Label(Insert(n, pattern, index)) == Label(n)
  {
    hide FirstChild;
  }

  lemma NewEntries(p: Piece)
    ensures Entries(NewNode(p)) == []
  {
  }

  lemma InsertBelow(n: Node, pattern: seq<Piece>, k: nat, c: Node, index: nat)
    requires pattern != [] && k < |n.children| && Label(n.children[k]) == [pattern[0]] && Label(c) == [pattern[0]]
    requires Inserted(Entries(n.children[k]), Entries(c), Rule(pattern[1..], index))
    ensures Inserted(Entries(n), Entries(n.(children := n.children[k := c])), Rule(pattern, index))
  {
    hide Entries, Inserted, Label;
    var front := [pattern[0]];
    var c0 := n.children[k];
    var below, after := EntriesOf(n.children[..k]), EntriesOf(n.children[k + 1..]);
    assert front + pattern[1..] == pattern;
    InsertedPrefixed(front, Entries(c0), Entries(c), Rule(pattern[1..], index));
    var x := (if n.rule != 0 then [Rule([], n.rule)] else []) + below;
    InsertedInside(x, Prefixed(front, Entries(c0)), Prefixed(front, Entries(c)), after, Rule(pattern, index));
    EntriesAround(n, k, c0);
    EntriesAround(n, k, c);
    assert n.children[k := c0] == n.children;
    assert n.(children := n.children[k := c0]) == n;
  }

  lemma EntriesAround(n: Node, k: nat, c: Node)
    requires k < |n.children|
    ensures Entries(n.(children := n.children[k := c]))
         == (if n.rule != 0 then [Rule([], n.rule)] else []) + EntriesOf(n.children[..k])
            + Prefixed(Label(c), Entries(c)) + EntriesOf(n.children[k + 1..])
  {
    hide EntriesOf, Label;
    var children := n.children[k := c];
    EntriesSplit(children, k);
    assert children[..k] == n.children[..k] && children[k + 1..] == n.children[k + 1..];
    assert children == children[..k + 1] + children[k + 1..];
    EntriesAppend(children[..k + 1], children[k + 1..]);
  }

  lemma InsertNew(n: Node, pattern: seq<Piece>, c: Node, index: nat)
    requires pattern != [] && Label(c) == [pattern[0]]
    requires Inserted([], Entries(c), Rule(pattern[1..], index))
    ensures Inserted(Entries(n), Entries(n.(children := n.children + [c])), Rule(pattern, index))
  {
    hide Label, Entries, EntriesOf, Prefixed;
    var r := Rule(pattern, index);
    OneEntry(pattern, Entries(c), index);
    EntriesAppend(n.children, [c]);
    EntriesOne(c);
    HeadEntries(n);
    HeadEntries(n.(children := n.children + [c]));
    var a := Entries(n);
    Appended(a, Entries(n.(children := n.children + [c])), r);
  }

  lemma HeadEntries(n: Node)
    ensures Entries(n) == (if n.rule != 0 then [Rule([], n.rule)] else []) + EntriesOf(n.children)
  {
  }

  lemma OneEntry(pattern: seq<Piece>, rules: seq<Rule>, index: nat)
    requires pattern != [] && Inserted([], rules, Rule(pattern[1..], index))
    ensures Prefixed([pattern[0]], rules) == [Rule(pattern, index)]
  {
    assert rules == [Rule(pattern[1..], index)];
    assert [pattern[0]] + pattern[1..] == pattern;
  }

  lemma Appended(a: seq<Rule>, b: seq<Rule>, r: Rule)
    requires b == a + [r]
    ensures Inserted(a, b, r)
  {
    assert b == a[..|a|] + [r] + a[|a|..];
  }

  lemma {:induction false} AllSingleAt(nodes: seq<Node>, k: nat)
    requires AllSingle(nodes) && k < |nodes|
    ensures SingleLabel(nodes[k]) && Single(nodes[k])
  {
    hide Single, SingleLabel;
    if k > 0 { AllSingleAt(nodes[1..], k - 1); }
  }

  lemma {:induction false} AllSingleIf(nodes: seq<Node>)
    requires forall k :: 0 <= k < |nodes| ==> SingleLabel(nodes[k]) && Single(nodes[k])
    ensures AllSingle(nodes)
  {
    hide Single, SingleLabel;
    if nodes != [] { AllSingleIf(nodes[1..]); }
  }

  lemma {:induction false} SingleKeyed(nodes: seq<Node>)
    requires AllSingle(nodes)
    ensures AllKeyed(nodes)
    decreases nodes
  {
    if nodes != [] {
      SingleKeyed(nodes[0].children);
      SingleKeyed(nodes[1..]);
    }
  }

  lemma {:induction false} InsertSingle(n: Node, pattern: seq<Piece>, index: nat)
    requires Single(n)
    ensures Single(Insert(n, pattern, index))
    decreases |pattern|
  {
    hide FirstChild, SingleLabel, AllSingle;
    if pattern != [] {
      InsertIs(n, pattern, index);
      var k := FirstChild(n.children, pattern[0]);
      NewSingle(pattern[0]);
      if k < |n.children| { AllSingleAt(n.children, k); }
      var c := if k < |n.children| then n.children[k] else NewNode(pattern[0]);
      InsertSingle(c, pattern[1..], index);
      InsertKeeps(c, pattern[1..], index);
      var children := Insert(n, pattern, index).children;
      forall i | 0 <= i < |children| ensures SingleLabel(children[i]) && Single(children[i]) {
        if i != k { AllSingleAt(n.children, i); }
      }
      AllSingleIf(children);
    }
  }

  lemma InsertKeeps(n: Node, pattern: seq<Piece>, index: nat)
    ensures SingleLabel(Insert(n, pattern, index)) == SingleLabel(n)
  {
    hide FirstChild;
  }

  lemma NewSingle(p: Piece)
    ensures Single(NewNode(p)) && SingleLabel(NewNode(p))
  {
  }

  /** No two children of a node have the same label. */
  ghost predicate Distinct(n: Node)
    decreases n, 0
  {
    AllDistinct(n.children)
  }

  ghost predicate AllDistinct(nodes: seq<Node>)
    decreases nodes, 0
  {
    nodes == [] || ((forall k :: 1 <= k < |nodes| ==> Label(nodes[k]) != Label(nodes[0]))
                    && Distinct(nodes[0]) && AllDistinct(nodes[1..]))
  }

  lemma {:induction false} AllDistinctAt(nodes: seq<Node>, k: nat)
    requires AllDistinct(nodes) && k < |nodes|
    ensures Distinct(nodes[k]) && forall i :: 0 <= i < |nodes| && i != k ==> Label(nodes[i]) != Label(nodes[k])
  {
    hide Distinct, Label;
    if k > 0 {
      AllDistinctAt(nodes[1..], k - 1);
      forall i | 0 <= i < |nodes| && i != k ensures Label(nodes[i]) != Label(nodes[k]) {
        if i > 0 { assert nodes[i] == nodes[1..][i - 1]; }
      }
    }
  }

  lemma {:induction false} AllDistinctIf(nodes: seq<Node>)
    requires forall k :: 0 <= k < |nodes| ==> Distinct(nodes[k])
    requires forall i, k :: 0 <= i < k < |nodes| ==> Label(nodes[k]) != Label(nodes[i])
    ensures AllDistinct(nodes)
  {
    hide Distinct, Label;
    if nodes != [] { AllDistinctIf(nodes[1..]); }
  }

  lemma {:induction false} InsertDistinct(n: Node, pattern: seq<Piece>, index: nat)
    requires Distinct(n)
    ensures Distinct(Insert(n, pattern, index))
    decreases |pattern|
  {
    hide FirstChild, AllDistinct, Label;
    if pattern != [] {
      InsertIs(n, pattern, index);
      var k := FirstChild(n.children, pattern[0]);
      NewLabel(pattern[0]);
      NewDistinct(pattern[0]);
      if k < |n.children| { AllDistinctAt(n.children, k); } else { NoneBefore(n.children, pattern[0]); }
      var c := if k < |n.children| then n.children[k] else NewNode(pattern[0]);
      InsertDistinct(c, pattern[1..], index);
      InsertLabel(c, pattern[1..], index);
      var children := Insert(n, pattern, index).children;
      forall i | 0 <= i < |children| ensures Distinct(children[i]) {
        if i != k { AllDistinctAt(n.children, i); }
      }
      forall i, j | 0 <= i < j < |children| ensures Label(children[j]) != Label(children[i]) {
        if i != k { AllDistinctAt(n.children, i); }
      }
      AllDistinctIf(children);
    }
  }

  lemma NewDistinct(p: Piece)
    ensures Distinct(NewNode(p))
  {
  }

  /** The tree is a map from patterns to indices: a rule in it is the one its pattern leads to. */
  lemma {:induction false} EntryIndex(n: Node, r: Rule)
    requires Single(n) && Distinct(n) && r in Entries(n)
    ensures r.index != 0 && IndexOf(n, r.pattern) == r.index
    decreases n
  {
    hide FirstChild, Label, AllSingle, AllDistinct, EntriesOf, SingleLabel;
    if r != Rule([], n.rule) {
      var k, rest := EntryBelow(n.children, r);
      AllSingleAt(n.children, k);
      AllDistinctAt(n.children, k);
      EntryIndex(n.children[k], Rule(rest, r.index));
      OnePiece(n.children[k]);
      assert r.pattern[1..] == rest;
      FirstIs(n.children, r.pattern[0], k);
    } else {
      EmptyNotBelow(n.children, r);
    }
  }

  lemma OnePiece(n: Node)
    requires SingleLabel(n)
    ensures |Label(n)| == 1 && [Label(n)[0]] == Label(n)
  {
  }

  lemma {:induction false} EntryBelow(nodes: seq<Node>, r: Rule) returns (k: nat, rest: seq<Piece>)
    requires r in EntriesOf(nodes)
    ensures k < |nodes| && r.pattern == Label(nodes[k]) + rest && Rule(rest, r.index) in Entries(nodes[k])
  {
    hide Label, Entries;
    var first := Prefixed(Label(nodes[0]), Entries(nodes[0]));
    if r in first {
      var i :| 0 <= i < |first| && first[i] == r;
      k, rest := 0, Entries(nodes[0])[i].pattern;
    } else {
      k, rest := EntryBelow(nodes[1..], r);
      k := k + 1;
    }
  }

  lemma EmptyNotBelow(nodes: seq<Node>, r: Rule)
    requires r.pattern == [] && AllSingle(nodes)
    ensures r !in EntriesOf(nodes)
  {
    hide EntriesOf;
    SingleKeyed(nodes);
    KeyedPatterns(nodes);
  }

  lemma {:induction false} IndexEntry(n: Node, pattern: seq<Piece>)
    requires IndexOf(n, pattern) != 0
    ensures Rule(pattern, IndexOf(n, pattern)) in Entries(n)
    decreases |pattern|
  {
    hide FirstChild, Label, EntriesOf;
    if pattern != [] {
      var k := FirstChild(n.children, pattern[0]);
      FirstLabel(n.children, pattern[0]);
      IndexEntry(n.children[k], pattern[1..]);
      EntryIn(n.children, k, Rule(pattern[1..], IndexOf(n, pattern)));
      assert [pattern[0]] + pattern[1..] == pattern;
    }
  }

  lemma EntryIn(nodes: seq<Node>, k: nat, r: Rule)
    requires k < |nodes| && r in Entries(nodes[k])
    ensures Rule(Label(nodes[k]) + r.pattern, r.index) in EntriesOf(nodes)
  {
    hide Label, Entries, EntriesOf;
    var es := Entries(nodes[k]);
    var i :| 0 <= i < |es| && es[i] == r;
    assert Prefixed(Label(nodes[k]), es)[i] == Rule(Label(nodes[k]) + r.pattern, r.index);
    EntriesSplit(nodes, k);
    assert nodes == nodes[..k + 1] + nodes[k + 1..];
    EntriesAppend(nodes[..k + 1], nodes[k + 1..]);
  }
}
