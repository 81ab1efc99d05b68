/** The trie as an object: `add`, `optimize` and `find`. */
module RouteSearch {
  import opened Wrappers
  import opened RoutePattern
  import opened RouteTrie

  // ---------------------------------------------------------------------------------------------
  // Path compression

  predicate IsSimple(n: Node) {
    n.rule == 0 && |n.children| < 2 && n.param.None? && forall k :: 0 <= k < |n.children| ==> n.children[k].param.None?
  }

  /** Nothing is left to merge. */
  predicate Compressed(n: Node)
    decreases n, 0
  {
    (IsSimple(n) ==> n.children == []) && AllCompressed(n.children)
  }

  predicate AllCompressed(nodes: seq<Node>)
    decreases nodes, 0
  {
    nodes == [] || (Compressed(nodes[0]) && AllCompressed(nodes[1..]))
  }

  function NodeSize(n: Node): nat
    decreases n, 0
  {
    1 + SizeOf(n.children)
  }

  function SizeOf(nodes: seq<Node>): nat
    decreases nodes, 0
  {
    if nodes == [] then 0 else NodeSize(nodes[0]) + SizeOf(nodes[1..])
  }

  lemma {:induction false} SizeIn(nodes: seq<Node>, k: nat)
    requires k < |nodes|
    ensures NodeSize(nodes[k]) <= SizeOf(nodes)
  {
    hide NodeSize;
    if k > 0 { SizeIn(nodes[1..], k - 1); }
  }

  /** The rules that a node contributes to its parent. */
  function Below(n: Node): seq<Rule> {
    Prefixed(Label(n), Entries(n))
  }

  function Merged(n: Node): Node
    requires n.children != []
  {
    var child := n.children[0];
    Node(child.rule, n.key + child.key, n.param, child.children)
  }

  /** A simple node takes over its only child. */
  lemma MergeKeeps(n: Node)
    requires IsSimple(n) && n.children != [] && Label(n) != [] && Keyed(n)
    ensures Below(Merged(n)) == Below(n) && Label(Merged(n)) != [] && Keyed(Merged(n))
    ensures NodeSize(Merged(n)) < NodeSize(n)
  {
    var child := n.children[0];
    var es := Entries(child);
    assert n.children == [child];
    OneChild(child);
    assert Entries(n) == EntriesOf([child]);
    assert Label(Merged(n)) == Label(n) + Label(child);
    LabelTwice(Label(n), Label(child), es);
  }

  lemma OneChild(child: Node)
    ensures EntriesOf([child]) == Prefixed(Label(child), Entries(child))
    ensures AllKeyed([child]) == (Label(child) != [] && Keyed(child))
    ensures SizeOf([child]) == NodeSize(child)
  {
    hide Label, Keyed, Entries, NodeSize, Prefixed;
    assert [child][1..] == [];
    assert EntriesOf([]) == [] && AllKeyed([]) && SizeOf([]) == 0;
  }

  lemma LabelTwice(a: seq<Piece>, b: seq<Piece>, rules: seq<Rule>)
    ensures Prefixed(a, Prefixed(b, rules)) == Prefixed(a + b, rules)
  {
    forall k | 0 <= k < |rules| ensures a + (b + rules[k].pattern) == a + b + rules[k].pattern { }
  }

  lemma {:induction false} AllKeyedAt(nodes: seq<Node>, k: nat)
    requires AllKeyed(nodes) && k < |nodes|
    ensures Label(nodes[k]) != [] && Keyed(nodes[k])
  {
    hide Keyed, Label;
    if k > 0 { AllKeyedAt(nodes[1..], k - 1); }
  }

  /** Children replaced by ones that contribute the same rules. */
  ghost predicate Replaces(a: seq<Node>, b: seq<Node>) {
    |a| == |b| && forall k :: 0 <= k < |a| ==>
      Below(a[k]) == Below(b[k]) && a[k].param == b[k].param && Label(b[k]) != [] && Keyed(b[k])
  }

  lemma {:induction false} ReplacesEntries(a: seq<Node>, b: seq<Node>)
    requires Replaces(a, b)
    ensures EntriesOf(a) == EntriesOf(b) && AllKeyed(b)
  {
    hide Label, Entries, Keyed, Prefixed;
    if a != [] {
      assert Below(a[0]) == Below(b[0]);
      ReplacesEntries(a[1..], b[1..]);
    }
  }

  lemma {:induction false} AllCompressedIf(nodes: seq<Node>)
    requires forall k :: 0 <= k < |nodes| ==> Compressed(nodes[k])
    ensures AllCompressed(nodes)
  {
    hide Compressed;
    if nodes != [] { AllCompressedIf(nodes[1..]); }
  }

  /** `optimizeNode`: chains of literal nodes become one node with a longer key. */
  method OptimizeNode(node: Node) returns (r: Node)
    requires Keyed(node) && Label(node) != []
    ensures Below(r) == Below(node) && r.param == node.param && Label(r) != [] && Keyed(r) && Compressed(r)
    decreases NodeSize(node)
  {
    hide Label, Entries, Prefixed, NodeSize, Below, Compressed, Keyed;
    if node.children == [] {
      NoChildren(node);
      return node;
    }
    if IsSimple(node) {
      MergeKeeps(node);
      r := OptimizeNode(Merged(node));
    } else {
      var children := OptimizeAll(node);
      r := node.(children := children);
      OptimizedNode(node, children);
    }
  }

  lemma NoChildren(n: Node)
    requires n.children == []
    ensures Compressed(n)
  {
  }

  /** The loop over the children. */
  method OptimizeAll(node: Node) returns (children: seq<Node>)
    requires Keyed(node)
    ensures Replaces(node.children, children) && forall k :: 0 <= k < |children| ==> Compressed(children[k])
    decreases NodeSize(node), 0
  {
    hide Label, Entries, Prefixed, Compressed, Below, NodeSize, Keyed, SizeOf;
    children := node.children;
    var k := 0;
    while k < |node.children|
      invariant k <= |children| == |node.children|
      invariant forall j :: k <= j < |children| ==> children[j] == node.children[j]
      invariant Replaces(node.children[..k], children[..k]) && forall j :: 0 <= j < k ==> Compressed(children[j])
    {
      ChildOf(node, k);
      var c := OptimizeNode(children[k]);
      ReplacesMore(node.children, children, k, c);
      children := children[k := c];
      k := k + 1;
    }
    assert node.children[..k] == node.children && children[..k] == children;
  }

  lemma ReplacesMore(a: seq<Node>, b: seq<Node>, k: nat, c: Node)
    requires k < |a| == |b| && Replaces(a[..k], b[..k])
    requires Below(a[k]) == Below(c) && a[k].param == c.param && Label(c) != [] && Keyed(c)
    ensures Replaces(a[..k + 1], b[k := c][..k + 1])
  {
    hide Label, Entries, Prefixed, Below, Keyed;
    var b1 := b[k := c][..k + 1];
    forall j | 0 <= j < k + 1
      ensures Below(a[j]) == Below(b1[j]) && a[j].param == b1[j].param && Label(b1[j]) != [] && Keyed(b1[j])
    {
      if j < k { assert a[..k][j] == a[j] && b[..k][j] == b1[j]; }
    }
  }

  lemma ChildOf(n: Node, k: nat)
    requires Keyed(n) && k < |n.children|
    ensures Keyed(n.children[k]) && Label(n.children[k]) != [] && NodeSize(n.children[k]) < NodeSize(n)
  {
    AllKeyedAt(n.children, k);
    SizeIn(n.children, k);
  }

  lemma OptimizedNode(node: Node, children: seq<Node>)
    requires Keyed(node) && !IsSimple(node) && Replaces(node.children, children)
    requires forall k :: 0 <= k < |children| ==> Compressed(children[k])
    ensures var r := node.(children := children); Below(r) == Below(node) && Keyed(r) && Compressed(r) && Label(r) == Label(node)
  {
    hide EntriesOf, AllKeyed, AllCompressed, Prefixed;
    ReplacesEntries(node.children, children);
    AllCompressedIf(children);
    var r := node.(children := children);
    StillNotSimple(node, r);
  }

  lemma StillNotSimple(n: Node, r: Node)
    requires !IsSimple(n) && r.rule == n.rule && r.param == n.param && Replaces(n.children, r.children)
    ensures !IsSimple(r)
  {
    hide Below, Label, Keyed;
    if IsSimple(r) {
      forall k | 0 <= k < |n.children| ensures n.children[k].param.None? { assert r.children[k].param.None?; }
    }
  }

  // ---------------------------------------------------------------------------------------------
  // The trie

  // ---------------------------------------------------------------------------------------------
  // Which pattern is added

  /** The first child whose key begins with a NUL, as an empty key does: that of a parameter. */
  function FirstNul(children: seq<Node>): (k: nat)
    ensures k <= |children| && (k < |children| ==> KeyHead(children[k]) == '\0')
    ensures forall j :: 0 <= j < k ==> KeyHead(children[j]) != '\0'
  {
    if children == [] || KeyHead(children[0]) == '\0' then 0 else FirstNul(children[1..]) + 1
  }

  /** The piece that a child is taken for. */
  function PieceOf(n: Node, p: Piece): Piece {
    if p == Lit('\0') && n.param.Some? then Par(n.param.value) else p
  }

  /** The piece that `add` follows for the piece `p` of the text. */
  function Followed(children: seq<Node>, p: Piece): Piece {
    var k := FirstNul(children);
    if p == Lit('\0') && k < |children| then PieceOf(children[k], p) else p
  }

  /** The pattern that `add` follows in the tree. */
  function Walked(n: Node, pieces: seq<Piece>): seq<Piece>
    decreases |pieces|
  {
    if pieces == [] then []
    else
      var q := Followed(n.children, pieces[0]);
      var k := FirstChild(n.children, q);
      [q] + if k < |n.children| then Walked(n.children[k], pieces[1..]) else pieces[1..]
  }

  /** A parameter stands among the children before any literal NUL. */
  predicate ParameterFirst(children: seq<Node>) {
    exists j :: 0 <= j < |children| && children[j].param.Some?
                && forall i :: 0 <= i < j ==> children[i].param.None? && KeyHead(children[i]) != '\0'
  }

  /** Following the text in the tree, a NUL comes where a parameter stands first. */
  predicate Misread(n: Node, pieces: seq<Piece>)
    decreases |pieces|
  {
    pieces != []
    && if pieces[0] == Lit('\0') && ParameterFirst(n.children) then true
       else
         var k := FirstChild(n.children, pieces[0]);
         k < |n.children| && Misread(n.children[k], pieces[1..])
  }

  lemma FollowedIs(children: seq<Node>, p: Piece)
    requires AllSingle(children)
    ensures Followed(children, p) == p <==> !(p == Lit('\0') && ParameterFirst(children))
  {
    hide AllSingle;
    var k := FirstNul(children);
    forall j | 0 <= j < |children| ensures SingleLabel(children[j]) { AllSingleAt(children, j); }
    if p == Lit('\0') && ParameterFirst(children) {
      var j :| 0 <= j < |children| && children[j].param.Some?
               && forall i :: 0 <= i < j ==> children[i].param.None? && KeyHead(children[i]) != '\0';
      assert KeyHead(children[j]) == '\0';
      assert k == j;
    }
  }

  /** The pattern added is that of the text exactly when no NUL in it is taken for a parameter. */
  lemma {:induction false} WalkedIs(n: Node, pieces: seq<Piece>)
    requires Single(n)
    ensures Walked(n, pieces) == pieces <==> !Misread(n, pieces)
    decreases |pieces|
  {
    hide Followed, ParameterFirst, AllSingle, FirstChild;
    if pieces != [] {
      var p, rest := pieces[0], pieces[1..];
      assert AllSingle(n.children);
      FollowedIs(n.children, p);
      var q := Followed(n.children, p);
      var k := FirstChild(n.children, q);
      assert pieces == [p] + rest;
      if q == p && k < |n.children| {
        AllSingleAt(n.children, k);
        WalkedIs(n.children[k], rest);
        assert Walked(n, pieces) == [p] + Walked(n.children[k], rest);
        assert Walked(n, pieces)[1..] == Walked(n.children[k], rest);
      } else if q != p {
        assert Walked(n, pieces)[0] == q;
      }
    }
  }

  lemma InsertSame(n: Node, pattern: seq<Piece>, index: nat)
    ensures var m := Insert(n, pattern, index); m.param == n.param && m.key == n.key
  {
  }

  lemma NewNotMisread(p: Piece, pieces: seq<Piece>)
    ensures !Misread(NewNode(p), pieces)
  {
  }

  lemma ParameterKept(a: seq<Node>, b: seq<Node>)
    requires |a| <= |b| && forall i :: 0 <= i < |a| ==> b[i].param == a[i].param && b[i].key == a[i].key
    requires forall i :: |a| <= i < |b| ==> b[i].param.None?
    ensures ParameterFirst(a) <==> ParameterFirst(b)
  {
    if ParameterFirst(b) {
      var j :| 0 <= j < |b| && b[j].param.Some? && forall i :: 0 <= i < j ==> b[i].param.None? && KeyHead(b[i]) != '\0';
      assert forall i :: 0 <= i < j ==> a[i].param == b[i].param && KeyHead(a[i]) == KeyHead(b[i]);
    }
    if ParameterFirst(a) {
      var j :| 0 <= j < |a| && a[j].param.Some? && forall i :: 0 <= i < j ==> a[i].param.None? && KeyHead(a[i]) != '\0';
      assert forall i :: 0 <= i < j ==> b[i].param == a[i].param && KeyHead(b[i]) == KeyHead(a[i]);
    }
  }

  /** The children on the way that `Insert` takes: nothing changes about which of them is first. */
  lemma InsertStep(n: Node, pattern: seq<Piece>, index: nat)
    requires pattern != []
    ensures var p, m, k := pattern[0], Insert(n, pattern, index), FirstChild(n.children, pattern[0]);
            && k < |m.children| && FirstChild(m.children, p) == k
            && m.children[k] == Insert(if k < |n.children| then n.children[k] else NewNode(p), pattern[1..], index)
            && (p == Lit('\0') ==> (ParameterFirst(m.children) <==> ParameterFirst(n.children)))
  {
    hide Insert, FirstChild, ParameterFirst;
    var p, m, k := pattern[0], Insert(n, pattern, index), FirstChild(n.children, pattern[0]);
    var before := if k < |n.children| then n.children[k] else NewNode(p);
    InsertSame(before, pattern[1..], index);
    assert m.children == if k < |n.children| then n.children[k := Insert(before, pattern[1..], index)]
                         else n.children + [Insert(before, pattern[1..], index)] by { InsertIs(n, pattern, index); }
    assert Label(m.children[k]) == [p];
    assert forall i :: 0 <= i < k ==> m.children[i] == n.children[i];
    if p == Lit('\0') { ParameterKept(n.children, m.children); }
  }

  lemma InsertIs(n: Node, pattern: seq<Piece>, index: nat)
    requires pattern != []
    ensures var k := FirstChild(n.children, pattern[0]);
            Insert(n, pattern, index).children
            == if k < |n.children| then n.children[k := Insert(n.children[k], pattern[1..], index)]
               else n.children + [Insert(NewNode(pattern[0]), pattern[1..], index)]
  {
    hide FirstChild;
  }

  /** Once a pattern is inserted that was not misread, its beginning is not misread either. */
  lemma {:induction false} FrontNotMisread(n: Node, a: seq<Piece>, z: Piece, index: nat)
    requires !Misread(n, a + [z])
    ensures !Misread(Insert(n, a + [z], index), a)
    decreases |a|
  {
    hide Insert, FirstChild, ParameterFirst;
    if a != [] {
      var p, k := a[0], FirstChild(n.children, a[0]);
      assert (a + [z])[1..] == a[1..] + [z];
      InsertStep(n, a + [z], index);
      if k < |n.children| {
        FrontNotMisread(n.children[k], a[1..], z, index);
      } else {
        NewNotMisread(p, a[1..] + [z]);
        FrontNotMisread(NewNode(p), a[1..], z, index);
      }
    }
  }

  lemma {:induction false} NoNulWalked(n: Node, pieces: seq<Piece>)
    requires Lit('\0') !in pieces
    ensures Walked(n, pieces) == pieces
    decreases |pieces|
  {
    hide Followed, FirstChild;
    if pieces != [] {
      NotFollowed(n.children, pieces[0]);
      var k := FirstChild(n.children, pieces[0]);
      if k < |n.children| { NoNulWalked(n.children[k], pieces[1..]); }
      assert pieces == [pieces[0]] + pieces[1..];
    }
  }

  lemma NotFollowed(children: seq<Node>, p: Piece)
    requires p != Lit('\0')
    ensures Followed(children, p) == p
  {
  }

  lemma {:induction false} NoNulPieces(url: string, i: nat)
    requires i <= |url| && '\0' !in url && Pieces(url, i).Some?
    ensures Lit('\0') !in Pieces(url, i).value
    decreases |url| - i
  {
    hide TagAt;
    if i < |url| {
      NoNulPieces(url, if url[i] == '<' then i + |TagAt(url, i, 0).value.0| else i + 1);
    }
  }

  lemma {:induction false} WalkStep(n: Node, p: Piece, rest: seq<Piece>)
    ensures var q := Followed(n.children, p);
            var k := FirstChild(n.children, q);
            Walked(n, [p] + rest) == [q] + if k < |n.children| then Walked(n.children[k], rest) else rest
  {
    hide Followed, FirstChild;
    assert ([p] + rest)[0] == p && ([p] + rest)[1..] == rest;
  }

  lemma {:induction false} WalkedBare(p: Piece, rest: seq<Piece>)
    ensures Walked(NewNode(p), rest) == rest
  {
    if rest != [] { assert rest == [rest[0]] + rest[1..]; }
  }

  lemma {:induction false} NoNulChild(children: seq<Node>)
    requires |children| == 1 && children[0].param.Some?
    ensures FirstChild(children, Lit('\0')) == 1
  {
    assert children[1..] == [];
  }

  /** A tree with nothing but one parameter refuses the text of a single NUL, which nobody has added. */
  lemma NulTaken(t: ParamType, index: nat)
    requires index != 0
    ensures var n := Insert(EMPTY, [Par(t)], index);
            && Pieces("\0", 0) == Some([Lit('\0')])
            && Misread(n, [Lit('\0')]) && Walked(n, [Lit('\0')]) == [Par(t)]
            && IndexOf(n, [Par(t)]) == index && IndexOf(n, [Lit('\0')]) == 0
  {
    var n := Insert(EMPTY, [Par(t)], index);
    assert [Par(t)][1..] == [] && [Lit('\0')][1..] == [];
    assert Insert(NewNode(Par(t)), [], index) == Node(index, "", Some(t), []);
    assert n.children == EMPTY.children + [Insert(NewNode(Par(t)), [], index)] == [Node(index, "", Some(t), [])];
    assert Label(n.children[0]) == [Par(t)] != [Lit('\0')];
    assert n.children[0].param.Some?;
    assert Pieces("\0", 1) == Some([]);
    assert FirstChild(n.children, Par(t)) == 0;
    assert FirstNul(n.children) == 0 && Followed(n.children, Lit('\0')) == Par(t);
    assert Walked(n.children[0], []) == [];
    NoNulChild(n.children);
    WalkStep(n, Lit('\0'), []);
    assert [Lit('\0')] + [] == [Lit('\0')];
  }

  class Trie {
    var head: Node

    constructor ()
      ensures head == EMPTY
    {
      head := EMPTY;
    }

    /** `find` below a node: the linear search through the node's rules from this position on.  The shared
        parameters are as before on return. */
    method FindBelow(f: Strtod, url: string, node: Node, pos: nat, params: ParamStack) returns (r: Found)
      requires pos <= |url| && Keyed(node)
      modifies params
      ensures params.Value() == old(params.Value())
      ensures Agrees(r, Scan(f, Entries(node), url, At(pos, params.Value()), NONE))
      decreases node
    {
      hide Scan, Keyed, AllKeyed, Entries, EntriesOf, EatAll, Label;
      ghost var at := At(pos, params.Value());
      if pos == |url| {
        HeadAtEnd(f, node, url, at);
        return Found(node.rule, params.Value());
      }
      r := NONE;
      NoneScanned(f, node, url, at);
      var k := 0;
      while k < |node.children|
        invariant k <= |node.children| && params.Value() == at.params
        invariant r == Scan(f, EntriesOf(node.children[..k]), url, at, NONE)
      {
        var child := node.children[k];
        KeyedChild(node, k);
        var next := params.Enter(f, url, child, pos);
        ghost var sub := NONE;
        ghost var entered := params.Value();
        if next.Some? {
          var ret := FindBelow(f, url, child, next.value, params);
          sub := Scan(f, Entries(child), url, At(next.value, entered), NONE);
          BetterAgrees(r, ret, sub);
          r := Better(r, ret);
          params.Leave(child, at.params, f, url, pos);
        }
        ChildScanned(f, node, k, url, at);
        k := k + 1;
      }
      assert node.children[..k] == node.children;
      HeadInside(f, node, url, at);
    }

    /** `find`: compared with looking at every rule in turn. */
    method Find(f: Strtod, url: string) returns (r: Found)
      requires Keyed(head)
      ensures Agrees(r, Scan(f, Entries(head), url, At(0, NOTHING), NONE))
    {
      hide Scan, Keyed, Entries;
      var params := new ParamStack();
      r := FindBelow(f, url, head, 0, params);
    }

    /** `optimize` */
    method Optimize()
      requires Keyed(head)
      modifies this
      ensures Entries(head) == old(Entries(head)) && Keyed(head) && AllCompressed(head.children)
    {
      hide Keyed, Compressed, AllCompressed, EntriesOf, AllKeyed;
      var children := OptimizeAll(head);
      HeadReplaced(head, children);
      AllCompressedIf(children);
      head := head.(children := children);
    }

    /** `add`.  It fails exactly when the pattern has an index, and then changes nothing.  The pattern is that of
        the text unless a NUL in it is taken for a parameter. */
    method Add(url: string, index: nat) returns (ok: bool)
      requires Pieces(url, 0).Some? && Single(head)
      modifies this
      ensures var pattern := Walked(old(head), Pieces(url, 0).value);
              && (pattern == Pieces(url, 0).value <==> !Misread(old(head), Pieces(url, 0).value))
              && ('\0' !in url ==> pattern == Pieces(url, 0).value)
              && ok == (IndexOf(old(head), pattern) == 0)
              && head == if ok then Insert(old(head), pattern, index) else old(head)
    {
      hide FirstChild, Touch, Single, AllSingle, Leads, InTree, NodeAt, Put, Insert, IndexOf, NewNode, TagAt, Walked,
           Followed, Misread, Pieces, KeyHead, NodeAt;
      var path: seq<nat> := [];
      ghost var pattern: seq<Piece> := [];
      var i := 0;
      ghost var before, all := head, Pieces(url, 0).value;
      AtHead(head);
      WalkedText(head, url);
      while i < |url|
        invariant i <= |url| && Pieces(url, i).Some?
        invariant head == Touch(before, pattern) && InTree(head, path) && Leads(head, path, pattern)
        invariant AllSingle(NodeAt(head, path).children)
        invariant Walked(before, all) == pattern + Walked(NodeAt(head, path), Pieces(url, i).value)
      {
        var c := url[i];
        var p := Lit(c);
        var children := NodeAt(head, path).children;
        var k := 0;
        ghost var i0 := i;
        if c == '<' {
          TagKnown(url, i);
          var tag := TagAt(url, i, 0).value;
          p := Par(tag.1);
          while k < |children| && children[k].param != Some(tag.1)
            invariant k <= |children| && forall j :: 0 <= j < k ==> children[j].param != Some(tag.1)
          {
            k := k + 1;
          }
          i := i + |tag.0|;
        } else {
          while k < |children| && KeyHead(children[k]) != c
            invariant k <= |children| && forall j :: 0 <= j < k ==> KeyHead(children[j]) != c
          {
            k := k + 1;
          }
          i := i + 1;
        }
        ghost var q := Followed(children, p);
        PieceTaken(children, p, k);
        PieceRead(url, i0, p);
        path := Enter(path, k, p, before, pattern, q, Pieces(url, i).value);
        Associated(pattern, q, Walked(NodeAt(head, path), Pieces(url, i).value));
        pattern := pattern + [q];
      }
      NothingLeft(NodeAt(head, path), url);
      assert pattern + [] == pattern == Walked(before, all);
      InsertTouch(before, path, pattern, index);
      var m := NodeAt(head, path);
      ok := m.rule == 0;
      if ok { head := Put(head, path, m.(rule := index)); }
    }

    /** Into the child number `k`, which is made if it is missing. */
    method Enter(path: seq<nat>, k: nat, p: Piece, ghost before: Node, ghost pattern: seq<Piece>, ghost q: Piece,
                 ghost rest: seq<Piece>) returns (below: seq<nat>)
      requires head == Touch(before, pattern) && InTree(head, path) && Leads(head, path, pattern)
      requires var children := NodeAt(head, path).children;
               && AllSingle(children) && q == Followed(children, p) && FirstChild(children, q) == k <= |children|
               && (k == |children| ==> q == p)
      modifies this
      ensures head == Touch(before, pattern + [q]) && InTree(head, below) && Leads(head, below, pattern + [q])
      ensures AllSingle(NodeAt(head, below).children)
      ensures Walked(old(NodeAt(head, path)), [p] + rest) == [q] + Walked(NodeAt(head, below), rest)
    {
      hide FirstChild, Touch, Single, AllSingle, Leads, InTree, NodeAt, Put, NewNode, Walked, Followed, KeyHead;
      var m := NodeAt(head, path);
      WalkStep(m, p, rest);
      if k < |m.children| {
        Descend(head, path, pattern, q, k);
        TouchKnown(before, path, pattern, q);
        AllSingleAt(m.children, k);
        SingleBelow(m.children[k]);
        below := path + [k];
      } else {
        TouchMore(before, path, pattern, q);
        head := Put(head, path, m.(children := m.children + [NewNode(p)]));
        below := path + [|m.children|];
        NewSingle(q);
        SingleBelow(NewNode(q));
        WalkedBare(q, rest);
      }
    }
  }

  lemma Associated(a: seq<Piece>, q: Piece, b: seq<Piece>)
    ensures a + ([q] + b) == a + [q] + b
  {
  }

  lemma WalkedText(n: Node, url: string)
    requires Single(n) && Pieces(url, 0).Some?
    ensures var all := Pieces(url, 0).value;
            && (Walked(n, all) == all <==> !Misread(n, all)) && ('\0' !in url ==> Walked(n, all) == all)
  {
    hide Single, Walked, Misread, Pieces;
    WalkedIs(n, Pieces(url, 0).value);
    if '\0' !in url {
      NoNulPieces(url, 0);
      NoNulWalked(n, Pieces(url, 0).value);
    }
  }

  lemma AtHead(n: Node)
    requires Single(n)
    ensures Touch(n, []) == n && InTree(n, []) && Leads(n, [], []) && NodeAt(n, []) == n && AllSingle(n.children)
  {
  }

  lemma SingleBelow(n: Node)
    requires Single(n)
    ensures AllSingle(n.children)
  {
  }

  /** The search among the children finds the first one with the label of the piece that is followed. */
  lemma PieceTaken(children: seq<Node>, p: Piece, k: nat)
    requires AllSingle(children) && k <= |children|
    requires p.Par? ==> (forall j :: 0 <= j < k ==> children[j].param != Some(p.t))
                        && (k < |children| ==> children[k].param == Some(p.t))
    requires p.Lit? ==> (forall j :: 0 <= j < k ==> KeyHead(children[j]) != p.c)
                        && (k < |children| ==> KeyHead(children[k]) == p.c)
    ensures FirstChild(children, Followed(children, p)) == k
    ensures k == |children| ==> Followed(children, p) == p
  {
    hide AllSingle, FirstChild, Single;
    if p == Lit('\0') { FirstNulIs(children, k); }
    var q := if k < |children| then PieceOf(children[k], p) else p;
    if k < |children| {
      AllSingleAt(children, k);
      LabelIs(children[k], p);
      OnePiece(children[k]);
      forall j | 0 <= j < k ensures Label(children[j]) != [q] {
        AllSingleAt(children, j);
        LabelIs(children[j], p);
        LabelIs(children[j], q);
        LabelIs(children[k], p);
      }
      FirstIs(children, q, k);
    } else {
      forall j | 0 <= j < k ensures Label(children[j]) != [p] {
        AllSingleAt(children, j);
        LabelIs(children[j], p);
      }
      NotFound(children, p);
    }
  }

  lemma {:induction false} FirstNulIs(children: seq<Node>, k: nat)
    requires k <= |children| && (forall j :: 0 <= j < k ==> KeyHead(children[j]) != '\0')
    requires k < |children| ==> KeyHead(children[k]) == '\0'
    ensures FirstNul(children) == k
  {
    if k > 0 { FirstNulIs(children[1..], k - 1); }
  }

  lemma LabelIs(n: Node, p: Piece)
    requires SingleLabel(n)
    ensures p.Par? ==> (Label(n) == [p] <==> n.param == Some(p.t))
    ensures p.Lit? && p.c != '\0' ==> (Label(n) == [p] <==> KeyHead(n) == p.c)
    ensures p.Lit? && Label(n) == [p] ==> KeyHead(n) == p.c
  {
    if n.param.None? { assert Lits(n.key)[0] == Lit(n.key[0]); }
  }

  lemma {:induction false} NotFound(nodes: seq<Node>, p: Piece)
    requires forall j :: 0 <= j < |nodes| ==> Label(nodes[j]) != [p]
    ensures FirstChild(nodes, p) == |nodes|
  {
    if nodes != [] { NotFound(nodes[1..], p); }
  }

  lemma TagKnown(url: string, i: nat)
    requires i < |url| && Pieces(url, i).Some? && url[i] == '<'
    ensures TagAt(url, i, 0).Some?
  {
    hide TagAt;
  }

  lemma NothingLeft(n: Node, url: string)
    ensures Pieces(url, |url|) == Some([]) && Walked(n, []) == []
  {
  }

  lemma PieceRead(url: string, i: nat, p: Piece)
    requires i < |url| && Pieces(url, i).Some?
    requires p == if url[i] == '<' then Par(TagAt(url, i, 0).value.1) else Lit(url[i])
    ensures var next := if url[i] == '<' then i + |TagAt(url, i, 0).value.0| else i + 1;
            && next <= |url| && Pieces(url, next).Some?
            && Pieces(url, i).value == [p] + Pieces(url, next).value
  {
    hide TagAt;
  }

  // ---------------------------------------------------------------------------------------------
  // Steps of the search

  lemma KeyedChild(n: Node, k: nat)
    requires Keyed(n) && k < |n.children|
    ensures Keyed(n.children[k])
  {
    AllKeyedAt(n.children, k);
  }

  lemma HeadAtEnd(f: Strtod, n: Node, url: string, at: At)
    requires at.pos == |url| && Keyed(n)
    ensures Agrees(Found(n.rule, at.params), Scan(f, Entries(n), url, at, NONE))
  {
    hide Scan, Entries, EntriesOf;
    HeadEntries(n);
    KeyedPatterns(n.children);
    var h := if n.rule != 0 then [Rule([], n.rule)] else [];
    ScanAppend(f, h, EntriesOf(n.children), url, at, NONE);
    if n.rule != 0 {
      ScanOne(f, h[0], url, at, NONE);
      assert Match(f, [], url, at) == Some(at.params);
    } else {
      ScanNothing(f, url, at);
    }
    ScanAtEnd(f, EntriesOf(n.children), url, at, Scan(f, h, url, at, NONE));
  }

  lemma HeadInside(f: Strtod, n: Node, url: string, at: At)
    requires at.pos < |url|
    ensures Scan(f, Entries(n), url, at, NONE) == Scan(f, EntriesOf(n.children), url, at, NONE)
  {
    hide Scan, Entries, EntriesOf;
    HeadEntries(n);
    var h := if n.rule != 0 then [Rule([], n.rule)] else [];
    ScanAppend(f, h, EntriesOf(n.children), url, at, NONE);
    if n.rule != 0 {
      ScanOne(f, h[0], url, at, NONE);
      assert Match(f, [], url, at) == None;
    } else {
      ScanNothing(f, url, at);
    }
  }

  lemma NoneScanned(f: Strtod, n: Node, url: string, at: At)
    requires at.pos <= |url|
    ensures Scan(f, EntriesOf(n.children[..0]), url, at, NONE) == NONE
  {
    assert n.children[..0] == [];
  }

  lemma BetterAgrees(acc: Found, ret: Found, sub: Found)
    requires Agrees(ret, sub)
    ensures Better(acc, ret) == Better(acc, sub)
  {
  }

  /** One more child searched. */
  lemma ChildScanned(f: Strtod, n: Node, k: nat, url: string, at: At)
    requires k < |n.children| && at.pos <= |url|
    ensures var acc := Scan(f, EntriesOf(n.children[..k]), url, at, NONE);
            var m := EatAll(f, Label(n.children[k]), url, at);
            Scan(f, EntriesOf(n.children[..k + 1]), url, at, NONE)
            == if m.None? then acc else Better(acc, Scan(f, Entries(n.children[k]), url, m.value, NONE))
  {
    hide Scan, Entries, EntriesOf, EatAll, Label, Better;
    var child := n.children[k];
    EntriesSplit(n.children, k);
    var acc := Scan(f, EntriesOf(n.children[..k]), url, at, NONE);
    ScanAppend(f, EntriesOf(n.children[..k]), Prefixed(Label(child), Entries(child)), url, at, NONE);
    ScanPrefixed(f, Label(child), Entries(child), url, at, acc);
    var m := EatAll(f, Label(child), url, at);
    if m.Some? { ScanBetter(f, Entries(child), url, m.value, acc); }
  }

  lemma HeadReplaced(n: Node, children: seq<Node>)
    requires Replaces(n.children, children)
    ensures Entries(n.(children := children)) == Entries(n) && Keyed(n.(children := children))
  {
    hide EntriesOf, AllKeyed;
    ReplacesEntries(n.children, children);
  }
}
