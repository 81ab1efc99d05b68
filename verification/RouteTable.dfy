/** The rules of one method: their numbering, the redirect to a trailing slash, and which rule a url gets. */
module RouteTable {
  import opened Wrappers
  import opened RoutePattern
  import opened RouteTrie
  import opened RouteSearch

  const RULE_SPECIAL_REDIRECT_SLASH := 1

  datatype Answer = NotFound | Redirect | Handled(index: nat, params: Captured) | Corrupted

  predicate HasTrailingSlash(rule: string) {
    |rule| > 1 && rule[|rule| - 1] == '/'
  }

  /** A trailing slash is one behind something. */
  lemma TrailingSlash(rule: string)
    ensures HasTrailingSlash(rule) <==> exists p: string :: p != "" && rule == p + "/"
  {
    if HasTrailingSlash(rule) { assert rule == rule[..|rule| - 1] + "/"; }
  }

  /** What a rule adds to the trie: itself, and without its trailing slash the redirection. */
  function Registered(rule: string, index: nat): seq<Rule>
    requires Pieces(rule, 0).Some?
  {
    [Rule(Pieces(rule, 0).value, index)]
    + if HasTrailingSlash(rule) then [Rule(WithoutSlash(Pieces(rule, 0).value), RULE_SPECIAL_REDIRECT_SLASH)] else []
  }

  function WithoutSlash(pattern: seq<Piece>): seq<Piece> {
    if pattern == [] then [] else pattern[..|pattern| - 1]
  }

  lemma {:induction false} PiecesWithoutSlash(rule: string, i: nat)
    requires i < |rule| && rule[|rule| - 1] == '/' && Pieces(rule, i).Some?
    ensures Pieces(rule[..|rule| - 1], i) == Some(WithoutSlash(Pieces(rule, i).value))
    decreases |rule| - i
  {
    hide TagAt;
    var cut := rule[..|rule| - 1];
    if rule[i] == '<' {
      SameTag(rule, i, 0);
      var next := i + |TagAt(rule, i, 0).value.0|;
      PiecesEnd(rule, next);
      PiecesWithoutSlash(rule, next);
    } else if i + 1 < |rule| {
      PiecesWithoutSlash(rule, i + 1);
      PiecesEnd(rule, i + 1);
    } else {
      assert Pieces(rule, i + 1) == Some([]);
      assert [Lit('/')][..0] == [];
    }
  }

  lemma PiecesEnd(rule: string, i: nat)
    requires i < |rule| && Pieces(rule, i).Some?
    ensures Pieces(rule, i).value != []
    ensures forall p: Piece :: WithoutSlash([p] + Pieces(rule, i).value) == [p] + WithoutSlash(Pieces(rule, i).value)
  {
  }

  /** A tag ends in '>', so that it ends before a final slash. */
  lemma {:induction false} SameTag(rule: string, i: nat, k: nat)
    requires i < |rule| && rule[|rule| - 1] == '/' && k <= |TAGS|
    ensures TagAt(rule[..|rule| - 1], i, k) == TagAt(rule, i, k)
    ensures TagAt(rule, i, k).Some? ==> i + |TagAt(rule, i, k).value.0| < |rule|
    decreases |TAGS| - k
  {
    if k < |TAGS| {
      var tag := TAGS[k].0;
      assert tag[|tag| - 1] == '>';
      if i + |tag| == |rule| { assert rule[i..i + |tag|][|tag| - 1] == '/'; }
      if i + |tag| < |rule| { assert rule[..|rule| - 1][i..i + |tag|] == rule[i..i + |tag|]; }
      SameTag(rule, i, k + 1);
    }
  }

  ghost predicate SlashOf(rule: string, pattern: seq<Piece>) {
    HasTrailingSlash(rule) && Pieces(rule, 0).Some? && pattern == WithoutSlash(Pieces(rule, 0).value)
  }

  /** An index from 2 on is that of the rule whose pattern it is; index 1 belongs to a rule that ends in a
      slash. */
  ghost predicate Owned(rules: seq<string>, r: Rule) {
    && 1 <= r.index < |rules|
    && (r.index >= 2 ==> Pieces(rules[r.index], 0) == Some(r.pattern))
    && (r.index == 1 ==> exists k :: 2 <= k < |rules| && SlashOf(rules[k], r.pattern))
  }

  ghost predicate AllOwned(rules: seq<string>, added: seq<Rule>) {
    forall k :: 0 <= k < |added| ==> Owned(rules, added[k])
  }

  lemma OwnedMore(rules: seq<string>, rule: string, added: seq<Rule>)
    requires AllOwned(rules, added)
    ensures AllOwned(rules + [rule], added)
  {
    hide SlashOf;
    forall k | 0 <= k < |added| ensures Owned(rules + [rule], added[k]) {
      var r := added[k];
      assert Owned(rules, r);
      if r.index == 1 {
        var j :| 2 <= j < |rules| && SlashOf(rules[j], r.pattern);
        assert SlashOf((rules + [rule])[j], r.pattern);
      }
    }
  }

  ghost predicate Known(added: seq<Rule>, pattern: seq<Piece>) {
    exists k :: 0 <= k < |added| && added[k].pattern == pattern
  }

  /** The trie has an index for a pattern exactly when the pattern has been added. */
  lemma KnownIndex(n: Node, added: seq<Rule>, pattern: seq<Piece>)
    requires Single(n) && Distinct(n) && multiset(Entries(n)) == multiset(added)
    ensures IndexOf(n, pattern) != 0 <==> Known(added, pattern)
  {
    hide Single, Distinct, Entries, IndexOf;
    if IndexOf(n, pattern) != 0 {
      IndexEntry(n, pattern);
      var r := Rule(pattern, IndexOf(n, pattern));
      assert r in multiset(Entries(n));
      var k :| 0 <= k < |added| && added[k] == r;
    }
    if Known(added, pattern) {
      var k :| 0 <= k < |added| && added[k].pattern == pattern;
      assert added[k] in multiset(added);
      EntryIndex(n, added[k]);
    }
  }

  /** The order of the rules does not matter to which index is found. */
  lemma SameFirst(f: Strtod, a: seq<Rule>, b: seq<Rule>, url: string, r: Found)
    requires multiset(a) == multiset(b) && IsFirst(f, a, url, r)
    ensures IsFirst(f, b, url, r)
  {
    hide Match;
    forall k | 0 <= k < |b| ensures exists j :: 0 <= j < |a| && a[j] == b[k] {
      assert b[k] in multiset(b);
    }
    if r.index != 0 {
      var j :| 0 <= j < |a| && a[j].index == r.index && Match(f, a[j].pattern, url, At(0, NOTHING)) == Some(r.params);
      assert a[j] in multiset(a);
      var k :| 0 <= k < |b| && b[k] == a[j];
    } else {
      forall j | 0 <= j < |a| ensures exists k :: 0 <= k < |b| && b[k] == a[j] {
        assert a[j] in multiset(a);
      }
    }
  }

  class PerMethod {
    /** The texts of the rules by index; 0 and 1 are reserved. */
    var rules: seq<string>
    const trie: Trie
    /** What has been added to the trie, in order. */
    ghost var added: seq<Rule>

    ghost predicate Valid()
      reads this, trie
    {
      && |rules| >= 2 && Keyed(trie.head) && AllOwned(rules, added)
      && multiset(Entries(trie.head)) == multiset(added)
    }

    /** Rules can be added until the trie is optimized. */
    ghost predicate Open()
      reads this, trie
    {
      Valid() && Single(trie.head) && Distinct(trie.head)
    }

    constructor ()
      ensures Open() && added == [] && fresh(trie) && |rules| == 2
    {
      rules := ["", ""];
      trie := new Trie();
      added := [];
      new;
      NoEntries();
    }

    static lemma NoEntries()
      ensures Entries(EMPTY) == [] && Single(EMPTY) && Distinct(EMPTY) && Keyed(EMPTY)
    {
    }

    /** One `Trie::add`: it fails exactly when the pattern has been added before. */
    method AddPattern(text: string, index: nat) returns (ok: bool)
      requires Open() && Pieces(text, 0).Some? && !Misread(trie.head, Pieces(text, 0).value)
      requires Owned(rules, Rule(Pieces(text, 0).value, index))
      modifies this`added, trie
      ensures Open()
      ensures ok == !Known(old(added), Pieces(text, 0).value)
      ensures added == old(added) + if ok then [Rule(Pieces(text, 0).value, index)] else []
      ensures ok ==> trie.head == Insert(old(trie.head), Pieces(text, 0).value, index)
    {
      hide Entries, Insert, IndexOf, Single, Distinct, Owned, Pieces, Keyed, Inserted, Known, Misread;
      ghost var before := trie.head;
      ghost var pattern := Pieces(text, 0).value;
      ok := trie.Add(text, index);
      KnownIndex(before, added, pattern);
      if ok {
        PositiveIndex(rules, Rule(pattern, index));
        InsertEntries(before, pattern, index);
        InsertedBag(Entries(before), Entries(trie.head), Rule(pattern, index));
        InsertSingle(before, pattern, index);
        InsertDistinct(before, pattern, index);
        SingleIsKeyed(trie.head);
        added := added + [Rule(pattern, index)];
      }
    }

    static lemma SingleIsKeyed(n: Node)
      requires Single(n)
      ensures Keyed(n)
    {
      SingleKeyed(n.children);
    }

    static lemma PositiveIndex(rules: seq<string>, r: Rule)
      requires Owned(rules, r)
      ensures r.index != 0
    {
    }

    /** `internal_add_rule_object` for one method.  An exception leaves the part that was done. */
    method AddRule(rule: string) returns (ok: bool)
      requires Open() && Pieces(rule, 0).Some? && !Misread(trie.head, Pieces(rule, 0).value)
      modifies this, trie
      ensures Open() && rules == old(rules) + [rule]
      ensures ok == forall r :: r in Registered(rule, |old(rules)|) ==> !Known(old(added), r.pattern)
      ensures ok ==> added == old(added) + Registered(rule, |old(rules)|)
      ensures !ok ==> added == old(added) || added == old(added) + [Registered(rule, |old(rules)|)[0]]
    {
      hide Entries, Single, Distinct, Pieces, Keyed, AllOwned, WithoutSlash, Misread, Insert, Known, Owned;
      ghost var whole := Pieces(rule, 0).value;
      OwnedMore(rules, rule, added);
      rules := rules + [rule];
      assert Registered(rule, |rules| - 1)[0] == Rule(whole, |rules| - 1);
      LastOwned(rules);
      ghost var before, head := added, trie.head;
      ok := AddPattern(rule, |rules| - 1);
      if ok && HasTrailingSlash(rule) {
        var cut := rule[..|rule| - 1];
        PiecesWithoutSlash(rule, 0);
        CutOwned(rules);
        CutNotMisread(head, whole, |rules| - 1);
        ok := AddPattern(cut, RULE_SPECIAL_REDIRECT_SLASH);
        Shorter(rule);
        KnownMore(before, Rule(whole, |rules| - 1), WithoutSlash(whole));
        TwoRegistered(before, rule, |rules| - 1);
      }
    }

    static lemma LastOwned(rules: seq<string>)
      requires |rules| > 2 && Pieces(rules[|rules| - 1], 0).Some?
      ensures Owned(rules, Rule(Pieces(rules[|rules| - 1], 0).value, |rules| - 1))
    {
      hide Pieces;
    }

    static lemma CutOwned(rules: seq<string>)
      requires |rules| > 2 && Pieces(rules[|rules| - 1], 0).Some? && HasTrailingSlash(rules[|rules| - 1])
      ensures Owned(rules, Rule(WithoutSlash(Pieces(rules[|rules| - 1], 0).value), RULE_SPECIAL_REDIRECT_SLASH))
    {
      hide Pieces, WithoutSlash;
      var pattern := WithoutSlash(Pieces(rules[|rules| - 1], 0).value);
      assert SlashOf(rules[|rules| - 1], pattern);
    }

    static lemma TwoRegistered(before: seq<Rule>, rule: string, index: nat)
      requires Pieces(rule, 0).Some? && HasTrailingSlash(rule)
      ensures var cut := Rule(WithoutSlash(Pieces(rule, 0).value), RULE_SPECIAL_REDIRECT_SLASH);
              && Registered(rule, index) == [Rule(Pieces(rule, 0).value, index), cut]
              && before + [Rule(Pieces(rule, 0).value, index)] + [cut] == before + Registered(rule, index)
    {
      hide Pieces, WithoutSlash;
    }

    static lemma CutNotMisread(n: Node, pattern: seq<Piece>, index: nat)
      requires !Misread(n, pattern)
      ensures !Misread(Insert(n, pattern, index), WithoutSlash(pattern))
    {
      hide Insert, Misread;
      if pattern == [] {
        NothingMisread(Insert(n, [], index));
      } else {
        var k := |pattern| - 1;
        assert pattern == pattern[..k] + [pattern[k]];
        FrontNotMisread(n, pattern[..k], pattern[k], index);
      }
    }

    static lemma NothingMisread(n: Node)
      ensures !Misread(n, [])
    {
    }

    static lemma Shorter(rule: string)
      requires rule != "" && Pieces(rule, 0).Some?
      ensures WithoutSlash(Pieces(rule, 0).value) != Pieces(rule, 0).value
    {
      hide TagAt;
    }

    static lemma KnownMore(added: seq<Rule>, r: Rule, pattern: seq<Piece>)
      requires r.pattern != pattern
      ensures Known(added + [r], pattern) == Known(added, pattern)
    {
      if Known(added, pattern) {
        var k :| 0 <= k < |added| && added[k].pattern == pattern;
        assert (added + [r])[k].pattern == pattern;
      }
    }

    /** `validate`: a trie whose head is not simple is refused, any other is path-compressed. */
    method Validate() returns (ok: bool)
      requires Valid()
      modifies trie
      ensures Valid() && ok == IsSimple(old(trie.head)) && (ok ==> AllCompressed(trie.head.children))
    {
      hide Entries, Keyed, AllOwned, IsSimple, AllCompressed;
      ok := IsSimple(trie.head);
      if ok { trie.Optimize(); }
    }

    /** The rule for a url, before or after path compression: of all rules added that match it the one with
        the smallest index, with its own parameters.  The redirection comes before every rule. */
    method Handle(f: Strtod, url: string) returns (a: Answer)
      requires Valid()
      ensures a != Corrupted
      ensures a == NotFound <==> forall k :: 0 <= k < |added| ==> Match(f, added[k].pattern, url, At(0, NOTHING)).None?
      ensures a == Redirect <==> exists k :: 0 <= k < |added| && added[k].index == 1
                                             && Match(f, added[k].pattern, url, At(0, NOTHING)).Some?
      ensures a.Handled? ==>
                && 2 <= a.index < |rules| && Pieces(rules[a.index], 0).Some?
                && Match(f, Pieces(rules[a.index], 0).value, url, At(0, NOTHING)) == Some(a.params)
                && forall k :: 0 <= k < |added| && added[k].index < a.index ==>
                     Match(f, added[k].pattern, url, At(0, NOTHING)).None?
    {
      hide Entries, Keyed, Scan, Match, Pieces, SlashOf;
      var r := trie.Find(f, url);
      ghost var scan := Scan(f, Entries(trie.head), url, At(0, NOTHING), NONE);
      ScanFirst(f, Entries(trie.head), url);
      SameFirst(f, Entries(trie.head), added, url, scan);
      assert forall k :: 0 <= k < |added| ==> Owned(rules, added[k]);
      if r.index == 0 { return NotFound; }
      ghost var k :| 0 <= k < |added| && added[k].index == r.index
                     && Match(f, added[k].pattern, url, At(0, NOTHING)) == Some(r.params);
      if r.index >= |rules| { return Corrupted; }
      if r.index == RULE_SPECIAL_REDIRECT_SLASH { return Redirect; }
      a := Handled(r.index, r.params);
    }
  }
}
