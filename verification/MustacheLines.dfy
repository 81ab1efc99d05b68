/** Standalone lines: which of them are removed, and that the order in which the tags are dealt with does not matter. */
module MustacheLines {
  import opened Wrappers
  import opened MustacheTree
  import opened MustacheRender
  import opened MustacheParse
  import opened MustacheCompile

  /** The tag between these fragments stands on a line of its own: between the beginning of a line, or of the text,
      at `j`, and a line end, or the end of the text, at `k`, there are spaces and nothing else. */
  predicate OwnLine(body: string, before: Fragment, after: Fragment, isFirst: bool, isLast: bool, j: nat, k: nat) {
    && before.first <= j <= before.second <= |body| && after.first <= k <= after.second <= |body|
    && (forall i :: j <= i < before.second ==> body[i] == ' ') && (forall i :: after.first <= i < k ==> body[i] == ' ')
    && (if j == before.first then isFirst else body[j - 1] == '\n')
    && (if k == after.second then isLast else body[k] == '\n' || (body[k] == '\r' && k + 1 < |body| && body[k + 1] == '\n'))
  }

  /** Where the text goes on behind such a line; spaces at the end of the text stay. */
  function Behind(body: string, after: Fragment, k: nat): nat
    requires k < |body| || k >= after.second
  {
    if k == after.second then after.first else if k < |body| && body[k] == '\n' then k + 1 else k + 2
  }

  lemma OwnLineIs(body: string, before: Fragment, after: Fragment, isFirst: bool, isLast: bool, j: nat, k: nat)
    requires Ended(body, before) && Ended(body, after)
    ensures OwnLine(body, before, after, isFirst, isLast, j, k) <==>
              && Standalone(body, before, after, isFirst, isLast)
              && j == SpacesFrom(body, before.first, before.second) && k == SpacesTo(body, after.first, after.second)
  {
  }

  /** The last character of a fragment that is no space stops the scan before it gets to the end. */
  lemma SpacesToSame(body: string, from: nat, mid: nat, end: nat)
    requires from < mid <= end <= |body| && body[mid - 1] != ' '
    ensures SpacesTo(body, from, mid) == SpacesTo(body, from, end) < mid
  {
  }

  /** A fragment that ends with a line end loses none of its beginning by losing spaces at its end. */
  lemma SameAround(body: string, before: Fragment, after: Fragment, second: nat, isFirst: bool, isLast: bool)
    requires Ended(body, before) && Ended(body, after) && Ended(body, after.(second := second))
    requires second == after.second || (after.first < second <= after.second && body[second - 1] != ' ')
    ensures var x, y := Around(body, before, after, isFirst, isLast), Around(body, before, after.(second := second), isFirst, isLast);
            x.0 == y.0 && x.1.first == y.1.first
  {
    if second != after.second { SpacesToSame(body, after.first, second, after.second); }
  }

  /** The tag number `i` is no variable and stands on a line of its own. */
  ghost predicate Alone(body: string, f: seq<Fragment>, kinds: seq<ActionType>, i: nat, j: nat, k: nat)
    requires i + 1 < |f| == |kinds|
  {
    !kinds[i].Tag? && !kinds[i].UnescapeTag? && OwnLine(body, f[i], f[i + 1], i == 0, i == |f| - 2, j, k)
  }

  /** What becomes of the texts on the two sides of tag number `i`, told by the texts as they were. */
  ghost predicate Cut(body: string, f: seq<Fragment>, kinds: seq<ActionType>, g: seq<Fragment>, i: nat)
    requires i + 1 < |f| == |kinds| == |g|
  {
    && (forall j: nat, k: nat :: Alone(body, f, kinds, i, j, k) ==> g[i].second == j && g[i + 1].first == Behind(body, f[i + 1], k))
    && ((forall j: nat, k: nat :: !Alone(body, f, kinds, i, j, k)) ==>
          g[i].second == f[i].second && g[i + 1].first == f[i + 1].first)
  }

  lemma CutAround(body: string, f: seq<Fragment>, kinds: seq<ActionType>, g: seq<Fragment>, i: nat)
    requires AllInText(body, f) && i + 1 < |f| == |kinds| == |g|
    requires var x := if PutsOut(kinds[i]) then (f[i], f[i + 1]) else Around(body, f[i], f[i + 1], i == 0, i == |f| - 2);
             g[i].second == x.0.second && g[i + 1].first == x.1.first
    ensures Cut(body, f, kinds, g, i)
  {
    hide OwnLine, Around, Standalone;
    var before, after := f[i], f[i + 1];
    assert Ended(body, before) && Ended(body, after);
    var j, k := SpacesFrom(body, before.first, before.second), SpacesTo(body, after.first, after.second);
    forall j1: nat, k1: nat
      ensures Alone(body, f, kinds, i, j1, k1) ==> g[i].second == j1 && g[i + 1].first == Behind(body, f[i + 1], k1)
    {
      OwnLineIs(body, before, after, i == 0, i == |f| - 2, j1, k1);
      AroundTells(body, before, after, i == 0, i == |f| - 2);
    }
    if forall j1: nat, k1: nat :: !Alone(body, f, kinds, i, j1, k1) {
      assert !Alone(body, f, kinds, i, j, k);
      OwnLineIs(body, before, after, i == 0, i == |f| - 2, j, k);
      AroundTells(body, before, after, i == 0, i == |f| - 2);
    }
  }

  lemma AroundTells(body: string, before: Fragment, after: Fragment, isFirst: bool, isLast: bool)
    requires Ended(body, before) && Ended(body, after)
    ensures var x := Around(body, before, after, isFirst, isLast);
            if Standalone(body, before, after, isFirst, isLast) then
              && x.0.second == SpacesFrom(body, before.first, before.second)
              && x.1.first == Behind(body, after, SpacesTo(body, after.first, after.second))
            else x == (before, after)
  {
  }

  /** The pass from the last tag down to number `i`: every decision is one about the texts as they were. */
  lemma {:induction false} PassCuts(body: string, f: seq<Fragment>, kinds: seq<ActionType>, i: nat)
    requires AllInText(body, f) && i < |f| == |kinds|
    ensures var g := TrimFrom(body, f, kinds, i);
            && (forall n :: i <= n < |f| - 1 ==> Cut(body, f, kinds, g, n))
            && (forall n :: 0 <= n < i ==> g[n] == f[n]) && g[i].first == f[i].first
            && g[|f| - 1].second == f[|f| - 1].second
            && (g[i].second == f[i].second
                || (i > 0 && f[i].first < g[i].second <= f[i].second && body[g[i].second - 1] != ' ')
                || i == 0)
    decreases |f| - i
  {
    hide Around, Cut, Ended;
    if i < |f| - 1 {
      PassCuts(body, f, kinds, i + 1);
      var t, g := TrimFrom(body, f, kinds, i + 1), TrimFrom(body, f, kinds, i);
      assert t[i] == f[i] && t[i + 1].first == f[i + 1].first;
      assert Ended(body, f[i]) && Ended(body, f[i + 1]) && Ended(body, t[i + 1]);
      assert t[i + 1] == f[i + 1].(second := t[i + 1].second);
      SameAround(body, f[i], f[i + 1], t[i + 1].second, i == 0, i == |f| - 2);
      AroundEnds(body, f[i], t[i + 1], i == 0, i == |f| - 2);
      CutAround(body, f, kinds, g, i);
      forall n | i < n < |f| - 1 ensures Cut(body, f, kinds, g, n) {
        assert Cut(body, f, kinds, t, n);
        SameCut(body, f, kinds, t, g, n);
      }
    }
  }

  lemma SameCut(body: string, f: seq<Fragment>, kinds: seq<ActionType>, g: seq<Fragment>, h: seq<Fragment>, i: nat)
    requires i + 1 < |f| == |kinds| == |g| == |h| && Cut(body, f, kinds, g, i)
    requires g[i].second == h[i].second && g[i + 1].first == h[i + 1].first
    ensures Cut(body, f, kinds, h, i)
  {
    hide Alone;
  }

  lemma AroundEnds(body: string, before: Fragment, after: Fragment, isFirst: bool, isLast: bool)
    requires Ended(body, before) && Ended(body, after)
    ensures var x := Around(body, before, after, isFirst, isLast);
            && x.0.first == before.first && x.1.second == after.second
            && (x.0.second == before.second || isFirst
                || (before.first < x.0.second <= before.second && body[x.0.second - 1] != ' '))
  {
  }

  /** Exactly the tags that put nothing out and stand on a line of their own take this line with them; all others
      leave the texts around them alone.  Which these are is a matter of the template as it is written: what the pass
      has cut before makes no difference. */
  lemma LinesCut(body: string, i: nat)
    requires i + 1 < |FragmentsIn(body)|
    ensures |KindsIn(body)| == |TrimmedIn(body)| == |FragmentsIn(body)|
    ensures Cut(body, FragmentsIn(body), KindsIn(body), TrimmedIn(body), i)
  {
    hide TrimFrom, Cut, FragmentsIn, KindsIn, AllInText;
    PassCuts(body, FragmentsIn(body), KindsIn(body), 0);
  }
}
