/** The members of a parsed object: a growing array, sorted when a key is first looked for. */
module JsonLookup {
  import opened Wrappers

  // ---------------------------------------------------------------------------------------------
  // The order of keys

  /** The value of a byte as a signed character. */
  function Signed(c: char): int {
    if c as int < 128 then c as int else c as int - 0x20_0000
  }

  /** Bytes from 128 up come before all others, and in their own order. */
  lemma SignedOrder(c: char, d: char)
    requires c as int < 256 && d as int < 256
    ensures Signed(c) < Signed(d) <==> (c as int + 128) % 256 < (d as int + 128) % 256
  {
  }

  /** `std::lexicographical_compare` */
  predicate Less(a: string, b: string) {
    b != "" && (a == "" || Signed(a[0]) < Signed(b[0]) || (a[0] == b[0] && Less(a[1..], b[1..])))
  }

  lemma {:induction false} LessTotal(a: string, b: string)
    ensures Less(a, b) || Less(b, a) || a == b
    decreases |a|
  {
    if a != "" && b != "" && a[0] == b[0] {
      LessTotal(a[1..], b[1..]);
      if a[1..] == b[1..] { assert a == [a[0]] + a[1..] && b == [b[0]] + b[1..]; }
    }
  }

  lemma {:induction false} LessTransitive(a: string, b: string, c: string)
    requires Less(a, b) && Less(b, c)
    ensures Less(a, c)
    decreases |a|
  {
    if a != "" && a[0] == b[0] == c[0] { LessTransitive(a[1..], b[1..], c[1..]); }
  }

  lemma {:induction false} LessIrreflexive(a: string)
    ensures !Less(a, a)
    decreases |a|
  {
    if a != "" { LessIrreflexive(a[1..]); }
  }

  /** Not greater, as a sorted array has it between any two of its elements. */
  predicate NotAfter(a: string, b: string) {
    !Less(b, a)
  }

  lemma NotAfterTransitive(a: string, b: string, c: string)
    requires NotAfter(a, b) && NotAfter(b, c)
    ensures NotAfter(a, c)
  {
    if Less(c, a) {
      LessTotal(a, b);
      if Less(a, b) { LessTransitive(c, a, b); }
    }
  }

  datatype Entry<V> = Entry(key: string, value: V)

  predicate Sorted<V>(s: seq<Entry<V>>) {
    forall i, j :: 0 <= i < j < |s| ==> NotAfter(s[i].key, s[j].key)
  }

  /** `std::sort` by key: some sorted rearrangement. */
  method SortByKey<V(==)>(s: seq<Entry<V>>) returns (r: seq<Entry<V>>)
    ensures Sorted(r) && multiset(r) == multiset(s)
  {
    hide Less;
    r := [];
    var k := 0;
    while k < |s|
      invariant k <= |s| && Sorted(r) && multiset(r) == multiset(s[..k])
    {
      r := Place(r, s[k]);
      assert s[..k + 1] == s[..k] + [s[k]];
      k := k + 1;
    }
    assert s[..k] == s;
  }

  method Place<V(==)>(s: seq<Entry<V>>, e: Entry<V>) returns (r: seq<Entry<V>>)
    requires Sorted(s)
    ensures Sorted(r) && multiset(r) == multiset(s) + multiset{e}
  {
    hide Less;
    var k := |s|;
    while k > 0 && Less(e.key, s[k - 1].key)
      invariant 0 <= k <= |s| && forall j :: k <= j < |s| ==> Less(e.key, s[j].key)
    {
      k := k - 1;
    }
    r := s[..k] + [e] + s[k..];
    assert s == s[..k] + s[k..];
    forall i, j | 0 <= i < j < |r| ensures NotAfter(r[i].key, r[j].key) {
      Placed(s, e, k, i, j);
    }
  }

  lemma Placed<V>(s: seq<Entry<V>>, e: Entry<V>, k: nat, i: nat, j: nat)
    requires Sorted(s) && k <= |s| && i < j <= |s|
    requires k > 0 ==> !Less(e.key, s[k - 1].key)
    requires forall j :: k <= j < |s| ==> Less(e.key, s[j].key)
    ensures var r := s[..k] + [e] + s[k..]; NotAfter(r[i].key, r[j].key)
  {
    hide Less;
    if j == k {
      if i < k - 1 { NotAfterTransitive(s[i].key, s[k - 1].key, e.key); }
    } else if i == k {
      LessAsymmetric(e.key, s[j - 1].key);
    }
  }

  lemma LessAsymmetric(a: string, b: string)
    requires Less(a, b)
    ensures !Less(b, a)
  {
    if Less(b, a) {
      LessTransitive(a, b, a);
      LessIrreflexive(a);
    }
  }

  /** `std::lower_bound`: the first place whose key is not less than the given one. */
  method LowerBound<V>(s: seq<Entry<V>>, key: string) returns (k: nat)
    requires Sorted(s)
    ensures k <= |s| && (forall j :: 0 <= j < k ==> Less(s[j].key, key)) && (forall j :: k <= j < |s| ==> !Less(s[j].key, key))
  {
    hide Less;
    k := 0;
    var len := |s|;
    while len > 0
      invariant 0 <= len && k + len <= |s|
      invariant forall j :: 0 <= j < k ==> Less(s[j].key, key)
      invariant forall j :: k + len <= j < |s| ==> !Less(s[j].key, key)
    {
      var half := len / 2;
      if Less(s[k + half].key, key) {
        forall j | 0 <= j < k + half ensures Less(s[j].key, key) { BelowSmaller(s[j].key, s[k + half].key, key); }
        k := k + half + 1;
        len := len - half - 1;
      } else {
        forall j | k + half < j < |s| ensures !Less(s[j].key, key) {
          NotAfterTransitive(key, s[k + half].key, s[j].key);
        }
        len := half;
      }
    }
  }

  lemma BelowSmaller(a: string, b: string, key: string)
    requires NotAfter(a, b) && Less(b, key)
    ensures Less(a, key)
  {
    LessTotal(a, b);
    if Less(a, b) { LessTransitive(a, b, key); }
  }

  /** An object `rvalue` after parsing. */
  class ObjectValue<V(==)> {
    var members: seq<Entry<V>>
    var cached: bool

    predicate Valid()
      reads this
    {
      cached ==> Sorted(members)
    }

    constructor (members: seq<Entry<V>>)
      ensures Valid() && this.members == members && !cached
    {
      this.members := members;
      cached := false;
    }

    /** The copy constructor takes the bit along with the members. */
    constructor Copy(r: ObjectValue<V>)
      requires r.Valid()
      ensures Valid() && members == r.members && cached == r.cached
    {
      members := r.members;
      cached := r.cached;
    }

    method SortOnce()
      requires Valid()
      modifies this
      ensures Valid() && cached && multiset(members) == old(multiset(members))
      ensures old(cached) ==> members == old(members)
    {
      if !cached {
        members := SortByKey(members);
        cached := true;
      }
    }

    /** `has`: as a search through all members would answer. */
    method Has(key: string) returns (found: bool)
      requires Valid()
      modifies this
      ensures Valid() && multiset(members) == old(multiset(members))
      ensures found <==> exists e :: e in old(members) && e.key == key
    {
      hide Less, Sorted;
      SortOnce();
      SameMembers(members, old(members));
      var k := LowerBound(members, key);
      found := k < |members| && members[k].key == key;
      BoundTells(members, key, k);
    }

    /** `operator[]`: a member with the key, where there is one, and otherwise the exception. */
    method At(key: string) returns (r: Option<Entry<V>>)
      requires Valid()
      modifies this
      ensures Valid() && multiset(members) == old(multiset(members))
      ensures r.Some? <==> exists m :: m in old(members) && m.key == key
      ensures r.Some? ==> r.value in old(members) && r.value.key == key
    {
      hide Less, Sorted;
      SortOnce();
      SameMembers(members, old(members));
      var k := LowerBound(members, key);
      BoundTells(members, key, k);
      r := if k < |members| && members[k].key == key then Some(members[k]) else None;
    }

    static lemma SameMembers(a: seq<Entry<V>>, b: seq<Entry<V>>)
      requires multiset(a) == multiset(b)
      ensures forall e :: e in a <==> e in b
    {
      forall e ensures e in a <==> e in b { assert e in a <==> e in multiset(a); assert e in b <==> e in multiset(b); }
    }

    static lemma BoundTells(s: seq<Entry<V>>, key: string, k: nat)
      requires Sorted(s) && k <= |s|
      requires (forall j :: 0 <= j < k ==> Less(s[j].key, key)) && (forall j :: k <= j < |s| ==> !Less(s[j].key, key))
      ensures k < |s| && s[k].key == key <==> exists e :: e in s && e.key == key
    {
      hide Less;
      LessIrreflexive(key);
      if e :| e in s && e.key == key {
        var j :| 0 <= j < |s| && s[j] == e;
        LessTotal(s[k].key, key);
        assert NotAfter(s[k].key, s[j].key) || k == j;
      }
    }
  }

  // ---------------------------------------------------------------------------------------------
  // Growing

  const MAX_STEP := 60000
  const UINT16 := 0x1_0000

  /** The array of a list or an object while it is being read. */
  class Children<V(0)> {
    var l: array<V>
    var lsize: nat
    var lremain: nat

    predicate Valid()
      reads this, l
    {
      lsize + lremain == l.Length && lremain < UINT16
    }

    function Contents(): seq<V>
      requires Valid()
      reads this, l
    {
      l[..lsize]
    }

    constructor ()
      ensures Valid() && Contents() == [] && fresh(l)
    {
      l := new V[0];
      lsize, lremain := 0, 0;
    }

    /** `emplace_back` is plain append; what remains always fits its sixteen bits.  A full array becomes one for twice
        as many, for at least four and for at most 60000 more. */
    method EmplaceBack(v: V)
      requires Valid()
      modifies this, l
      ensures Valid() && Contents() == old(Contents()) + [v]
      ensures l == old(l) || fresh(l)
      ensures lremain < 0x1_0000
      ensures old(lremain) > 0 ==> l == old(l)
      ensures old(lremain) == 0 ==>
                var n := old(lsize); l.Length == if n < 2 then 4 else if n <= 60000 then 2 * n else n + 60000
    {
      if lremain == 0 {
        var size := lsize + lsize;
        if size - lsize > MAX_STEP { size := lsize + MAX_STEP; }
        if size < 4 { size := 4; }
        var p := new V[size];
        for k := 0 to lsize
          invariant lsize == old(lsize) && l == old(l) && l[..] == old(l[..]) && p[..k] == l[..k] && fresh(p)
          invariant p.Length == size
        {
          p[k] := l[k];
        }
        l := p;
        lremain := (size - lsize) % UINT16;
      }
      l[lsize] := v;
      lsize := lsize + 1;
      lremain := lremain - 1;
    }
  }
}
