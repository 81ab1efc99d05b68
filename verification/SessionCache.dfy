/** The session middleware over `InMemoryStore`: requests share cached sessions, and the store's `load` moves the
    data out.  Every operation, in whatever order the operations of concurrent requests come, is that of a plain
    map from ids to entries. */
module SessionCache {
  import opened Wrappers

  type Id = string
  type Entries = map<string, string>
  type Request = nat

  // ---------------------------------------------------------------------------------------------
  // The plain machine

  /** What a request sees: no session, a stored one that it shares with others, or one that is not stored yet. */
  datatype View = Nothing | Attached(id: Id) | Draft(entries: Entries)

  datatype Plain = Plain(content: map<Id, Entries>, views: map<Request, View>)

  function Begun(p: Plain, r: Request, id: Id): Plain {
    p.(views := p.views[r := if id in p.content then Attached(id) else Nothing])
  }

  /** Only the session that the request sees changes. */
  function Changed(p: Plain, r: Request, change: Entries -> Entries): Plain
    requires r in p.views && (p.views[r].Attached? ==> p.views[r].id in p.content)
  {
    match p.views[r]
    case Attached(id) => p.(content := p.content[id := change(p.content[id])])
    case Draft(entries) => p.(views := p.views[r := Draft(change(entries))])
    case Nothing => p.(views := p.views[r := Draft(change(map[]))])
  }

  /** Without a session there is nothing to remove, and none is made. */
  function Removed(p: Plain, r: Request, key: string): Plain
    requires r in p.views && (p.views[r].Attached? ==> p.views[r].id in p.content)
  {
    if p.views[r].Nothing? then p else Changed(p, r, (e: Entries) => e - {key})
  }

  /** The end of a request that sees an unstored session stores it under a new id; nothing else changes. */
  function Ended(p: Plain, r: Request, generated: Id): Plain
    requires r in p.views
  {
    Plain(if p.views[r].Draft? then p.content[generated := p.views[r].entries] else p.content, p.views - {r})
  }

  /** What a request sees of a key. */
  function Seen(p: Plain, r: Request, key: string): Option<string>
    requires r in p.views && (p.views[r].Attached? ==> p.views[r].id in p.content)
  {
    match p.views[r]
    case Nothing => None
    case Draft(entries) => if key in entries then Some(entries[key]) else None
    case Attached(id) => if key in p.content[id] then Some(p.content[id][key]) else None
  }

  // ---------------------------------------------------------------------------------------------
  // Runs of the plain machine

  /** The steps of concurrent requests, in the order in which they take effect. */
  datatype Op =
    | Begin(r: Request, id: Id)
    | Change(r: Request, change: Entries -> Entries)
    | Remove(r: Request, key: string)
    | End(r: Request, generated: Id)

  /** A request begins once and ends once, and a generated id is new. */
  predicate Allowed(p: Plain, op: Op) {
    match op
    case Begin(r, _) => r !in p.views
    case Change(r, _) => r in p.views
    case Remove(r, _) => r in p.views
    case End(r, generated) => r in p.views && generated != "" && generated !in p.content
  }

  /** A session that a request shares exists. */
  predicate Grounded(p: Plain) {
    forall r :: r in p.views && p.views[r].Attached? ==> p.views[r].id in p.content
  }

  function Next(p: Plain, op: Op): (q: Plain)
    requires Grounded(p) && Allowed(p, op)
    ensures Grounded(q) && p.content.Keys <= q.content.Keys
  {
    match op
    case Begin(r, id) => Begun(p, r, id)
    case Change(r, change) => Changed(p, r, change)
    case Remove(r, key) => Removed(p, r, key)
    case End(r, generated) => Ended(p, r, generated)
  }

  /** Where a run leads, if every step of it is allowed. */
  function Run(p: Plain, ops: seq<Op>): Option<Plain>
    requires Grounded(p)
    decreases |ops|
  {
    if |ops| == 0 then Some(p)
    else if !Allowed(p, ops[0]) then None
    else Run(Next(p, ops[0]), ops[1..])
  }

  /** What an operation of a request makes of the entries of the session that it sees. */
  function Effect(op: Op, e: Entries): Entries {
    match op
    case Change(_, change) => change(e)
    case Remove(_, key) => e - {key}
    case _ => e
  }

  /** The changes that a run makes to the session `id`, one after the other, beginning with the entries `e`. */
  function Net(p: Plain, ops: seq<Op>, id: Id, e: Entries): Entries
    requires Grounded(p) && Run(p, ops).Some?
    decreases |ops|
  {
    if |ops| == 0 then e
    else
      var mine := ops[0].r in p.views && p.views[ops[0].r] == Attached(id);
      Net(Next(p, ops[0]), ops[1..], id, if mine then Effect(ops[0], e) else e)
  }

  /** No session data is lost over any run: the entries of a session are what the changes made through it, by any
      number of requests, make of the entries it had.  Beginning and ending requests changes nothing. */
  lemma {:induction false} NothingLost(p: Plain, ops: seq<Op>, id: Id)
    requires Grounded(p) && Run(p, ops).Some? && id in p.content
    ensures var q := Run(p, ops).value;
            id in q.content && q.content[id] == Net(p, ops, id, p.content[id])
    decreases |ops|
  {
    if |ops| > 0 {
      NothingLost(Next(p, ops[0]), ops[1..], id);
    }
  }

  // ---------------------------------------------------------------------------------------------
  // What requests see of one another

  function Under(e: Entries, key: string): Option<string> {
    if key in e then Some(e[key]) else None
  }

  /** The request `q` is `r`, or has the same stored session. */
  predicate Together(p: Plain, r: Request, q: Request)
    requires r in p.views && q in p.views
  {
    q == r || (p.views[r].Attached? && p.views[q] == p.views[r])
  }

  /** A change is seen by the request itself and by those that share its session, and by no other. */
  lemma SeenAfter(p: Plain, r: Request, q: Request, change: Entries -> Entries, key: string)
    requires Grounded(p) && r in p.views && q in p.views
    ensures var t := Changed(p, r, change);
            && Grounded(t) && q in t.views
            && Seen(t, q, key) == (if !Together(p, r, q) then Seen(p, q, key)
                                   else Under(change(match p.views[r]
                                                     case Nothing => map[]
                                                     case Draft(e) => e
                                                     case Attached(id) => p.content[id]), key))
  {
  }

  /** After `set` a request gets the value that was set, under every other key what it got before. */
  lemma SeenAfterSet(p: Plain, r: Request, q: Request, key: string, value: string, other: string)
    requires Grounded(p) && r in p.views && q in p.views
    ensures var t := Changed(p, r, (e: Entries) => e[key := value]);
            && Grounded(t) && q in t.views
            && Seen(t, q, other) == (if Together(p, r, q) && other == key then Some(value) else Seen(p, q, other))
  {
    SeenAfter(p, r, q, (e: Entries) => e[key := value], other);
  }

  /** After `apply` it gets what the function makes of the value it would have got. */
  lemma SeenAfterApply(p: Plain, r: Request, q: Request, key: string, f: Option<string> -> string, other: string)
    requires Grounded(p) && r in p.views && q in p.views
    ensures var t := Changed(p, r, (e: Entries) => e[key := f(if key in e then Some(e[key]) else None)]);
            && Grounded(t) && q in t.views
            && Seen(t, q, other) == (if Together(p, r, q) && other == key then Some(f(Seen(p, r, key))) else Seen(p, q, other))
  {
    SeenAfter(p, r, q, (e: Entries) => e[key := f(if key in e then Some(e[key]) else None)], other);
  }

  /** After `remove` it gets nothing. */
  lemma SeenAfterRemove(p: Plain, r: Request, q: Request, key: string, other: string)
    requires Grounded(p) && r in p.views && q in p.views
    ensures var t := Removed(p, r, key);
            && Grounded(t) && q in t.views
            && Seen(t, q, other) == (if Together(p, r, q) && other == key then None else Seen(p, q, other))
  {
    if !p.views[r].Nothing? { SeenAfter(p, r, q, (e: Entries) => e - {key}, other); }
  }

  /** The id with which a later request would come back to what `r` sees; its end may make that id. */
  function IdFor(p: Plain, r: Request, generated: Id): Id
    requires r in p.views
  {
    if p.views[r].Attached? then p.views[r].id else generated
  }

  /** A request that begins after another has ended, with the id of that one's session, sees what it saw; with
      an id that is not stored it sees nothing.  The requests that are still open see what they saw. */
  lemma SeenLater(p: Plain, r: Request, q: Request, id: Id, generated: Id, key: string)
    requires Grounded(p) && r in p.views && q !in p.views && generated != "" && generated !in p.content
    ensures var t := Begun(Ended(p, r, generated), q, id);
            && Grounded(t) && q in t.views
            && (!p.views[r].Nothing? && id == IdFor(p, r, generated) ==> Seen(t, q, key) == Seen(p, r, key))
            && (id !in p.content && (id == generated ==> !p.views[r].Draft?) ==> Seen(t, q, key) == None)
            && forall x :: x in p.views && x != r ==> x in t.views && Seen(t, x, key) == Seen(p, x, key)
  {
  }

  // ---------------------------------------------------------------------------------------------
  // The middleware

  /** `CachedSession` */
  datatype Session = Session(sessionId: Id, requestedSessionId: Id, entries: Entries, dirty: set<string>,
                             requestedRefresh: bool, referrers: int)

  /** `std::make_shared<CachedSession>()` value-initializes: no id, and no referrers. */
  const NEW_SESSION := Session("", "", map[], {}, false, 0)

  /** What a shared pointer points to. */
  type Handle = nat

  /** The cache, the entries of `InMemoryStore`, the sessions behind the shared pointers, and the pointer in the
      context of each request between `before_handle` and `after_handle`; `holders` are the requests that hold a
      session. */
  datatype State = State(cache: map<Id, Handle>, store: map<Id, Entries>, nodes: map<Handle, Session>,
                         contexts: map<Request, Option<Handle>>, holders: map<Handle, set<Request>>, next: Handle)

  ghost predicate Valid(s: State) {
    && "" !in s.store && s.cache.Keys <= s.store.Keys
    && (forall h :: h in s.nodes ==> h < s.next)
    && (forall id :: id in s.cache ==> CacheOk(s, id, s.cache[id]))
    && (forall r :: r in s.contexts && s.contexts[r].Some? ==> HeldOk(s, r, s.contexts[r].value))
  }

  /** A cached session is that of its id, and counts the open requests that hold it. */
  ghost predicate CacheOk(s: State, id: Id, h: Handle) {
    && h in s.nodes && h in s.holders && s.nodes[h].sessionId == id
    && s.nodes[h].referrers == |s.holders[h]| && s.holders[h] != {}
    && forall r :: r in s.holders[h] ==> r in s.contexts && s.contexts[r] == Some(h)
  }

  /** A session that a request holds is the cached one of its id, or has no id and is that request's own. */
  ghost predicate HeldOk(s: State, r: Request, h: Handle) {
    && h in s.nodes && h in s.holders && r in s.holders[h]
    && s.nodes[h].requestedSessionId == "" && !s.nodes[h].requestedRefresh
    && if s.nodes[h].sessionId == "" then s.nodes[h].referrers == 0 && s.holders[h] == {r}
       else s.nodes[h].sessionId in s.cache && s.cache[s.nodes[h].sessionId] == h
  }

  /** What an id logically holds: the cached entries where there are any, and otherwise the stored ones. */
  function EntriesOf(s: State, id: Id): Entries
    requires id in s.store
  {
    if id in s.cache && s.cache[id] in s.nodes then s.nodes[s.cache[id]].entries else s.store[id]
  }

  function ViewOf(s: State, r: Request): View
    requires r in s.contexts
  {
    var c := s.contexts[r];
    if c.None? || c.value !in s.nodes then Nothing
    else if s.nodes[c.value].sessionId != "" then Attached(s.nodes[c.value].sessionId)
    else Draft(s.nodes[c.value].entries)
  }

  function Abstract(s: State): Plain {
    Plain(map id | id in s.store :: EntriesOf(s, id), map r | r in s.contexts :: ViewOf(s, r))
  }

  /** The entries of every id but one, and the views of every request but one, are as they were. */
  ghost predicate Keeps(s: State, t: State, id: Id, r: Request) {
    && (forall k :: k in s.store && k != id ==> k in t.store && EntriesOf(t, k) == EntriesOf(s, k))
    && (forall k :: k in t.store && k != id ==> k in s.store)
    && (forall x :: x in s.contexts && x != r ==> x in t.contexts && ViewOf(t, x) == ViewOf(s, x))
    && (forall x :: x in t.contexts && x != r ==> x in s.contexts)
  }

  /** The plain machine from one id and one request. */
  lemma SamePlain(s: State, t: State, id: Id, r: Request, p: Plain)
    requires Keeps(s, t, id, r)
    requires p.content.Keys == t.store.Keys && p.views.Keys == t.contexts.Keys
    requires forall k :: k in p.content && k != id ==> k in s.store && p.content[k] == EntriesOf(s, k)
    requires forall x :: x in p.views && x != r ==> x in s.contexts && p.views[x] == ViewOf(s, x)
    requires id in t.store ==> p.content[id] == EntriesOf(t, id)
    requires r in t.contexts ==> p.views[r] == ViewOf(t, r)
    ensures Abstract(t) == p
  {
    hide EntriesOf, ViewOf;
    assert Abstract(t).content == p.content;
    assert Abstract(t).views == p.views;
  }

  // ---------------------------------------------------------------------------------------------
  // Steps

  /** A session changes without its holders, its id or its count. */
  function Entered(s: State, h: Handle, x: Session): State
    requires h in s.nodes
  {
    s.(nodes := s.nodes[h := x])
  }

  /** The same as far as pointers and counts go. */
  predicate SameHolders(x: Session, n: Session) {
    x.sessionId == n.sessionId && x.requestedSessionId == n.requestedSessionId && x.referrers == n.referrers
    && x.requestedRefresh == n.requestedRefresh
  }

  lemma AlterValid(s: State, r: Request, x: Session)
    requires Valid(s) && r in s.contexts && s.contexts[r].Some? && s.contexts[r].value in s.nodes
    requires SameHolders(x, s.nodes[s.contexts[r].value])
    ensures var h := s.contexts[r].value;
            && Valid(Entered(s, h, x)) && HeldOk(s, r, h)
            && (x.sessionId != "" ==> x.sessionId in s.store)
            && (forall k :: k in s.cache ==> CacheOk(s, k, s.cache[k]))
            && (forall q :: q in s.contexts && s.contexts[q].Some? ==> HeldOk(s, q, s.contexts[q].value))
  {
    var h := s.contexts[r].value;
    var t := Entered(s, h, x);
    assert HeldOk(s, r, h);
    forall id | id in t.cache ensures CacheOk(t, id, t.cache[id]) { assert CacheOk(s, id, s.cache[id]); }
    forall q | q in t.contexts && t.contexts[q].Some? ensures HeldOk(t, q, t.contexts[q].value) {
      assert HeldOk(s, q, s.contexts[q].value);
    }
  }

  lemma AlterKeeps(s: State, r: Request, x: Session)
    requires Valid(s) && r in s.contexts && s.contexts[r].Some? && s.contexts[r].value in s.nodes
    requires SameHolders(x, s.nodes[s.contexts[r].value])
    ensures var t := Entered(s, s.contexts[r].value, x);
            && Valid(t) && Keeps(s, t, x.sessionId, r)
            && (x.sessionId != "" ==> x.sessionId in s.store && ViewOf(t, r) == ViewOf(s, r) == Attached(x.sessionId)
                                      && EntriesOf(t, x.sessionId) == x.entries)
            && (x.sessionId == "" ==> ViewOf(t, r) == Draft(x.entries))
  {
    hide Valid, EntriesOf, ViewOf, CacheOk, HeldOk;
    AlterValid(s, r, x);
    var h := s.contexts[r].value;
    var t := Entered(s, h, x);
    forall k | k in s.store && k != x.sessionId ensures EntriesOf(t, k) == EntriesOf(s, k) { OtherEntries(s, h, x, k); }
    forall q | q in s.contexts && q != r ensures ViewOf(t, q) == ViewOf(s, q) { OtherView(s, r, h, x, q); }
    OwnView(s, r, h, x);
  }

  lemma OtherEntries(s: State, h: Handle, x: Session, k: Id)
    requires h in s.nodes && SameHolders(x, s.nodes[h]) && k in s.store && k != x.sessionId
    requires k in s.cache ==> CacheOk(s, k, s.cache[k])
    ensures EntriesOf(Entered(s, h, x), k) == EntriesOf(s, k)
  {
  }

  lemma OtherView(s: State, r: Request, h: Handle, x: Session, q: Request)
    requires HeldOk(s, r, h) && SameHolders(x, s.nodes[h]) && q in s.contexts && q != r
    requires s.contexts[q].Some? ==> HeldOk(s, q, s.contexts[q].value)
    ensures ViewOf(Entered(s, h, x), q) == ViewOf(s, q)
  {
  }

  lemma OwnView(s: State, r: Request, h: Handle, x: Session)
    requires HeldOk(s, r, h) && SameHolders(x, s.nodes[h]) && r in s.contexts && s.contexts[r] == Some(h)
    requires x.sessionId in s.cache ==> x.sessionId in s.store
    ensures var t := Entered(s, h, x);
            && (x.sessionId != "" ==> x.sessionId in s.cache && ViewOf(t, r) == ViewOf(s, r) == Attached(x.sessionId)
                                      && EntriesOf(t, x.sessionId) == x.entries)
            && (x.sessionId == "" ==> ViewOf(t, r) == Draft(x.entries))
  {
  }

  /** A request without a session. */
  lemma WithoutKeeps(s: State, r: Request)
    requires Valid(s) && r !in s.contexts
    ensures var t := s.(contexts := s.contexts[r := None]);
            Valid(t) && Keeps(s, t, "", r) && ViewOf(t, r) == Nothing
  {
    var t := s.(contexts := s.contexts[r := None]);
    forall id | id in t.cache ensures CacheOk(t, id, t.cache[id]) { assert CacheOk(s, id, s.cache[id]); }
    forall q | q in t.contexts && t.contexts[q].Some? ensures HeldOk(t, q, t.contexts[q].value) {
      assert HeldOk(s, q, s.contexts[q].value);
    }
  }

  /** One more request holds a cached session. */
  function Joined(s: State, r: Request, h: Handle): State
    requires h in s.nodes && h in s.holders
  {
    s.(nodes := s.nodes[h := s.nodes[h].(referrers := s.nodes[h].referrers + 1)],
       contexts := s.contexts[r := Some(h)], holders := s.holders[h := s.holders[h] + {r}])
  }

  lemma JoinValid(s: State, r: Request, id: Id)
    requires Valid(s) && r !in s.contexts && id in s.cache && s.cache[id] in s.nodes && s.cache[id] in s.holders
    ensures Valid(Joined(s, r, s.cache[id]))
  {
    var h := s.cache[id];
    var t := Joined(s, r, h);
    forall k | k in t.cache ensures CacheOk(t, k, t.cache[k]) { JoinCacheOk(s, r, id, k); }
    forall q | q in t.contexts && t.contexts[q].Some? ensures HeldOk(t, q, t.contexts[q].value) {
      if q != r { assert HeldOk(s, q, s.contexts[q].value); } else { AnyHolder(s, id); }
    }
  }

  lemma JoinCacheOk(s: State, r: Request, id: Id, k: Id)
    requires Valid(s) && r !in s.contexts && id in s.cache && s.cache[id] in s.nodes && s.cache[id] in s.holders
    requires k in s.cache
    ensures CacheOk(Joined(s, r, s.cache[id]), k, s.cache[k])
  {
    hide HeldOk;
    assert CacheOk(s, id, s.cache[id]) && CacheOk(s, k, s.cache[k]);
    assert r !in s.holders[s.cache[id]];
  }

  lemma JoinKeeps(s: State, r: Request, id: Id)
    requires Valid(s) && r !in s.contexts && id in s.cache && s.cache[id] in s.nodes && s.cache[id] in s.holders
    ensures var t := Joined(s, r, s.cache[id]);
            && Keeps(s, t, id, r) && id in t.store && EntriesOf(t, id) == EntriesOf(s, id) && ViewOf(t, r) == Attached(id)
  {
    hide Valid, HeldOk, CacheOk;
    Pointers(s);
    var t := Joined(s, r, s.cache[id]);
    forall k | k in s.store && k != id ensures EntriesOf(t, k) == EntriesOf(s, k) { }
    forall q | q in s.contexts ensures ViewOf(t, q) == ViewOf(s, q) { }
  }

  /** Where the pointers point. */
  lemma Pointers(s: State)
    requires Valid(s)
    ensures "" !in s.store && s.cache.Keys <= s.store.Keys && s.next !in s.nodes
    ensures forall id :: id in s.cache ==> s.cache[id] in s.nodes && s.nodes[s.cache[id]].sessionId == id
    ensures forall q :: q in s.contexts && s.contexts[q].Some? ==> s.contexts[q].value in s.nodes
  {
    forall id | id in s.cache ensures s.cache[id] in s.nodes && s.nodes[s.cache[id]].sessionId == id {
      assert CacheOk(s, id, s.cache[id]);
    }
    forall q | q in s.contexts && s.contexts[q].Some? ensures s.contexts[q].value in s.nodes {
      assert HeldOk(s, q, s.contexts[q].value);
    }
  }

  /** A cached session is held by some request, which knows about its requested id. */
  lemma AnyHolder(s: State, id: Id)
    requires Valid(s) && id in s.cache
    ensures s.cache[id] in s.nodes && s.nodes[s.cache[id]].requestedSessionId == "" && id != ""
    ensures !s.nodes[s.cache[id]].requestedRefresh
  {
    var h := s.cache[id];
    assert CacheOk(s, id, h);
    var q :| q in s.holders[h];
    assert HeldOk(s, q, h);
  }

  /** A session enters the cache; what it leaves behind in the store is arbitrary. */
  function Loaded(s: State, r: Request, id: Id, leftover: Entries): State
    requires id in s.store
  {
    var x := NEW_SESSION.(sessionId := id, referrers := 1, entries := s.store[id]);
    State(s.cache[id := s.next], s.store[id := leftover], s.nodes[s.next := x], s.contexts[r := Some(s.next)],
          s.holders[s.next := {r}], s.next + 1)
  }

  lemma LoadValid(s: State, r: Request, id: Id, leftover: Entries)
    requires Valid(s) && r !in s.contexts && id in s.store && id !in s.cache
    ensures Valid(Loaded(s, r, id, leftover))
  {
    var t := Loaded(s, r, id, leftover);
    OldHandles(s);
    assert CacheOk(t, id, s.next);
    forall k | k in t.cache ensures CacheOk(t, k, t.cache[k]) {
      if k != id { LoadCacheOk(s, r, id, leftover, k); }
    }
    forall q | q in t.contexts && t.contexts[q].Some? ensures HeldOk(t, q, t.contexts[q].value) {
      if q != r { assert HeldOk(s, q, s.contexts[q].value); }
    }
  }

  lemma LoadCacheOk(s: State, r: Request, id: Id, leftover: Entries, k: Id)
    requires Valid(s) && r !in s.contexts && id in s.store && id !in s.cache && k in s.cache
    ensures CacheOk(Loaded(s, r, id, leftover), k, s.cache[k])
  {
    hide HeldOk;
    assert CacheOk(s, k, s.cache[k]);
  }

  lemma LoadKeeps(s: State, r: Request, id: Id, leftover: Entries)
    requires Valid(s) && r !in s.contexts && id in s.store && id !in s.cache
    ensures var t := Loaded(s, r, id, leftover);
            && Keeps(s, t, id, r) && id in t.store && EntriesOf(t, id) == EntriesOf(s, id) && ViewOf(t, r) == Attached(id)
  {
    hide Valid, HeldOk, CacheOk;
    Pointers(s);
    var t := Loaded(s, r, id, leftover);
    hide Loaded;
    LoadedSame(s, r, id, leftover);
    forall k | k in s.store && k != id ensures EntriesOf(t, k) == EntriesOf(s, k) { }
    forall q | q in s.contexts ensures ViewOf(t, q) == ViewOf(s, q) { }
  }

  /** The parts of the state that loading leaves alone. */
  lemma LoadedSame(s: State, r: Request, id: Id, leftover: Entries)
    requires id in s.store
    ensures var t := Loaded(s, r, id, leftover);
            && t.store.Keys == s.store.Keys && t.contexts.Keys == s.contexts.Keys + {r}
            && (forall k :: k in s.store && k != id ==> t.store[k] == s.store[k])
            && (forall k :: k != id ==> (k in t.cache <==> k in s.cache) && (k in s.cache ==> t.cache[k] == s.cache[k]))
            && (forall h :: h != s.next ==> (h in t.nodes <==> h in s.nodes) && (h in s.nodes ==> t.nodes[h] == s.nodes[h]))
            && (forall q :: q in s.contexts && q != r ==> t.contexts[q] == s.contexts[q])
            && id in t.cache && t.cache[id] == s.next && s.next in t.nodes && t.contexts[r] == Some(s.next)
            && t.nodes[s.next].entries == s.store[id] && t.nodes[s.next].sessionId == id
  {
  }

  lemma OldHandles(s: State)
    requires Valid(s)
    ensures s.next !in s.nodes
    ensures forall id :: id in s.cache ==> s.cache[id] != s.next
    ensures forall q :: q in s.contexts ==> s.contexts[q] != Some(s.next)
  {
    forall id | id in s.cache ensures s.cache[id] != s.next { assert CacheOk(s, id, s.cache[id]); }
    forall q | q in s.contexts ensures s.contexts[q] != Some(s.next) {
      if s.contexts[q].Some? { assert HeldOk(s, q, s.contexts[q].value); }
    }
  }

  /** `check_node` makes a session for one request. */
  function Created(s: State, r: Request): State {
    s.(nodes := s.nodes[s.next := NEW_SESSION], contexts := s.contexts[r := Some(s.next)],
       holders := s.holders[s.next := {r}], next := s.next + 1)
  }

  lemma CreateKeeps(s: State, r: Request)
    requires Valid(s) && r in s.contexts && s.contexts[r].None?
    ensures var t := Created(s, r);
            && Valid(t) && Keeps(s, t, "", r) && ViewOf(t, r) == Draft(map[]) && ViewOf(s, r) == Nothing
  {
    var t := Created(s, r);
    OldHandles(s);
    forall k | k in t.cache ensures CacheOk(t, k, t.cache[k]) { assert CacheOk(s, k, s.cache[k]); }
    forall q | q in t.contexts && t.contexts[q].Some? ensures HeldOk(t, q, t.contexts[q].value) {
      if q != r { assert HeldOk(s, q, s.contexts[q].value); }
    }
    forall k | k in s.store ensures EntriesOf(t, k) == EntriesOf(s, k) { }
    forall q | q in s.contexts && q != r ensures ViewOf(t, q) == ViewOf(s, q) { }
  }

  // ---------------------------------------------------------------------------------------------
  // Ends

  lemma NoneLeaves(s: State, r: Request)
    requires Valid(s) && r in s.contexts && s.contexts[r].None?
    ensures var t := s.(contexts := s.contexts - {r}); Valid(t) && Keeps(s, t, "", r) && ViewOf(s, r) == Nothing
  {
    var t := s.(contexts := s.contexts - {r});
    forall id | id in t.cache ensures CacheOk(t, id, t.cache[id]) { assert CacheOk(s, id, s.cache[id]); }
    forall q | q in t.contexts && t.contexts[q].Some? ensures HeldOk(t, q, t.contexts[q].value) {
      assert HeldOk(s, q, s.contexts[q].value);
    }
  }

  /** Others still hold the session. */
  function Released(s: State, r: Request, h: Handle): State
    requires h in s.nodes && h in s.holders
  {
    s.(nodes := s.nodes[h := s.nodes[h].(referrers := s.nodes[h].referrers - 1)],
       contexts := s.contexts - {r}, holders := s.holders[h := s.holders[h] - {r}])
  }

  lemma SharedLeaves(s: State, r: Request, h: Handle)
    requires Valid(s) && r in s.contexts && s.contexts[r] == Some(h)
    requires h in s.nodes && h in s.holders && s.nodes[h].referrers > 1
    ensures Valid(Released(s, r, h)) && ViewOf(s, r).Attached?
  {
    var t := Released(s, r, h);
    assert HeldOk(s, r, h);
    var id := s.nodes[h].sessionId;
    assert CacheOk(s, id, h);
    Fewer(s.holders[h], r);
    forall k | k in t.cache ensures CacheOk(t, k, t.cache[k]) { assert CacheOk(s, k, s.cache[k]); }
    forall q | q in t.contexts && t.contexts[q].Some? ensures HeldOk(t, q, t.contexts[q].value) {
      assert HeldOk(s, q, s.contexts[q].value);
    }
  }

  lemma SharedKeeps(s: State, r: Request, h: Handle)
    requires Valid(s) && r in s.contexts && s.contexts[r] == Some(h) && h in s.nodes && h in s.holders
    ensures Keeps(s, Released(s, r, h), "", r)
  {
    hide Valid, HeldOk, CacheOk;
    Pointers(s);
    var t := Released(s, r, h);
    forall k | k in s.store ensures EntriesOf(t, k) == EntriesOf(s, k) { }
    forall q | q in t.contexts ensures ViewOf(t, q) == ViewOf(s, q) { }
  }

  lemma Fewer(a: set<Request>, r: Request)
    requires r in a
    ensures |a - {r}| == |a| - 1
    ensures |a| > 1 ==> a - {r} != {}
    ensures |a| == 1 ==> a == {r}
  {
    if |a| == 1 { assert |a - {r}| == 0; }
  }

  /** The last request puts the session into the store, under its id or a generated one. */
  function Saved(s: State, r: Request, h: Handle, id: Id, x: Session): State
    requires h in s.nodes
  {
    s.(cache := s.cache - {id}, store := s.store[id := s.nodes[h].entries], nodes := s.nodes[h := x],
       contexts := s.contexts - {r})
  }

  /** Without its last request a session is neither cached nor held by any other. */
  lemma LastValid(s: State, r: Request, h: Handle, x: Session)
    requires Valid(s) && r in s.contexts && s.contexts[r] == Some(h)
    requires h in s.nodes && s.nodes[h].sessionId != "" && s.nodes[h].referrers <= 1
    ensures var id := s.nodes[h].sessionId;
            var t := Saved(s, r, h, id, x);
            && Valid(t) && id in s.store && id in s.cache && s.cache[id] == h
            && (forall k :: k in t.cache ==> t.cache[k] != h)
            && (forall q :: q in t.contexts ==> t.contexts[q] != Some(h))
  {
    var id := s.nodes[h].sessionId;
    var t := Saved(s, r, h, id, x);
    assert HeldOk(s, r, h);
    assert CacheOk(s, id, h);
    Fewer(s.holders[h], r);
    forall k | k in t.cache ensures CacheOk(t, k, t.cache[k]) && t.cache[k] != h { assert CacheOk(s, k, s.cache[k]); }
    forall q | q in t.contexts && t.contexts[q].Some?
      ensures HeldOk(t, q, t.contexts[q].value) && t.contexts[q].value != h
    {
      assert HeldOk(s, q, s.contexts[q].value);
    }
  }

  lemma LastLeaves(s: State, r: Request, h: Handle, x: Session)
    requires Valid(s) && r in s.contexts && s.contexts[r] == Some(h)
    requires h in s.nodes && s.nodes[h].sessionId != "" && s.nodes[h].referrers <= 1
    ensures var id := s.nodes[h].sessionId;
            var t := Saved(s, r, h, id, x);
            && Valid(t) && Keeps(s, t, id, r) && id in s.store && EntriesOf(t, id) == EntriesOf(s, id)
            && ViewOf(s, r) == Attached(id)
  {
    hide Valid;
    LastValid(s, r, h, x);
    var id := s.nodes[h].sessionId;
    var t := Saved(s, r, h, id, x);
    forall k | k in s.store && k != id ensures EntriesOf(t, k) == EntriesOf(s, k) { }
    forall q | q in t.contexts ensures ViewOf(t, q) == ViewOf(s, q) { }
  }

  lemma DraftLeaves(s: State, r: Request, h: Handle, id: Id, x: Session)
    requires Valid(s) && r in s.contexts && s.contexts[r] == Some(h)
    requires h in s.nodes && s.nodes[h].sessionId == "" && id != "" && id !in s.store
    ensures s.nodes[h].referrers == 0 && s.nodes[h].requestedSessionId == ""
    ensures var t := Saved(s, r, h, id, x);
            && Valid(t) && Keeps(s, t, id, r) && EntriesOf(t, id) == s.nodes[h].entries
            && ViewOf(s, r) == Draft(s.nodes[h].entries) && t.cache == s.cache
  {
    var t := Saved(s, r, h, id, x);
    assert HeldOk(s, r, h);
    assert t.cache == s.cache;
    forall k | k in t.cache ensures CacheOk(t, k, t.cache[k]) && t.cache[k] != h { assert CacheOk(s, k, s.cache[k]); AnyHolder(s, k); }
    forall q | q in t.contexts && t.contexts[q].Some?
      ensures HeldOk(t, q, t.contexts[q].value) && t.contexts[q].value != h
    {
      assert HeldOk(s, q, s.contexts[q].value);
    }
    forall k | k in s.store ensures EntriesOf(t, k) == EntriesOf(s, k) { }
    forall q | q in t.contexts ensures ViewOf(t, q) == ViewOf(s, q) { }
  }

  // ---------------------------------------------------------------------------------------------
  // Steps of the plain machine

  /** A request without a session gets an empty one of its own. */
  lemma CreatePlain(s: State, r: Request)
    requires Valid(s) && r in s.contexts && s.contexts[r].None?
    ensures var t := Created(s, r);
            && Valid(t) && r in Abstract(s).views && Abstract(s).views[r] == Nothing
            && Abstract(t) == Changed(Abstract(s), r, (e: Entries) => e)
  {
    hide Valid, Keeps, EntriesOf, ViewOf;
    CreateKeeps(s, r);
    NoEmptyId(s);
    SamePlain(s, Created(s, r), "", r, Changed(Abstract(s), r, (e: Entries) => e));
  }

  /** Making a session and changing it is changing what is not there. */
  lemma MadeThenChanged(p: Plain, r: Request, change: Entries -> Entries)
    requires r in p.views && p.views[r] == Nothing
    ensures var q := Changed(p, r, (e: Entries) => e);
            r in q.views && !q.views[r].Attached? && Changed(q, r, change) == Changed(p, r, change)
  {
    var q := Changed(p, r, (e: Entries) => e);
    assert q.views[r := Draft(change(map[]))] == p.views[r := Draft(change(map[]))];
  }

  lemma JoinPlain(s: State, r: Request, id: Id)
    requires Valid(s) && r !in s.contexts && id in s.cache && s.cache[id] in s.nodes && s.cache[id] in s.holders
    ensures var t := Joined(s, r, s.cache[id]); Valid(t) && Abstract(t) == Begun(Abstract(s), r, id)
  {
    hide Valid, Keeps, EntriesOf, ViewOf;
    JoinValid(s, r, id);
    JoinKeeps(s, r, id);
    SamePlain(s, Joined(s, r, s.cache[id]), id, r, Begun(Abstract(s), r, id));
  }

  lemma LoadPlain(s: State, r: Request, id: Id, leftover: Entries)
    requires Valid(s) && r !in s.contexts && id in s.store && id !in s.cache
    ensures var t := Loaded(s, r, id, leftover); Valid(t) && Abstract(t) == Begun(Abstract(s), r, id)
  {
    hide Valid, Keeps, EntriesOf, ViewOf;
    LoadValid(s, r, id, leftover);
    LoadKeeps(s, r, id, leftover);
    SamePlain(s, Loaded(s, r, id, leftover), id, r, Begun(Abstract(s), r, id));
  }

  lemma DraftPlain(s: State, r: Request, h: Handle, id: Id, x: Session)
    requires Valid(s) && r in s.contexts && s.contexts[r] == Some(h)
    requires h in s.nodes && s.nodes[h].sessionId == "" && id != "" && id !in s.store
    ensures s.nodes[h].requestedSessionId == "" && r in Abstract(s).views && Abstract(s).views[r].Draft?
    ensures var t := Saved(s, r, h, id, x);
            Valid(t) && Abstract(t) == Ended(Abstract(s), r, id) && t.cache == s.cache
  {
    hide Valid, Keeps, EntriesOf, ViewOf;
    DraftLeaves(s, r, h, id, x);
    NoEmptyId(s);
    SamePlain(s, Saved(s, r, h, id, x), id, r, Ended(Abstract(s), r, id));
  }

  lemma LastPlain(s: State, r: Request, h: Handle, x: Session, generated: Id)
    requires Valid(s) && r in s.contexts && s.contexts[r] == Some(h)
    requires h in s.nodes && s.nodes[h].sessionId != "" && s.nodes[h].referrers <= 1
    ensures r in Abstract(s).views && Abstract(s).views[r].Attached?
    ensures var t := Saved(s, r, h, s.nodes[h].sessionId, x);
            Valid(t) && Abstract(t) == Ended(Abstract(s), r, generated)
  {
    hide Valid, Keeps, EntriesOf, ViewOf;
    LastLeaves(s, r, h, x);
    var id := s.nodes[h].sessionId;
    SamePlain(s, Saved(s, r, h, id, x), id, r, Ended(Abstract(s), r, generated));
  }

  // ---------------------------------------------------------------------------------------------
  // The object

  class SessionMiddleware {
    var cache: map<Id, Handle>
    var store: map<Id, Entries>
    var nodes: map<Handle, Session>
    var contexts: map<Request, Option<Handle>>
    ghost var holders: map<Handle, set<Request>>
    var next: Handle

    ghost function Now(): State
      reads this
    {
      State(cache, store, nodes, contexts, holders, next)
    }

    constructor ()
      ensures Valid(Now()) && Abstract(Now()) == Plain(map[], map[])
    {
      cache, store, nodes, contexts, holders, next := map[], map[], map[], map[], map[], 0;
    }

    /** `before_handle` with the session id of the request's cookie; `leftover` is what moving leaves behind. */
    method BeforeHandle(r: Request, id: Id, leftover: Entries)
      requires Valid(Now()) && r !in contexts
      modifies this
      ensures Valid(Now()) && Abstract(Now()) == Begun(Abstract(old(Now())), r, id)
    {
      hide Valid, Keeps, EntriesOf, ViewOf;
      ghost var s := Now();
      ghost var p := Begun(Abstract(s), r, id);
      NoEmptyId(s);
      contexts := contexts[r := None];
      assert contexts - {r} == s.contexts;
      if id == "" {
        WithoutKeeps(s, r);
        SamePlain(s, Now(), "", r, p);
        return;
      }
      if id in cache {
        BeginShared(r, id);
      } else if id !in store {
        WithoutKeeps(s, r);
        SamePlain(s, Now(), "", r, p);
      } else {
        BeginLoaded(r, id, leftover);
      }
    }

    /** Operations of concurrent requests, in the order in which the locks let them through.  The run of the
        middleware is the run of the plain machine, so no session data is lost in it: what a session logically
        holds in the end, in the cache or in the store, is what the changes made through it make of what it held. */
    method Perform(ops: seq<Op>, key: string, leftover: Entries)
      requires Valid(Now()) && Grounded(Abstract(Now())) && Run(Abstract(Now()), ops).Some?
      modifies this
      ensures Valid(Now()) && Grounded(Abstract(old(Now())))
      ensures Run(Abstract(old(Now())), ops) == Some(Abstract(Now()))
      ensures forall id :: id in old(store) ==>
                && id in store && id in Abstract(old(Now())).content
                && EntriesOf(Now(), id) == Net(Abstract(old(Now())), ops, id, EntriesOf(old(Now()), id))
    {
      hide Valid, Abstract, EntriesOf, Net, Begun, Changed, Removed, Ended;
      ghost var s, p := Now(), Abstract(Now());
      StartRun(p, ops);
      var k := 0;
      while k < |ops|
        invariant k <= |ops| && Valid(Now()) && Grounded(Abstract(Now()))
        invariant Run(Abstract(Now()), ops[k..]).Some? && Run(Abstract(Now()), ops[k..]) == Run(p, ops)
      {
        NextRun(Abstract(Now()), ops, k);
        InViews(Now());
        var op := ops[k];
        if op.Begin? {
          BeforeHandle(op.r, op.id, leftover);
        } else if op.Change? {
          Alter(op.r, key, op.change);
        } else if op.Remove? {
          Remove(op.r, op.key);
        } else {
          var _ := AfterHandle(op.r, op.generated, leftover);
        }
        k := k + 1;
      }
      EndRun(Abstract(Now()), ops);
      forall id | id in s.store
        ensures id in store && id in p.content && EntriesOf(Now(), id) == Net(p, ops, id, EntriesOf(s, id))
      {
        InContent(s, id);
        NothingLost(p, ops, id);
        InContent(Now(), id);
      }
    }

    static lemma StartRun(p: Plain, ops: seq<Op>)
      requires Grounded(p)
      ensures Run(p, ops[0..]) == Run(p, ops)
    {
      assert ops[0..] == ops;
    }

    static lemma EndRun(p: Plain, ops: seq<Op>)
      requires Grounded(p)
      ensures Run(p, ops[|ops|..]) == Some(p)
    {
    }

    static lemma NextRun(p: Plain, ops: seq<Op>, k: nat)
      requires Grounded(p) && k < |ops| && Run(p, ops[k..]).Some?
      ensures Allowed(p, ops[k])
      ensures Run(Next(p, ops[k]), ops[k + 1..]) == Run(p, ops[k..])
      ensures ops[k].Begin? ==> Next(p, ops[k]) == Begun(p, ops[k].r, ops[k].id)
      ensures ops[k].Change? ==> Next(p, ops[k]) == Changed(p, ops[k].r, ops[k].change)
      ensures ops[k].Remove? ==> Next(p, ops[k]) == Removed(p, ops[k].r, ops[k].key)
      ensures ops[k].End? ==> Next(p, ops[k]) == Ended(p, ops[k].r, ops[k].generated)
    {
      hide Begun, Changed, Removed, Ended;
      assert ops[k..][0] == ops[k] && ops[k..][1..] == ops[k + 1..];
    }

    static lemma InViews(s: State)
      ensures Abstract(s).views.Keys == s.contexts.Keys && Abstract(s).content.Keys == s.store.Keys
    {
      hide EntriesOf, ViewOf;
    }

    static lemma InContent(s: State, id: Id)
      ensures id in Abstract(s).content <==> id in s.store
      ensures id in s.store ==> Abstract(s).content[id] == EntriesOf(s, id)
    {
      hide EntriesOf, ViewOf;
    }

    /** The session is in the cache. */
    method BeginShared(r: Request, id: Id)
      requires r in contexts && contexts[r].None? && Valid(Now().(contexts := contexts - {r})) && id in cache
      modifies this
      ensures Valid(Now()) && Abstract(Now()) == Begun(Abstract(old(Now().(contexts := contexts - {r}))), r, id)
    {
      hide Valid, Abstract, Begun;
      ghost var s := Now().(contexts := contexts - {r});
      CacheKnown(s, id);
      JoinPlain(s, r, id);
      var h := cache[id];
      nodes := nodes[h := nodes[h].(referrers := nodes[h].referrers + 1)];
      contexts := contexts[r := Some(h)];
      holders := holders[h := holders[h] + {r}];
      assert contexts == s.contexts[r := Some(h)];
    }

    /** The session is moved from the store into the cache. */
    method BeginLoaded(r: Request, id: Id, leftover: Entries)
      requires r in contexts && contexts[r].None? && Valid(Now().(contexts := contexts - {r})) && id !in cache && id in store
      modifies this
      ensures Valid(Now()) && Abstract(Now()) == Begun(Abstract(old(Now().(contexts := contexts - {r}))), r, id)
    {
      hide Valid, Abstract, Begun;
      ghost var s := Now().(contexts := contexts - {r});
      LoadPlain(s, r, id, leftover);
      var h := next;
      nodes := nodes[h := NEW_SESSION.(sessionId := id, referrers := 1, entries := store[id])];
      next := next + 1;
      store := store[id := leftover];
      contexts := contexts[r := Some(h)];
      cache := cache[id := h];
      holders := holders[h := {r}];
      assert contexts == s.contexts[r := Some(h)];
    }

    /** What `set` and `apply` do to the entries of the session, after `check_node`. */
    method Alter(r: Request, key: string, change: Entries -> Entries)
      requires Valid(Now()) && r in contexts
      modifies this
      ensures Valid(Now()) && r in Abstract(old(Now())).views
      ensures var p := Abstract(old(Now()));
              (p.views[r].Attached? ==> p.views[r].id in p.content) && Abstract(Now()) == Changed(p, r, change)
    {
      hide Valid, Abstract, Changed;
      if contexts[r].None? {
        ghost var s := Now();
        CreatePlain(s, r);
        nodes, contexts := nodes[next := NEW_SESSION], contexts[r := Some(next)];
        holders, next := holders[next := {r}], next + 1;
        assert Now() == Created(s, r);
        MadeThenChanged(Abstract(s), r, change);
      } else {
        HeldSeen(Now(), r);
      }
      AlterHeld(r, key, change);
    }

    /** `set` */
    method Set(r: Request, key: string, value: string)
      requires Valid(Now()) && r in contexts
      modifies this
      ensures Valid(Now()) && r in Abstract(old(Now())).views
      ensures var p := Abstract(old(Now()));
              (p.views[r].Attached? ==> p.views[r].id in p.content)
              && Abstract(Now()) == Changed(p, r, (e: Entries) => e[key := value])
      ensures var t := Abstract(Now());
              r in t.views && (t.views[r].Attached? ==> t.views[r].id in t.content) && Seen(t, r, key) == Some(value)
    {
      hide Valid, Abstract;
      Alter(r, key, (e: Entries) => e[key := value]);
    }

    /** `apply`: the function is given the value that the key has. */
    method Apply(r: Request, key: string, f: Option<string> -> string)
      requires Valid(Now()) && r in contexts
      modifies this
      ensures Valid(Now()) && r in Abstract(old(Now())).views
      ensures var p := Abstract(old(Now()));
              (p.views[r].Attached? ==> p.views[r].id in p.content)
              && Abstract(Now()) == Changed(p, r, (e: Entries) => e[key := f(if key in e then Some(e[key]) else None)])
    {
      Alter(r, key, (e: Entries) => e[key := f(if key in e then Some(e[key]) else None)]);
    }

    /** `remove` leaves a request without a session as it is. */
    method Remove(r: Request, key: string)
      requires Valid(Now()) && r in contexts
      modifies this
      ensures Valid(Now()) && r in Abstract(old(Now())).views
      ensures var p := Abstract(old(Now()));
              (p.views[r].Attached? ==> p.views[r].id in p.content)
              && Abstract(Now()) == Removed(p, r, key)
      ensures var t := Abstract(Now());
              r in t.views && (t.views[r].Attached? ==> t.views[r].id in t.content) && Seen(t, r, key) == None
    {
      hide Valid;
      if contexts[r].None? { return; }
      HeldSeen(Now(), r);
      AlterHeld(r, key, (e: Entries) => e - {key});
    }

    /** `get`, as text */
    method Get(r: Request, key: string) returns (v: Option<string>)
      requires Valid(Now()) && r in contexts
      ensures var p := Abstract(Now());
              r in p.views && (p.views[r].Attached? ==> p.views[r].id in p.content) && v == Seen(p, r, key)
    {
      hide Valid;
      if contexts[r].None? { return None; }
      HeldSeen(Now(), r);
      var entries := nodes[contexts[r].value].entries;
      v := if key in entries then Some(entries[key]) else None;
    }

    /** `after_handle`; `generated` is the id that would be generated.  The result is the id for the cookie. */
    method AfterHandle(r: Request, generated: Id, leftover: Entries) returns (cookie: Option<Id>)
      requires Valid(Now()) && r in contexts && generated != "" && generated !in store
      modifies this
      ensures Valid(Now()) && r in Abstract(old(Now())).views
      ensures Abstract(Now()) == Ended(Abstract(old(Now())), r, generated)
      ensures cookie == if Abstract(old(Now())).views[r].Draft? then Some(generated) else None
    {
      hide Valid, Keeps, EntriesOf, ViewOf;
      cookie := None;
      ghost var s := Now();
      NoEmptyId(s);
      if contexts[r].None? {
        NoneLeaves(s, r);
        contexts := contexts - {r};
        SamePlain(s, Now(), "", r, Ended(Abstract(s), r, generated));
        return;
      }
      HeldKnown(s, r);
      var h := contexts[r].value;
      if nodes[h].referrers - 1 > 0 {
        SharedLeaves(s, r, h);
        SharedKeeps(s, r, h);
        nodes := nodes[h := nodes[h].(referrers := nodes[h].referrers - 1)];
        holders, contexts := holders[h := holders[h] - {r}], contexts - {r};
        SamePlain(s, Now(), "", r, Ended(Abstract(s), r, generated));
      } else {
        cookie := Store(r, generated, leftover);
      }
    }

    /** The last request with this session stores it. */
    method Store(r: Request, generated: Id, leftover: Entries) returns (cookie: Option<Id>)
      requires Valid(Now()) && r in contexts && contexts[r].Some? && contexts[r].value in nodes
      requires nodes[contexts[r].value].referrers <= 1 && generated != "" && generated !in store
      modifies this
      ensures Valid(Now()) && r in Abstract(old(Now())).views
      ensures Abstract(Now()) == Ended(Abstract(old(Now())), r, generated)
      ensures cookie == if Abstract(old(Now())).views[r].Draft? then Some(generated) else None
    {
      hide Valid, Abstract, Ended;
      ghost var s := Now();
      HeldKnown(s, r);
      var h := contexts[r].value;
      var x := nodes[h].(referrers := nodes[h].referrers - 1);
      x := x.(requestedRefresh := x.requestedRefresh || x.sessionId == "");
      if x.sessionId == "" {
        DraftPlain(s, r, h, generated, x);
        x := x.(sessionId := x.requestedSessionId);
        if x.sessionId == "" { x := x.(sessionId := generated); }
      } else {
        cache := cache - {x.sessionId};
      }
      cookie := if x.requestedRefresh then Some(x.sessionId) else None;
      store := store[x.sessionId := x.entries];
      x := x.(entries := leftover);
      nodes := nodes[h := x];
      contexts := contexts - {r};
      if s.nodes[h].sessionId == "" {
        DraftPlain(s, r, h, generated, x);
      } else {
        LastPlain(s, r, h, x, generated);
      }
      assert Now() == Saved(s, r, h, x.sessionId, x);
    }

    method AlterHeld(r: Request, key: string, change: Entries -> Entries)
      requires Valid(Now()) && r in contexts && contexts[r].Some?
      modifies this`nodes
      ensures Valid(Now())
      ensures var p := Abstract(old(Now()));
              (p.views[r].Attached? ==> p.views[r].id in p.content) && Abstract(Now()) == Changed(p, r, change)
    {
      hide Valid, Keeps, EntriesOf, ViewOf;
      ghost var s := Now();
      HeldKnown(s, r);
      var h := contexts[r].value;
      var x := nodes[h].(dirty := nodes[h].dirty + {key}, entries := change(nodes[h].entries));
      AlterKeeps(s, r, nodes[h]);
      AlterKeeps(s, r, x);
      assert s.nodes[h := s.nodes[h]] == s.nodes;
      assert Entered(s, h, nodes[h]) == s;
      nodes := nodes[h := x];
      NoEmptyId(s);
      SamePlain(s, Now(), x.sessionId, r, Changed(Abstract(s), r, change));
    }
  }

  /** At most one live session per stored id: requests with the same session hold the same one, and it counts
      them all. */
  lemma OneSession(s: State, r: Request, q: Request)
    requires Valid(s) && r in s.contexts && q in s.contexts
    requires ViewOf(s, r).Attached? && ViewOf(s, q) == ViewOf(s, r)
    ensures s.contexts[q] == s.contexts[r] && s.contexts[r].Some?
    ensures var h := s.contexts[r].value;
            && h in s.nodes && h in s.holders && s.nodes[h].referrers == |s.holders[h]|
            && forall x :: x in s.holders[h] <==> x in s.contexts && s.contexts[x] == Some(h)
  {
    assert HeldOk(s, r, s.contexts[r].value) && HeldOk(s, q, s.contexts[q].value);
    var id := ViewOf(s, r).id;
    assert CacheOk(s, id, s.cache[id]);
    forall x | x in s.contexts && s.contexts[x] == s.contexts[r] ensures x in s.holders[s.contexts[r].value] {
      assert HeldOk(s, x, s.contexts[x].value);
    }
  }

  lemma NoEmptyId(s: State)
    requires Valid(s)
    ensures "" !in s.store
  {
  }

  lemma CacheKnown(s: State, id: Id)
    requires Valid(s) && id in s.cache
    ensures s.cache[id] in s.nodes && s.cache[id] in s.holders && id in s.store
  {
    assert CacheOk(s, id, s.cache[id]);
  }

  lemma HeldKnown(s: State, r: Request)
    requires Valid(s) && r in s.contexts && s.contexts[r].Some?
    ensures s.contexts[r].value in s.nodes && s.contexts[r].value in s.holders
    ensures s.nodes[s.contexts[r].value].sessionId == "" ==> s.nodes[s.contexts[r].value].referrers == 0
    ensures !s.nodes[s.contexts[r].value].requestedRefresh
    ensures r in Abstract(s).views && (Abstract(s).views[r].Draft? <==> s.nodes[s.contexts[r].value].sessionId == "")
  {
    assert HeldOk(s, r, s.contexts[r].value);
  }

  lemma HeldSeen(s: State, r: Request)
    requires Valid(s) && r in s.contexts && s.contexts[r].Some?
    ensures s.contexts[r].value in s.nodes
    ensures var x := s.nodes[s.contexts[r].value];
            var p := Abstract(s);
            r in p.views && if x.sessionId == "" then p.views[r] == Draft(x.entries)
                            else p.views[r] == Attached(x.sessionId) && x.sessionId in p.content && p.content[x.sessionId] == x.entries
  {
    assert HeldOk(s, r, s.contexts[r].value);
  }
}
