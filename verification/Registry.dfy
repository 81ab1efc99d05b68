/** The channel registry of `TranscodingService`: registered streams, their media factories, the server's mount
    points, and the connected clients. */
module Registry {
  import opened Wrappers
  import opened U = UriParts

  /** A media factory, by what it was made for. */
  datatype Factory = Factory(uri: string, profile: nat)

  datatype ClientInfo = ClientInfo(client: nat, id: string, uri: string)

  // ---------------------------------------------------------------------------------------------
  // Clients

  predicate At(s: string, pat: string, k: nat) {
    k + |pat| <= |s| && s[k..k + |pat|] == pat
  }

  /** `s.find(pat) != npos` */
  predicate Contains(s: string, pat: string) {
    exists k: nat :: k <= |s| && At(s, pat, k)
  }

  /** The clients whose uri does not contain the pattern, in order. */
  function Without(clients: seq<ClientInfo>, pat: string): seq<ClientInfo> {
    if clients == [] then []
    else
      var n := |clients| - 1;
      Without(clients[..n], pat) + if Contains(clients[n].uri, pat) then [] else [clients[n]]
  }

  function WithoutClient(clients: seq<ClientInfo>, client: nat): seq<ClientInfo> {
    if clients == [] then []
    else
      var n := |clients| - 1;
      WithoutClient(clients[..n], client) + if clients[n].client == client then [] else [clients[n]]
  }

  /** After the removal no uri with the pattern is left, and nobody else is gone. */
  lemma {:induction false} WithoutTells(clients: seq<ClientInfo>, pat: string, c: ClientInfo)
    ensures c in Without(clients, pat) <==> c in clients && !Contains(c.uri, pat)
    decreases |clients|
  {
    hide Contains;
    if clients != [] {
      var n := |clients| - 1;
      WithoutTells(clients[..n], pat, c);
      assert clients == clients[..n] + [clients[n]];
    }
  }

  /** Nobody is moved: who was before whom still is. */
  ghost predicate Subsequence(a: seq<ClientInfo>, b: seq<ClientInfo>)
    decreases |b|
  {
    if b == [] then a == []
    else
      var n := |b| - 1;
      Subsequence(a, b[..n]) || (a != [] && a[|a| - 1] == b[n] && Subsequence(a[..|a| - 1], b[..n]))
  }

  lemma {:induction false} WithoutKeepsOrder(clients: seq<ClientInfo>, pat: string)
    ensures Subsequence(Without(clients, pat), clients)
    decreases |clients|
  {
    hide Contains;
    if clients != [] {
      var n := |clients| - 1;
      WithoutKeepsOrder(clients[..n], pat);
      var r, before := Without(clients, pat), Without(clients[..n], pat);
      if Contains(clients[n].uri, pat) {
        assert before + [] == before;
      } else {
        assert (before + [clients[n]])[..|before|] == before;
      }
    }
  }

  /** How often a client with the uri is left. */
  lemma {:induction false} WithoutCounts(clients: seq<ClientInfo>, pat: string, c: ClientInfo)
    ensures multiset(Without(clients, pat))[c] == if Contains(c.uri, pat) then 0 else multiset(clients)[c]
    decreases |clients|
  {
    hide Contains;
    if clients != [] {
      var n := |clients| - 1;
      WithoutCounts(clients[..n], pat, c);
      assert clients == clients[..n] + [clients[n]];
      OneMore(clients[..n], clients[n], c);
      OneMore(Without(clients[..n], pat), clients[n], c);
      NoneMore(Without(clients[..n], pat));
    }
  }

  /** The same three for the clients with a handle: each of its entries is gone, all others are there as often as
      before, and in order. */
  lemma {:induction false} WithoutClientCounts(clients: seq<ClientInfo>, client: nat, c: ClientInfo)
    ensures multiset(WithoutClient(clients, client))[c] == if c.client == client then 0 else multiset(clients)[c]
    decreases |clients|
  {
    if clients != [] {
      var n := |clients| - 1;
      WithoutClientCounts(clients[..n], client, c);
      assert clients == clients[..n] + [clients[n]];
      OneMore(clients[..n], clients[n], c);
      OneMore(WithoutClient(clients[..n], client), clients[n], c);
      NoneMore(WithoutClient(clients[..n], client));
    }
  }

  lemma OneMore(a: seq<ClientInfo>, x: ClientInfo, c: ClientInfo)
    ensures multiset(a + [x])[c] == multiset(a)[c] + if x == c then 1 else 0
  {
  }

  lemma NoneMore(a: seq<ClientInfo>)
    ensures a + [] == a
  {
  }

  lemma Counted(a: seq<ClientInfo>, b: seq<ClientInfo>)
    ensures forall c :: (c in a <==> multiset(a)[c] > 0) && (c in b <==> multiset(b)[c] > 0)
  {
    forall c ensures (c in a <==> multiset(a)[c] > 0) && (c in b <==> multiset(b)[c] > 0) {
      assert c in a <==> c in multiset(a);
      assert c in b <==> c in multiset(b);
    }
  }

  lemma {:induction false} WithoutClientKeepsOrder(clients: seq<ClientInfo>, client: nat)
    ensures Subsequence(WithoutClient(clients, client), clients)
    decreases |clients|
  {
    if clients != [] {
      var n := |clients| - 1;
      WithoutClientKeepsOrder(clients[..n], client);
      var before := WithoutClient(clients[..n], client);
      if clients[n].client == client {
        assert before + [] == before;
      } else {
        assert (before + [clients[n]])[..|before|] == before;
      }
    }
  }

  lemma WithoutIs(clients: seq<ClientInfo>, pat: string)
    ensures var left := Without(clients, pat);
            && (forall c :: c in left <==> c in clients && !Contains(c.uri, pat))
            && (forall c :: multiset(left)[c] == if Contains(c.uri, pat) then 0 else multiset(clients)[c])
            && Subsequence(left, clients)
  {
    hide Without, Contains, Subsequence;
    forall c { WithoutCounts(clients, pat, c); }
    forall c { WithoutTells(clients, pat, c); }
    WithoutKeepsOrder(clients, pat);
  }

  lemma WithoutClientIs(clients: seq<ClientInfo>, client: nat)
    ensures var left := WithoutClient(clients, client);
            && (forall c :: c in left <==> c in clients && c.client != client)
            && (forall c :: multiset(left)[c] == if c.client == client then 0 else multiset(clients)[c])
            && Subsequence(left, clients)
  {
    hide WithoutClient, Subsequence;
    forall c { WithoutClientCounts(clients, client, c); }
    Counted(WithoutClient(clients, client), clients);
    WithoutClientKeepsOrder(clients, client);
  }

  /** Whether a client at the mount point of `id1` with profile `p` is disconnected when `id` is removed: `id` is
      the beginning of that id, or of the name of the profile. */
  predicate Disconnects(id: string, id1: string, p: nat)
    requires p < 4
  {
    id <= id1 || id <= PROFILES[p][1..]
  }

  /** What has no slash and begins where a part without slashes begins does not go beyond it. */
  lemma WithinPart(s: string, id: string, part: string, from: nat)
    requires '/' !in id && from + |id| <= |s| && s[from..from + |id|] == id
    requires from + |part| <= |s| && s[from..from + |part|] == part
    requires from + |part| < |s| ==> s[from + |part|] == '/'
    ensures id <= part
  {
    assert |id| <= |part|;
    forall i | 0 <= i < |id| ensures id[i] == part[i] {
      assert id[i] == s[from..from + |id|][i] && part[i] == s[from..from + |part|][i];
    }
  }

  lemma PartsOf(id1: string, name: string, tail: string)
    ensures var s, n := "/" + id1 + "/" + name + tail, 2 + |id1| + |name|;
            && s[1..1 + |id1|] == id1 && s[1 + |id1|] == '/' && s[2 + |id1|..n] == name && s[n..] == tail
            && (tail != "" ==> s[n] == tail[0])
  {
  }

  lemma FoundAt(id: string, id1: string, name: string, tail: string, k: nat)
    requires '/' !in id && '/' !in id1 && '/' !in name && (tail == "" || tail[0] == '/')
    requires At("/" + id1 + "/" + name + tail, "/" + id, k)
    ensures id <= id1 || id <= name || Contains(tail, "/" + id)
  {
    var s, pat, n := "/" + id1 + "/" + name + tail, "/" + id, 2 + |id1| + |name|;
    var found := s[k..k + |pat|];
    assert s[k] == found[0] == '/';
    assert found[1..] == id;
    var part := s[k + 1..k + 1 + |id|];
    assert forall j :: 0 <= j < |id| ==> part[j] == found[1..][j];
    PartsOf(id1, name, tail);
    if k >= n {
      assert tail[k - n..k - n + |pat|] == found;
      assert At(tail, pat, k - n);
    } else if k == 0 {
      WithinPart(s, id, id1, 1);
    } else if k == 1 + |id1| {
      WithinPart(s, id, name, k + 1);
    } else {
      assert false;
    }
  }

  lemma MountText(id: string, p: nat)
    requires p < 4
    ensures var name := PROFILES[p][1..]; '/' !in name && Mount(id, p) == "/" + id + "/" + name
  {
    assert PROFILES[p] == "/" + PROFILES[p][1..];
  }

  lemma TailFound(front: string, tail: string, pat: string)
    requires Contains(tail, pat)
    ensures Contains(front + tail, pat)
  {
    var j: nat :| j <= |tail| && At(tail, pat, j);
    assert (front + tail)[|front| + j..|front| + j + |pat|] == tail[j..j + |pat|];
    assert At(front + tail, pat, |front| + j);
  }

  lemma DisconnectsFound(id: string, id1: string, name: string, tail: string)
    requires id <= id1 || id <= name
    ensures Contains("/" + id1 + "/" + name + tail, "/" + id)
  {
    var s, pat, n := "/" + id1 + "/" + name + tail, "/" + id, 1 + |id1|;
    if id <= id1 {
      assert s[0..0 + |pat|] == pat;
      assert At(s, pat, 0);
    } else {
      assert s[n..n + |pat|] == pat;
      assert At(s, pat, n);
    }
  }

  /** Exactly which clients a removal disconnects.  A client asks for a mount point, or for something below it. */
  lemma RemovalReaches(id: string, id1: string, p: nat, tail: string)
    requires p < 4 && '/' !in id && '/' !in id1 && (tail == "" || tail[0] == '/')
    ensures Contains(Mount(id1, p) + tail, "/" + id) <==> Disconnects(id, id1, p) || Contains(tail, "/" + id)
  {
    hide Mount;
    var s, pat, name := Mount(id1, p) + tail, "/" + id, PROFILES[p][1..];
    MountText(id1, p);
    if Contains(s, pat) {
      var k: nat :| k <= |s| && At(s, pat, k);
      FoundAt(id, id1, name, tail, k);
    }
    if Disconnects(id, id1, p) { DisconnectsFound(id, id1, name, tail); }
    if Contains(tail, pat) { TailFound(Mount(id1, p), tail, pat); }
  }

  /** At the mount point itself there is nothing behind it. */
  lemma MountReached(id: string, id1: string, p: nat)
    requires p < 4 && '/' !in id && '/' !in id1
    ensures Contains(Mount(id1, p), "/" + id) <==> Disconnects(id, id1, p)
  {
    hide Disconnects;
    assert Mount(id1, p) + "" == Mount(id1, p);
    assert !Contains("", "/" + id);
    RemovalReaches(id, id1, p, "");
  }

  /** The clients at the mount points of other channels that are still there once `id` is removed. */
  lemma OthersLeft(clients: seq<ClientInfo>, id: string, c: ClientInfo, id1: string, p: nat)
    requires p < 4 && '/' !in id && '/' !in id1 && c.uri == Mount(id1, p)
    ensures c in Without(clients, "/" + id) <==> c in clients && !Disconnects(id, id1, p)
  {
    hide Contains, Disconnects, Without, Mount;
    WithoutTells(clients, "/" + id, c);
    MountReached(id, id1, p);
  }

  /** Two ways to lose the clients of another channel: its id goes on where the removed one ends, or the removed
      id is the beginning of a profile's name, as "s" is of "second". */
  lemma OthersLost(id1: string, more: string)
    ensures Contains(Mount(id1, 1), "/" + "s")
    ensures Contains(Mount(id1 + more, 0), "/" + id1)
  {
    hide Contains, Mount;
    MountText(id1, 1);
    DisconnectsFound("s", id1, PROFILES[1][1..], "");
    assert "/" + id1 + "/" + PROFILES[1][1..] + "" == Mount(id1, 1);
    MountText(id1 + more, 0);
    DisconnectsFound(id1, id1 + more, PROFILES[0][1..], "");
    assert "/" + (id1 + more) + "/" + PROFILES[0][1..] + "" == Mount(id1 + more, 0);
  }

  /** A client of the stream itself is always found. */
  lemma OwnDisconnects(id: string, profile: nat, front: string)
    requires profile < 4
    ensures Contains(front + Mount(id, profile), "/" + id)
  {
    var s, pat := front + Mount(id, profile), "/" + id;
    assert At(s, pat, |front|);
  }

  // ---------------------------------------------------------------------------------------------
  // The registry

  type Factories = map<string, Factory>

  /** The four factories of a stream, added to others. */
  function WithMounts(m: Factories, id: string, uri: string): Factories {
    m[Mount(id, 0) := Factory(uri, 0)][Mount(id, 1) := Factory(uri, 1)]
     [Mount(id, 2) := Factory(uri, 2)][Mount(id, 3) := Factory(uri, 3)]
  }

  type Streams = map<string, UriParts>

  ghost predicate Owned(streams: Streams, m: string) {
    exists id, p: nat :: id in streams && p < 4 && m == Mount(id, p)
  }

  /** The factories are those of the registered streams and no others, and no two streams have the same full
      path. */
  ghost predicate InStep(streams: Streams, factories: Factories) {
    && (forall id :: id in streams ==> streams[id].id == id)
    && (forall id, id1 :: id in streams && id1 in streams && id != id1 ==> streams[id].fullPath != streams[id1].fullPath)
    && (forall m :: m in factories ==> Owned(streams, m))
    && (forall id, p: nat :: id in streams && p < 4 ==>
          Mount(id, p) in factories && factories[Mount(id, p)] == Factory(streams[id].fullPath, p))
  }

  lemma Fourth(id: string, p: nat)
    requires p < 4
    ensures Mount(id, p) in MountsOf(id)
  {
    hide Mount;
  }

  lemma AddedMounts(m: Factories, id: string, uri: string)
    ensures WithMounts(m, id, uri).Keys == m.Keys + MountsOf(id)
    ensures forall p: nat :: p < 4 ==> Mount(id, p) in WithMounts(m, id, uri) && WithMounts(m, id, uri)[Mount(id, p)] == Factory(uri, p)
    ensures forall k :: k in m && k !in MountsOf(id) ==> WithMounts(m, id, uri)[k] == m[k]
  {
    forall i: nat, k: nat | i < k < 4 ensures Mount(id, i) != Mount(id, k) {
      if Mount(id, i) == Mount(id, k) { MountInjective(id, i, id, k); }
    }
    hide Mount;
  }

  /** Whatever belongs to another stream is not one of these mount points. */
  lemma NotMine(streams: Streams, factories: Factories, id: string)
    requires InStep(streams, factories) && id !in streams
    ensures MountsOf(id) !! factories.Keys
  {
    hide MountsOf, Mount;
    forall m | m in factories ensures m !in MountsOf(id) {
      assert Owned(streams, m);
      var id1, p: nat :| id1 in streams && p < 4 && m == Mount(id1, p);
      Fourth(id1, p);
      MountsApart(id, id1);
    }
  }

  lemma AddKeeps(streams: Streams, factories: Factories, id: string, x: UriParts)
    requires InStep(streams, factories) && id !in streams && x.id == id
    requires forall k :: k in streams ==> streams[k].fullPath != x.fullPath
    ensures InStep(streams[id := x], WithMounts(factories, id, x.fullPath))
  {
    hide Mount, MountsOf, WithMounts;
    var s, f := streams[id := x], WithMounts(factories, id, x.fullPath);
    AddedMounts(factories, id, x.fullPath);
    NotMine(streams, factories, id);
    forall m | m in f ensures Owned(s, m) {
      if m in factories {
        assert Owned(streams, m);
        var id1, p: nat :| id1 in streams && p < 4 && m == Mount(id1, p);
        assert id1 in s;
      } else {
        MineOwned(s, id, m);
      }
    }
    forall k, p: nat | k in s && p < 4 ensures Mount(k, p) in f && f[Mount(k, p)] == Factory(s[k].fullPath, p) {
      if k != id {
        Fourth(k, p);
        MountsApart(id, k);
        assert Mount(k, p) in factories;
      }
    }
  }

  lemma MineOwned(s: Streams, id: string, m: string)
    requires id in s && m in MountsOf(id)
    ensures Owned(s, m)
  {
    hide Mount;
    if m == Mount(id, 0) {
    } else if m == Mount(id, 1) {
    } else if m == Mount(id, 2) {
    } else {
      assert m == Mount(id, 3);
    }
  }

  lemma RemoveKeeps(streams: Streams, factories: Factories, id: string)
    requires InStep(streams, factories) && id in streams
    ensures InStep(streams - {id}, factories - MountsOf(id))
  {
    hide Mount, MountsOf;
    var s, f := streams - {id}, factories - MountsOf(id);
    forall m | m in f ensures Owned(s, m) {
      assert Owned(streams, m);
      var id1, p: nat :| id1 in streams && p < 4 && m == Mount(id1, p);
      Fourth(id1, p);
      assert id1 in s;
    }
    forall k, p: nat | k in s && p < 4 ensures Mount(k, p) in f && f[Mount(k, p)] == Factory(s[k].fullPath, p) {
      Fourth(k, p);
      MountsApart(id, k);
    }
  }

  /** Removing what was added gives back what was there. */
  lemma RemoveUndoesAdd(streams: Streams, factories: Factories, id: string, x: UriParts)
    requires InStep(streams, factories) && id !in streams
    ensures streams[id := x] - {id} == streams
    ensures WithMounts(factories, id, x.fullPath) - MountsOf(id) == factories
  {
    hide Mount, MountsOf, WithMounts, InStep;
    AddedMounts(factories, id, x.fullPath);
    NotMine(streams, factories, id);
    assert streams[id := x] - {id} == streams;
    assert WithMounts(factories, id, x.fullPath) - MountsOf(id) == factories;
  }

  /** Four factories for each stream. */
  lemma {:induction false} FourTimes(streams: Streams, factories: Factories)
    requires InStep(streams, factories)
    ensures |factories| == 4 * |streams|
    decreases |streams|
  {
    hide Mount, MountsOf, InStep;
    if streams == map[] {
      NothingOwned(factories);
    } else {
      var id :| id in streams;
      RemoveKeeps(streams, factories, id);
      FourTimes(streams - {id}, factories - MountsOf(id));
      FourMounts(id);
      MineKnown(streams, factories, id);
      assert (streams - {id}).Keys == streams.Keys - {id};
      assert (factories - MountsOf(id)).Keys == factories.Keys - MountsOf(id);
      Sizes(factories.Keys, MountsOf(id));
      Sizes(streams.Keys, {id});
      assert |factories.Keys| == |factories| && |streams.Keys| == |streams|;
    }
  }

  lemma Sizes(a: set<string>, b: set<string>)
    requires b <= a
    ensures |a - b| == |a| - |b|
  {
    assert a == (a - b) + b;
  }

  lemma NothingOwned(factories: Factories)
    requires InStep(map[], factories)
    ensures |factories| == 0
  {
    var none: Streams := map[];
    assert forall m :: !Owned(none, m);
    assert factories.Keys == {};
  }

  lemma MineKnown(streams: Streams, factories: Factories, id: string)
    requires InStep(streams, factories) && id in streams
    ensures MountsOf(id) <= factories.Keys
  {
    hide Mount;
  }

  class TranscodingService {
    var uriPartsMap: Streams
    var mediaFactories: Factories
    /** The mount points of the RTSP server. */
    var mountPoints: Factories
    var clientInfos: seq<ClientInfo>

    /** The three structures in step. */
    ghost predicate Valid()
      reads this
    {
      mountPoints == mediaFactories && InStep(uriPartsMap, mediaFactories)
    }

    constructor ()
      ensures Valid() && uriPartsMap == map[] && clientInfos == []
    {
      uriPartsMap, mediaFactories, mountPoints, clientInfos := map[], map[], map[], [];
    }

    /** The loop over the registered streams. */
    method PathExists(path: string) returns (found: bool)
      ensures found <==> exists id :: id in uriPartsMap && uriPartsMap[id].fullPath == path
    {
      var left := uriPartsMap.Keys;
      while left != {}
        invariant left <= uriPartsMap.Keys
        invariant forall id :: id in uriPartsMap && id !in left ==> uriPartsMap[id].fullPath != path
        decreases |left|
      {
        var id :| id in left;
        if uriPartsMap[id].fullPath == path { return true; }
        left := left - {id};
      }
      return false;
    }

    /** `AddRtsp`.  `validUri` is the verdict of the uri check, `available` whether the server has mount points. */
    method AddRtsp(id: string, uri: string, validUri: bool, available: bool) returns (r: Option<UriParts>)
      requires Valid()
      modifies this
      ensures Valid() && clientInfos == old(clientInfos)
      ensures r.Some? <==> && validUri && available && Parsed(id, uri).Some? && id !in old(uriPartsMap)
                           && !exists k :: k in old(uriPartsMap) && old(uriPartsMap)[k].fullPath == uri
      ensures r.Some? ==>
                && r == Parsed(id, uri) && uriPartsMap == old(uriPartsMap)[id := r.value]
                && mediaFactories == WithMounts(old(mediaFactories), id, uri)
      ensures r.None? ==> uriPartsMap == old(uriPartsMap) && mediaFactories == old(mediaFactories)
    {
      hide Parsed, Mount, MountsOf, InStep;
      if !validUri { return None; }
      var parts := ParseUri(id, uri);
      if parts.None? { return None; }
      FullPath(id, uri);
      var known := PathExists(uri);
      if known || id in uriPartsMap || !available { return None; }
      AddKeeps(uriPartsMap, mediaFactories, id, parts.value);
      AddFactory(Mount(id, 0), Factory(uri, 0));
      AddFactory(Mount(id, 1), Factory(uri, 1));
      AddFactory(Mount(id, 2), Factory(uri, 2));
      AddFactory(Mount(id, 3), Factory(uri, 3));
      uriPartsMap := uriPartsMap[id := parts.value];
      r := parts;
    }

    method AddFactory(mount: string, f: Factory)
      modifies this`mountPoints, this`mediaFactories
      ensures mountPoints == old(mountPoints)[mount := f] && mediaFactories == old(mediaFactories)[mount := f]
    {
      mountPoints := mountPoints[mount := f];
      mediaFactories := mediaFactories[mount := f];
    }

    /** `RemoveRtsp`: the stream, its factories, and the clients whose uri contains its id. */
    method RemoveRtsp(id: string, available: bool) returns (ok: bool)
      requires Valid()
      modifies this
      ensures Valid() && ok == (available && id in old(uriPartsMap))
      ensures uriPartsMap == if ok then old(uriPartsMap) - {id} else old(uriPartsMap)
      ensures mediaFactories == if ok then old(mediaFactories) - MountsOf(id) else old(mediaFactories)
      ensures clientInfos == if ok then Without(old(clientInfos), "/" + id) else old(clientInfos)
      ensures ok && '/' !in id ==>
                forall c, id1, p: nat :: c in old(clientInfos) && p < 4 && '/' !in id1 && c.uri == Mount(id1, p) ==>
                  (c in clientInfos <==> !Disconnects(id, id1, p))
    {
      hide Mount, InStep, Without, Contains, Disconnects;
      ghost var clients := clientInfos;
      forall c, id1, p: nat | c in clients && p < 4 && '/' !in id && '/' !in id1 && c.uri == Mount(id1, p)
        ensures c in Without(clients, "/" + id) <==> !Disconnects(id, id1, p)
      {
        OthersLeft(clients, id, c, id1, p);
      }
      if !available || id !in uriPartsMap { return false; }
      RemoveClientWithId(id);
      RemoveKeeps(uriPartsMap, mediaFactories, id);
      ghost var f := mediaFactories;
      RemoveFactory(Mount(id, 0));
      RemoveFactory(Mount(id, 1));
      RemoveFactory(Mount(id, 2));
      RemoveFactory(Mount(id, 3));
      assert mediaFactories == f - MountsOf(id);
      uriPartsMap := uriPartsMap - {id};
      return true;
    }

    method RemoveFactory(mount: string)
      modifies this`mountPoints, this`mediaFactories
      ensures mediaFactories == old(mediaFactories) - {mount}
      ensures old(mountPoints == mediaFactories) ==> mountPoints == mediaFactories
    {
      if mount in mediaFactories {
        mountPoints := mountPoints - {mount};
        mediaFactories := mediaFactories - {mount};
      }
    }

    method AddClientInfo(client: nat, id: string, uri: string)
      modifies this`clientInfos
      ensures clientInfos == old(clientInfos) + [ClientInfo(client, id, uri)]
    {
      clientInfos := clientInfos + [ClientInfo(client, id, uri)];
    }

    /** `RemoveClientWithClient`, erasing while iterating. */
    method RemoveClientWithClient(client: nat)
      modifies this`clientInfos
      ensures clientInfos == WithoutClient(old(clientInfos), client)
      ensures forall c :: c in clientInfos <==> c in old(clientInfos) && c.client != client
      ensures forall c :: multiset(clientInfos)[c] == if c.client == client then 0 else multiset(old(clientInfos))[c]
      ensures Subsequence(clientInfos, old(clientInfos))
    {
      ghost var all := clientInfos;
      ghost var seen := 0;
      var k := 0;
      while k < |clientInfos|
        invariant 0 <= k <= |clientInfos| && 0 <= seen <= |all|
        invariant clientInfos[..k] == WithoutClient(all[..seen], client) && clientInfos[k..] == all[seen..]
        decreases |clientInfos| - k
      {
        assert all[..seen + 1][..seen] == all[..seen] && all[seen..][0] == all[seen] == clientInfos[k];
        assert all[seen + 1..] == clientInfos[k..][1..];
        if clientInfos[k].client == client {
          clientInfos := clientInfos[..k] + clientInfos[k + 1..];
        } else {
          assert clientInfos[..k + 1] == clientInfos[..k] + [clientInfos[k]];
          k := k + 1;
        }
        seen := seen + 1;
      }
      assert clientInfos[..k] == clientInfos && all[..seen] == all by { assert |all[seen..]| == 0; }
      WithoutClientIs(all, client);
    }

    /** `RemoveClientWithId`, erasing while iterating. */
    method RemoveClientWithId(id: string)
      modifies this`clientInfos
      ensures clientInfos == Without(old(clientInfos), "/" + id)
      ensures forall c :: c in clientInfos <==> c in old(clientInfos) && !Contains(c.uri, "/" + id)
      ensures forall c ::
                multiset(clientInfos)[c] == if Contains(c.uri, "/" + id) then 0 else multiset(old(clientInfos))[c]
      ensures Subsequence(clientInfos, old(clientInfos))
    {
      hide Contains;
      var mountPath := "/" + id;
      ghost var all := clientInfos;
      ghost var seen := 0;
      var k := 0;
      while k < |clientInfos|
        invariant 0 <= k <= |clientInfos| && 0 <= seen <= |all|
        invariant clientInfos[..k] == Without(all[..seen], mountPath) && clientInfos[k..] == all[seen..]
        decreases |clientInfos| - k
      {
        assert all[..seen + 1][..seen] == all[..seen] && all[seen..][0] == all[seen] == clientInfos[k];
        assert all[seen + 1..] == clientInfos[k..][1..];
        if Contains(clientInfos[k].uri, mountPath) {
          clientInfos := clientInfos[..k] + clientInfos[k + 1..];
        } else {
          assert clientInfos[..k + 1] == clientInfos[..k] + [clientInfos[k]];
          k := k + 1;
        }
        seen := seen + 1;
      }
      assert clientInfos[..k] == clientInfos && all[..seen] == all by { assert |all[seen..]| == 0; }
      WithoutIs(all, mountPath);
    }

    /** Adding a stream and removing it leaves everything as it was, but for the clients that go with it. */
    method AddThenRemove(id: string, uri: string, validUri: bool) returns (added: bool)
      requires Valid()
      modifies this
      ensures Valid() && uriPartsMap == old(uriPartsMap) && mediaFactories == old(mediaFactories)
      ensures clientInfos == if added then Without(old(clientInfos), "/" + id) else old(clientInfos)
    {
      hide InStep, Without, MountsOf, WithMounts, Parsed;
      ghost var streams, factories := uriPartsMap, mediaFactories;
      var r := AddRtsp(id, uri, validUri, true);
      added := r.Some?;
      if added {
        FullPath(id, uri);
        RemoveUndoesAdd(streams, factories, id, r.value);
        var ok := RemoveRtsp(id, true);
      }
    }
  }

  lemma FullPath(id: string, uri: string)
    ensures Parsed(id, uri).Some? ==> Parsed(id, uri).value.fullPath == uri && Parsed(id, uri).value.id == id
  {
  }
}
