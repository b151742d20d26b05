/** What the service's allocation records and attachment sessions say about the loader, and
    how the shard loops keep it so. The service that keeps these facts is in gpu_service.dfy. */
module Residency {
  import opened Prelude
  import opened Records
  import opened LoaderState
  import opened Sessions
  import opened ShardLoops

  datatype Allocation = Allocation(model: string, holder: string, device: int)
  datatype Session = Session(paths: seq<string>, expiresAt: int)

  /** Weight shard paths per model, in ordinal order. */
  type ShardMap = map<string, seq<string>>

  /** Every model has shards, and no path belongs to two of them. */
  ghost predicate Layout(shards: ShardMap) {
    && (forall m: string :: HasShards(shards, m))
    && (forall m: string, n: string, i: nat, j: nat :: PathOnce(shards, m, n, i, j))
  }

  predicate HasShards(shards: ShardMap, m: string) {
    m in shards ==> shards[m] != []
  }

  predicate PathOnce(shards: ShardMap, m: string, n: string, i: nat, j: nat) {
    m in shards && n in shards && i < |shards[m]| && j < |shards[n]| && shards[m][i] == shards[n][j] ==>
      m == n && i == j
  }

  function KeysOf(device: int, paths: seq<string>): (keys: seq<Key>)
    ensures |keys| == |paths| && forall i :: 0 <= i < |paths| ==> keys[i] == Key(device, paths[i])
  {
    seq(|paths|, i requires 0 <= i < |paths| => Key(device, paths[i]))
  }

  function Live(allocs: map<string, Allocation>, model: string, device: int): set<string> {
    set a | a in allocs && allocs[a].model == model && allocs[a].device == device
  }

  /** Each weight shard is loaded once per live allocation of its model on its device. */
  ghost predicate LoadsOk(l: Loader, allocs: map<string, Allocation>, shards: ShardMap) {
    forall m: string, d: int, i: nat :: ShardLoads(l, allocs, shards, m, d, i)
  }

  predicate ShardLoads(l: Loader, allocs: map<string, Allocation>, shards: ShardMap, m: string, d: int, i: nat) {
    m in shards && i < |shards[m]| ==> LoadRefs(l, Key(d, shards[m][i])) == |Live(allocs, m, d)|
  }

  /** Each live allocation's holder has a lease on its model. */
  ghost predicate HoldersOk(allocs: map<string, Allocation>, records: map<string, Record>, shards: ShardMap) {
    forall a: string :: HeldAt(allocs, records, shards, a)
  }

  predicate HeldAt(allocs: map<string, Allocation>, records: map<string, Record>, shards: ShardMap, a: string) {
    a in allocs ==> Held(allocs[a], records, shards)
  }

  predicate Held(a: Allocation, records: map<string, Record>, shards: ShardMap) {
    a.model in shards && a.holder != "" && Leased(records, a)
  }

  /** The allocation's holder has a lease on its model. */
  predicate Leased(records: map<string, Record>, a: Allocation) {
    a.model in records && HasHolder(records[a.model].leases, a.holder)
  }

  /** Every session of a client covers a prefix of the model's shards, which is counted; and
      the first shard is counted at least as often as any other, and more often than one
      the session does not cover. Counts beyond that come from overwritten sessions. */
  ghost predicate ImportsOk(l: Loader, owed: map<SessionKey, Session>, shards: ShardMap) {
    SessionsOk(owed, shards) && forall sk: SessionKey, i: nat :: ImportAt(l, owed, shards, sk, i)
  }

  ghost predicate SessionsOk(owed: map<SessionKey, Session>, shards: ShardMap) {
    forall sk: SessionKey :: SessionAt(owed, shards, sk)
  }

  predicate SessionAt(owed: map<SessionKey, Session>, shards: ShardMap, sk: SessionKey) {
    sk in owed ==> SessionOk(sk, owed[sk], shards)
  }

  predicate SessionOk(sk: SessionKey, s: Session, shards: ShardMap) {
    && sk.client != "" && sk.model in shards && s.paths != []
    && |s.paths| <= |shards[sk.model]| && s.paths == shards[sk.model][..|s.paths|]
  }

  predicate ImportAt(l: Loader, owed: map<SessionKey, Session>, shards: ShardMap, sk: SessionKey, i: nat) {
    sk.model in shards && i < |shards[sk.model]| && sk.client != "" ==> ImportOk(l, owed, shards[sk.model], sk, i)
  }

  predicate ImportOk(l: Loader, owed: map<SessionKey, Session>, paths: seq<string>, sk: SessionKey, i: nat)
    requires i < |paths|
  {
    var first := ImporterCount(l, Key(sk.device, paths[0]), sk.client);
    var here := ImporterCount(l, Key(sk.device, paths[i]), sk.client);
    && first >= here + (if sk in owed && |owed[sk].paths| <= i then 1 else 0)
    && (sk in owed && i < |owed[sk].paths| ==> here >= 1)
  }

  // ---- Loading and unloading a whole model ------------------------------------------------

  lemma KeysDistinct(shards: ShardMap, m: string, d: int)
    requires Layout(shards) && m in shards
    ensures Distinct(KeysOf(d, shards[m]))
  {
    var keys := KeysOf(d, shards[m]);
    forall i: nat, j: nat ensures KeysApart(keys, i, j) { assert PathOnce(shards, m, m, i, j); }
  }

  lemma {:induction false} OccursOnce(keys: seq<Key>, k: Key)
    requires Distinct(keys)
    ensures Occurs(keys, k) == if k in keys then 1 else 0
  {
    if keys != [] {
      var n := |keys| - 1;
      var rest := keys[..n];
      forall i: nat, j: nat ensures KeysApart(rest, i, j) { assert KeysApart(keys, i, j); }
      OccursOnce(rest, k);
      assert keys[..n + 1] == keys;
      NotBefore(keys, n, k);
    }
  }

  /** Key i of a model on a device is among a model's keys exactly when it is its own. */
  lemma KeyOfModel(shards: ShardMap, m: string, d: int, n: string, e: int, i: nat)
    requires Layout(shards) && m in shards && n in shards && i < |shards[n]|
    ensures Key(e, shards[n][i]) in KeysOf(d, shards[m]) <==> m == n && d == e
  {
    var keys, k := KeysOf(d, shards[m]), Key(e, shards[n][i]);
    if k in keys {
      var j: nat :| j < |keys| && keys[j] == k;
      assert PathOnce(shards, m, n, j, i);
    }
    if m == n && d == e { assert keys[i] == k; }
  }

  lemma LiveAdd(allocs: map<string, Allocation>, id: string, a: Allocation, m: string, d: int)
    requires id !in allocs
    ensures |Live(allocs[id := a], m, d)| == |Live(allocs, m, d)| + if a.model == m && a.device == d then 1 else 0
  {
    if a.model == m && a.device == d {
      assert Live(allocs[id := a], m, d) == Live(allocs, m, d) + {id};
    } else {
      assert Live(allocs[id := a], m, d) == Live(allocs, m, d);
    }
  }

  lemma LiveRemove(allocs: map<string, Allocation>, id: string, m: string, d: int)
    requires id in allocs
    ensures |Live(allocs, m, d)|
         == |Live(allocs - {id}, m, d)| + if allocs[id].model == m && allocs[id].device == d then 1 else 0
  {
    LiveAdd(allocs - {id}, id, allocs[id], m, d);
    assert (allocs - {id})[id := allocs[id]] == allocs;
  }

  lemma LoadKeepsShard(l: Loader, l': Loader, allocs: map<string, Allocation>, shards: ShardMap,
                       id: string, a: Allocation, m: string, d: int, i: nat)
    requires Layout(shards) && ShardLoads(l, allocs, shards, m, d, i) && a.model in shards && id !in allocs
    requires LoadedOn(l.allocations, l'.allocations, KeysOf(a.device, shards[a.model]))
    ensures ShardLoads(l', allocs[id := a], shards, m, d, i)
  {
    if m in shards && i < |shards[m]| {
      var keys, k := KeysOf(a.device, shards[a.model]), Key(d, shards[m][i]);
      assert LoadedAt(l.allocations, l'.allocations, keys, k);
      KeysDistinct(shards, a.model, a.device);
      OccursOnce(keys, k);
      KeyOfModel(shards, a.model, a.device, m, d, i);
      LiveAdd(allocs, id, a, m, d);
    }
  }

  lemma LoadKeepsLoads(l: Loader, l': Loader, allocs: map<string, Allocation>, shards: ShardMap,
                       id: string, a: Allocation)
    requires Layout(shards) && LoadsOk(l, allocs, shards) && a.model in shards && id !in allocs
    requires LoadedOn(l.allocations, l'.allocations, KeysOf(a.device, shards[a.model]))
    ensures LoadsOk(l', allocs[id := a], shards)
  {
    var allocs' := allocs[id := a];
    forall m: string, d: int, i: nat ensures ShardLoads(l', allocs', shards, m, d, i) {
      assert ShardLoads(l, allocs, shards, m, d, i);
      LoadKeepsShard(l, l', allocs, shards, id, a, m, d, i);
    }
  }

  lemma UnloadKeepsShard(l: Loader, l': Loader, allocs: map<string, Allocation>, shards: ShardMap, id: string,
                         m: string, d: int, i: nat)
    requires Layout(shards) && ShardLoads(l, allocs, shards, m, d, i) && id in allocs && allocs[id].model in shards
    requires UnloadedOn(l.allocations, l'.allocations, KeysOf(allocs[id].device, shards[allocs[id].model]))
    requires ValidLoader(l)
    ensures ShardLoads(l', allocs - {id}, shards, m, d, i)
  {
    if m in shards && i < |shards[m]| {
      var a := allocs[id];
      var keys, k := KeysOf(a.device, shards[a.model]), Key(d, shards[m][i]);
      assert UnloadedAt(l.allocations, l'.allocations, keys, k) && AllocOk(l.allocations, k);
      KeyOfModel(shards, a.model, a.device, m, d, i);
      LiveRemove(allocs, id, m, d);
    }
  }

  lemma UnloadKeepsLoads(l: Loader, l': Loader, allocs: map<string, Allocation>, shards: ShardMap, id: string)
    requires Layout(shards) && LoadsOk(l, allocs, shards) && id in allocs && allocs[id].model in shards
    requires UnloadedOn(l.allocations, l'.allocations, KeysOf(allocs[id].device, shards[allocs[id].model]))
    requires ValidLoader(l)
    ensures LoadsOk(l', allocs - {id}, shards)
  {
    var allocs' := allocs - {id};
    forall m: string, d: int, i: nat ensures ShardLoads(l', allocs', shards, m, d, i) {
      assert ShardLoads(l, allocs, shards, m, d, i);
      UnloadKeepsShard(l, l', allocs, shards, id, m, d, i);
    }
  }

  // ---- Loads and unloads that stop half way ------------------------------------------------

  lemma KeyInPrefix(shards: ShardMap, m: string, d: int, n: nat, i: nat)
    requires Layout(shards) && m in shards && n <= |shards[m]| && i < |shards[m]|
    ensures KeysOf(d, shards[m])[i] in KeysOf(d, shards[m])[..n] <==> i < n
  {
    var keys := KeysOf(d, shards[m]);
    if i < n { assert keys[..n][i] == keys[i]; }
    if keys[i] in keys[..n] {
      var j: nat :| j < n && keys[..n][j] == keys[i];
      assert PathOnce(shards, m, m, i, j);
    }
  }

  /** With its shards unloaded, a live allocation is one load short. */
  lemma MissingLoads(l: Loader, allocs: map<string, Allocation>, shards: ShardMap, id: string)
    requires LoadsOk(l, allocs - {id}, shards) && id in allocs && allocs[id].model in shards && Layout(shards)
    ensures !LoadsOk(l, allocs, shards)
  {
    var m, d := allocs[id].model, allocs[id].device;
    assert HasShards(shards, m) && ShardLoads(l, allocs - {id}, shards, m, d, 0);
    LiveRemove(allocs, id, m, d);
    assert !ShardLoads(l, allocs, shards, m, d, 0);
  }

  /** What an unload that stops before shard n leaves of the load count of shard i. */
  lemma UnloadedShard(l: Loader, l': Loader, allocs: map<string, Allocation>, shards: ShardMap, id: string,
                      n: nat, i: nat)
    requires Layout(shards) && LoadsOk(l, allocs, shards) && id in allocs && allocs[id].model in shards
    requires ValidLoader(l) && n <= |shards[allocs[id].model]| && i < |shards[allocs[id].model]|
    requires UnloadedOn(l.allocations, l'.allocations, KeysOf(allocs[id].device, shards[allocs[id].model])[..n])
    ensures LoadRefs(l', Key(allocs[id].device, shards[allocs[id].model][i]))
         == |Live(allocs, allocs[id].model, allocs[id].device)| - if i < n then 1 else 0
  {
    var m, d := allocs[id].model, allocs[id].device;
    var keys := KeysOf(d, shards[m]);
    assert ShardLoads(l, allocs, shards, m, d, i) && AllocOk(l.allocations, keys[i]);
    assert UnloadedAt(l.allocations, l'.allocations, keys[..n], keys[i]);
    assert id in Live(allocs, m, d);
    KeyInPrefix(shards, m, d, n, i);
  }

  /** An unload that stops before shard n: the load counts still fit the allocations exactly
      when nothing was unloaded, and fit them without this one exactly when everything was. */
  lemma StoppedUnload(l: Loader, l': Loader, allocs: map<string, Allocation>, shards: ShardMap, id: string, n: nat)
    requires Layout(shards) && LoadsOk(l, allocs, shards) && id in allocs && allocs[id].model in shards
    requires ValidLoader(l) && n <= |shards[allocs[id].model]|
    requires UnloadedOn(l.allocations, l'.allocations, KeysOf(allocs[id].device, shards[allocs[id].model])[..n])
    ensures LoadsOk(l', allocs, shards) <==> n == 0
    ensures LoadsOk(l', allocs - {id}, shards) <==> n == |shards[allocs[id].model]|
  {
    var m, d := allocs[id].model, allocs[id].device;
    var keys := KeysOf(d, shards[m]);
    assert HasShards(shards, m);
    LiveRemove(allocs, id, m, d);
    UnloadedShard(l, l', allocs, shards, id, n, 0);
    if n == 0 {
      NothingUnloaded(l.allocations, l'.allocations);
      SameLoadsStayOk(l, l', allocs, shards);
    } else {
      assert !ShardLoads(l', allocs, shards, m, d, 0);
    }
    if n == |keys| {
      assert keys[..n] == keys;
      UnloadKeepsLoads(l, l', allocs, shards, id);
    } else {
      UnloadedShard(l, l', allocs, shards, id, n, n);
      assert !ShardLoads(l', allocs - {id}, shards, m, d, n);
    }
  }

  lemma NothingUnloaded(before: map<Key, Alloc>, now: map<Key, Alloc>)
    requires UnloadedOn(before, now, [])
    ensures now == before
  {
    forall k: Key ensures SameEntry(now, before, k) { assert UnloadedAt(before, now, [], k); }
    SameEntries(now, before);
  }

  // ---- The load counts of a call ------------------------------------------------------------

  predicate LoadedOnce(l: Loader, l': Loader, device: int, paths: seq<string>, k: Key) {
    LoadRefs(l', k) == LoadRefs(l, k) + if k.device == device && k.path in paths then 1 else 0
  }

  /** One load more on each path of the device that the limit admits, 0 admitting all, and no
      other load count moves. */
  ghost predicate LoadedWithin(l: Loader, l': Loader, device: int, paths: seq<string>, maxShards: nat) {
    var within := if maxShards == 0 || |paths| <= maxShards then paths else paths[..maxShards];
    forall k: Key :: LoadedOnce(l, l', device, within, k)
  }

  predicate UnloadedOnce(l: Loader, l': Loader, device: int, paths: seq<string>, k: Key) {
    LoadRefs(l', k) == LoadRefs(l, k) - if k.device == device && k.path in paths then 1 else 0
  }

  /** One load less on each path of the device, and no other load count moves. */
  ghost predicate OneLoadLess(l: Loader, l': Loader, device: int, paths: seq<string>) {
    forall k: Key :: UnloadedOnce(l, l', device, paths, k)
  }

  lemma WalkCounts(l: Loader, l': Loader, shards: ShardMap, m: string, device: int, maxShards: nat)
    requires Layout(shards) && m in shards
    requires LoadedOn(l.allocations, l'.allocations, Walked(KeysOf(device, shards[m]), maxShards))
    ensures LoadedWithin(l, l', device, shards[m], maxShards)
  {
    var paths := shards[m];
    var within := if maxShards == 0 || |paths| <= maxShards then paths else paths[..maxShards];
    var keys := KeysOf(device, within);
    assert keys == Walked(KeysOf(device, paths), maxShards);
    forall i: nat, j: nat ensures KeysApart(keys, i, j) { assert PathOnce(shards, m, m, i, j); }
    forall k: Key ensures LoadedOnce(l, l', device, within, k) {
      assert LoadedAt(l.allocations, l'.allocations, keys, k);
      OccursOnce(keys, k);
      KeysOfMember(device, within, k);
    }
  }

  lemma UnloadCounts(l: Loader, l': Loader, device: int, paths: seq<string>)
    requires ValidLoader(l) && UnloadedOn(l.allocations, l'.allocations, KeysOf(device, paths))
    requires forall i :: 0 <= i < |paths| ==> Key(device, paths[i]) in l.allocations
    ensures OneLoadLess(l, l', device, paths)
  {
    var keys := KeysOf(device, paths);
    forall k: Key ensures UnloadedOnce(l, l', device, paths, k) {
      assert UnloadedAt(l.allocations, l'.allocations, keys, k) && AllocOk(l.allocations, k);
      KeysOfMember(device, paths, k);
      if k in keys {
        var i :| 0 <= i < |keys| && keys[i] == k;
        assert k in l.allocations;
      }
    }
  }

  predicate Limited(maxShards: nat, count: nat) {
    0 < maxShards < count
  }

  /** A load under a shard limit fits its allocation exactly when the limit does not bite. */
  lemma LimitedLoad(l: Loader, l': Loader, allocs: map<string, Allocation>, shards: ShardMap, id: string,
                    a: Allocation, maxShards: nat)
    requires Layout(shards) && LoadsOk(l, allocs, shards) && a.model in shards && id !in allocs
    requires LoadedOn(l.allocations, l'.allocations, Walked(KeysOf(a.device, shards[a.model]), maxShards))
    ensures LoadsOk(l', allocs[id := a], shards) <==> !Limited(maxShards, |shards[a.model]|)
  {
    var keys := KeysOf(a.device, shards[a.model]);
    if Limited(maxShards, |keys|) {
      MissedShard(l, l', allocs, shards, id, a, keys[..maxShards], maxShards);
    } else {
      LoadKeepsLoads(l, l', allocs, shards, id, a);
    }
  }

  /** Loads that reach shard n at most leave an allocation of the model one load short. */
  lemma MissedShard(l: Loader, l': Loader, allocs: map<string, Allocation>, shards: ShardMap, id: string,
                    a: Allocation, done: seq<Key>, n: nat)
    requires Layout(shards) && LoadsOk(l, allocs, shards) && a.model in shards && id !in allocs
    requires n < |shards[a.model]| && LoadedOn(l.allocations, l'.allocations, done)
    requires forall k :: k in done ==> k in KeysOf(a.device, shards[a.model])[..n]
    ensures !LoadsOk(l', allocs[id := a], shards)
  {
    var k := KeysOf(a.device, shards[a.model])[n];
    KeyInPrefix(shards, a.model, a.device, n, n);
    OccursMember(done, k);
    assert LoadedAt(l.allocations, l'.allocations, done, k) && ShardLoads(l, allocs, shards, a.model, a.device, n);
    LiveAdd(allocs, id, a, a.model, a.device);
    assert !ShardLoads(l', allocs[id := a], shards, a.model, a.device, n);
  }

  /** Loads that no new allocation accounts for fit only when there are none. */
  lemma ExtraLoads(l: Loader, l': Loader, allocs: map<string, Allocation>, shards: ShardMap, m: string, d: int,
                   done: seq<Key>)
    requires Layout(shards) && LoadsOk(l, allocs, shards) && m in shards
    requires LoadedOn(l.allocations, l'.allocations, done) && ValidLoader(l)
    requires forall k :: k in done ==> k in KeysOf(d, shards[m])
    ensures LoadsOk(l', allocs, shards) <==> done == []
  {
    if done == [] {
      NothingLoaded(l.allocations, l'.allocations);
      SameLoadsStayOk(l, l', allocs, shards);
    } else {
      var k, keys := done[0], KeysOf(d, shards[m]);
      assert k in done;
      var i: nat :| i < |keys| && keys[i] == k;
      OccursMember(done, k);
      assert LoadedAt(l.allocations, l'.allocations, done, k) && ShardLoads(l, allocs, shards, m, d, i);
      assert !ShardLoads(l', allocs, shards, m, d, i);
    }
  }

  /** After a limited load of a model that was not resident on the device, no unload of its
      allocation gets past the limit. */
  lemma LimitedLoadIsNotUnloaded(l: Loader, l': Loader, allocs: map<string, Allocation>, shards: ShardMap,
                                 a: Allocation, maxShards: nat, u: UnloadCodes)
    requires Layout(shards) && LoadsOk(l, allocs, shards) && ValidLoader(l) && a.model in shards
    requires Limited(maxShards, |shards[a.model]|) && Live(allocs, a.model, a.device) == {}
    requires LoadedOn(l.allocations, l'.allocations, Walked(KeysOf(a.device, shards[a.model]), maxShards))
    ensures RefusesUnload(l'.allocations, KeysOf(a.device, shards[a.model])[maxShards], u)
  {
    var keys := KeysOf(a.device, shards[a.model]);
    var k := keys[maxShards];
    KeyInPrefix(shards, a.model, a.device, maxShards, maxShards);
    OccursMember(keys[..maxShards], k);
    assert LoadedAt(l.allocations, l'.allocations, keys[..maxShards], k) && AllocOk(l.allocations, k);
    assert ShardLoads(l, allocs, shards, a.model, a.device, maxShards);
  }

  predicate SameCount(l: Loader, l': Loader, k: Key, c: string) {
    ImporterCount(l', k, c) == ImporterCount(l, k, c)
  }

  ghost predicate SameCounts(l: Loader, l': Loader) {
    forall k: Key, c: string :: SameCount(l, l', k, c)
  }

  /** Neither loads nor successful unloads change who imports what. */
  lemma SameCountsSameImports(l: Loader, l': Loader, owed: map<SessionKey, Session>, shards: ShardMap)
    requires ImportsOk(l, owed, shards) && SameCounts(l, l')
    ensures ImportsOk(l', owed, shards)
  {
    forall sk: SessionKey, i: nat ensures ImportAt(l', owed, shards, sk, i) {
      assert ImportAt(l, owed, shards, sk, i);
      if sk.model in shards && i < |shards[sk.model]| {
        assert SameCount(l, l', Key(sk.device, shards[sk.model][0]), sk.client);
        assert SameCount(l, l', Key(sk.device, shards[sk.model][i]), sk.client);
      }
    }
  }

  lemma LoadKeepsImports(l: Loader, l': Loader, keys: seq<Key>, k: Key, c: string)
    requires LoadedOn(l.allocations, l'.allocations, keys)
    ensures SameCount(l, l', k, c)
  {
    assert LoadedAt(l.allocations, l'.allocations, keys, k);
  }

  lemma UnloadKeepsImports(l: Loader, l': Loader, keys: seq<Key>, k: Key, c: string)
    requires UnloadedOn(l.allocations, l'.allocations, keys) && ValidLoader(l)
    requires forall i :: 0 <= i < |keys| ==> Unloadable(l.allocations, keys[i])
    ensures SameCount(l, l', k, c)
  {
    assert UnloadedAt(l.allocations, l'.allocations, keys, k);
    if k in l.allocations && k !in l'.allocations {
      assert AllocOk(l.allocations, k);
      SumZero(l.allocations[k].importers);
    }
  }

  /** With no session on the model and device, a shard is imported only if the first is. */
  lemma FirstShardImportedFirst(l: Loader, owed: map<SessionKey, Session>, shards: ShardMap, m: string, d: int, i: nat)
    requires ImportsOk(l, owed, shards) && ValidLoader(l) && m in shards && i < |shards[m]|
    requires Key(d, shards[m][0]) in l.allocations && Key(d, shards[m][i]) in l.allocations
    requires l.allocations[Key(d, shards[m][i])].importerRefs > 0
    ensures l.allocations[Key(d, shards[m][0])].importerRefs > 0
  {
    var here, first := l.allocations[Key(d, shards[m][i])], l.allocations[Key(d, shards[m][0])];
    assert AllocOk(l.allocations, Key(d, shards[m][i])) && AllocOk(l.allocations, Key(d, shards[m][0]));
    SumZero(here.importers);
    var c :| c in here.importers && here.importers[c] != 0;
    assert ImportAt(l, owed, shards, SessionKey(m, d, c), i);
    SumBounds(first.importers, c);
  }

  // ---- Attaching and detaching ------------------------------------------------------------

  predicate OneCountMore(l: Loader, l': Loader, keys: seq<Key>, client: string, k: Key, c: string) {
    ImporterCount(l', k, c) == ImporterCount(l, k, c) + if c == client && k in keys then 1 else 0
  }

  predicate SameRefs(l: Loader, l': Loader, k: Key) {
    LoadRefs(l', k) == LoadRefs(l, k)
  }

  lemma AttachAddsOne(l: Loader, l': Loader, keys: seq<Key>, client: string, k: Key, c: string)
    requires AttachedOn(l.allocations, l'.allocations, keys, client) && Distinct(keys)
    requires AllResident(keys, l.allocations)
    ensures OneCountMore(l, l', keys, client, k, c) && SameRefs(l, l', k)
  {
    OccursOnce(keys, k);
    assert AttachedAt(l.allocations, l'.allocations, keys, client, k);
    if k in l.allocations { AttachedOnce(l.allocations[k], client); }
  }

  lemma AttachedOnce(a: Alloc, client: string)
    ensures AttachedTimes(a, client, 1) == AttachAlloc(a, client)
  {
    assert AttachedTimes(a, client, 1) == AttachAlloc(AttachedTimes(a, client, 0), client);
  }

  lemma DetachTakesOne(l: Loader, l': Loader, keys: seq<Key>, client: string, k: Key, c: string)
    requires DetachedOn(l.allocations, l'.allocations, keys, client)
    ensures OneCountLess(l, l', keys, client, k, c) && SameRefs(l, l', k)
  {
    assert DetachedAt(l.allocations, l'.allocations, keys, client, k);
  }

  /** A session that opens, even over an older one of the same client, keeps the imports
      explained. */
  lemma OpenKeepsImports(l: Loader, l': Loader, owed: map<SessionKey, Session>, shards: ShardMap,
                         sk: SessionKey, s: Session)
    requires ImportsOk(l, owed, shards) && Layout(shards) && SessionOk(sk, s, shards)
    requires forall k: Key, c: string :: OneCountMore(l, l', KeysOf(sk.device, s.paths), sk.client, k, c)
    ensures ImportsOk(l', owed[sk := s], shards)
  {
    var owed' := owed[sk := s];
    forall t: SessionKey ensures SessionAt(owed', shards, t) { assert SessionAt(owed, shards, t); }
    forall t: SessionKey, i: nat ensures ImportAt(l', owed', shards, t, i) {
      assert ImportAt(l, owed, shards, t, i);
      OpenKeepsImport(l, l', owed, shards, sk, s, t, i);
    }
  }

  lemma OpenKeepsImport(l: Loader, l': Loader, owed: map<SessionKey, Session>, shards: ShardMap,
                        sk: SessionKey, s: Session, t: SessionKey, i: nat)
    requires ImportAt(l, owed, shards, t, i) && Layout(shards) && SessionOk(sk, s, shards)
    requires forall k: Key, c: string :: OneCountMore(l, l', KeysOf(sk.device, s.paths), sk.client, k, c)
    ensures ImportAt(l', owed[sk := s], shards, t, i)
  {
    if t.model in shards && i < |shards[t.model]| && t.client != "" {
      var keys := KeysOf(sk.device, s.paths);
      InPrefix(shards, sk, s, t, 0);
      InPrefix(shards, sk, s, t, i);
      assert OneCountMore(l, l', keys, sk.client, Key(t.device, shards[t.model][0]), t.client);
      assert OneCountMore(l, l', keys, sk.client, Key(t.device, shards[t.model][i]), t.client);
    }
  }

  /** A session covers a shard exactly when it is the same model and device and the shard is
      within its prefix. */
  lemma InPrefix(shards: ShardMap, sk: SessionKey, s: Session, t: SessionKey, i: nat)
    requires Layout(shards) && SessionOk(sk, s, shards) && t.model in shards && i < |shards[t.model]|
    ensures Key(t.device, shards[t.model][i]) in KeysOf(sk.device, s.paths)
       <==> t.model == sk.model && t.device == sk.device && i < |s.paths|
  {
    var keys := KeysOf(sk.device, s.paths);
    var k := Key(t.device, shards[t.model][i]);
    if k in keys {
      var j: nat :| j < |keys| && keys[j] == k;
      assert PathOnce(shards, sk.model, t.model, j, i);
    }
    if t.model == sk.model && t.device == sk.device && i < |s.paths| {
      assert keys[i] == k;
    }
  }

  predicate OneCountLess(l: Loader, l': Loader, keys: seq<Key>, client: string, k: Key, c: string) {
    ImporterCount(l', k, c)
    == ImporterCount(l, k, c) - if c == client && k in keys && ImporterCount(l, k, c) > 0 then 1 else 0
  }

  /** The client's first shard is counted more often than any that is not yet detached. */
  predicate FirstAhead(l: Loader, sk: SessionKey, paths: seq<string>, n: nat)
    requires paths != []
  {
    forall i :: n <= i < |paths| ==>
      ImporterCount(l, Key(sk.device, paths[i]), sk.client) < ImporterCount(l, Key(sk.device, paths[0]), sk.client)
  }

  /** A session whose detach stops before shard n: the imports stay explained without it
      exactly when nothing was detached, or the first shard stays ahead of those left over.
      (When all was detached, none is left over.) */
  lemma StoppedDetach(l: Loader, l': Loader, owed: map<SessionKey, Session>, shards: ShardMap, sk: SessionKey, n: nat)
    requires ImportsOk(l, owed, shards) && Layout(shards) && sk in owed && SessionOk(sk, owed[sk], shards)
    requires n <= |owed[sk].paths|
    requires forall k: Key, c: string :: OneCountLess(l, l', KeysOf(sk.device, owed[sk].paths)[..n], sk.client, k, c)
    ensures ImportsOk(l', owed - {sk}, shards) <==> n == 0 || FirstAhead(l, sk, owed[sk].paths, n)
  {
    var owed' := owed - {sk};
    var paths := owed[sk].paths;
    forall t: SessionKey ensures SessionAt(owed', shards, t) { assert SessionAt(owed, shards, t); }
    if n == 0 || FirstAhead(l, sk, paths, n) {
      forall t: SessionKey, i: nat ensures ImportAt(l', owed', shards, t, i) {
        assert ImportAt(l, owed, shards, t, i) && ImportAt(l, owed, shards, t, 0);
        StoppedDetachAt(l, l', owed, shards, sk, n, t, i);
      }
    } else {
      var i: nat :| n <= i < |paths| && ImporterCount(l, Key(sk.device, paths[i]), sk.client)
                                        >= ImporterCount(l, Key(sk.device, paths[0]), sk.client);
      assert ImportAt(l, owed, shards, sk, i) && ImportAt(l, owed, shards, sk, 0);
      StoppedDetachAt(l, l', owed, shards, sk, n, sk, i);
      assert !ImportAt(l', owed', shards, sk, i);
    }
  }

  lemma StoppedDetachAt(l: Loader, l': Loader, owed: map<SessionKey, Session>, shards: ShardMap, sk: SessionKey,
                        n: nat, t: SessionKey, i: nat)
    requires ImportAt(l, owed, shards, t, i) && ImportAt(l, owed, shards, t, 0)
    requires Layout(shards) && sk in owed && SessionOk(sk, owed[sk], shards) && n <= |owed[sk].paths|
    requires forall k: Key, c: string :: OneCountLess(l, l', KeysOf(sk.device, owed[sk].paths)[..n], sk.client, k, c)
    ensures t != sk || n == 0 || i < n || i >= |owed[sk].paths|
            || ImporterCount(l, Key(sk.device, owed[sk].paths[i]), sk.client)
               < ImporterCount(l, Key(sk.device, owed[sk].paths[0]), sk.client)
       <==> ImportAt(l', owed - {sk}, shards, t, i)
  {
    if t.model in shards && i < |shards[t.model]| && t.client != "" {
      var s := owed[sk];
      var head := s.(paths := s.paths[..n]);
      var keys := KeysOf(sk.device, s.paths)[..n];
      if n > 0 {
        assert KeysOf(sk.device, head.paths) == keys && head.paths == shards[sk.model][..n];
        InPrefix(shards, sk, head, t, 0);
        InPrefix(shards, sk, head, t, i);
      }
      assert OneCountLess(l, l', keys, sk.client, Key(t.device, shards[t.model][0]), t.client);
      assert OneCountLess(l, l', keys, sk.client, Key(t.device, shards[t.model][i]), t.client);
    }
  }

  /** A session that ends takes exactly its own counts with it. */
  lemma CloseKeepsImports(l: Loader, l': Loader, owed: map<SessionKey, Session>, shards: ShardMap, sk: SessionKey)
    requires ImportsOk(l, owed, shards) && Layout(shards) && sk in owed
    requires forall k: Key, c: string :: OneCountLess(l, l', KeysOf(sk.device, owed[sk].paths), sk.client, k, c)
    ensures ImportsOk(l', owed - {sk}, shards)
  {
    assert SessionAt(owed, shards, sk);
    assert KeysOf(sk.device, owed[sk].paths)[..|owed[sk].paths|] == KeysOf(sk.device, owed[sk].paths);
    StoppedDetach(l, l', owed, shards, sk, |owed[sk].paths|);
  }

  /** The client of a session still counts its shards as often as before. */
  predicate SessionCount(l: Loader, l': Loader, owed: map<SessionKey, Session>, t: SessionKey, i: nat) {
    t in owed && i < |owed[t].paths| ==> SameCount(l, l', Key(t.device, owed[t].paths[i]), t.client)
  }

  ghost predicate SessionCounts(l: Loader, l': Loader, owed: map<SessionKey, Session>) {
    forall t: SessionKey, i: nat :: SessionCount(l, l', owed, t, i)
  }

  /** A session that ends, wherever its detach stops, leaves the counts of all others. */
  lemma CloseLeavesOthers(l: Loader, l': Loader, owed: map<SessionKey, Session>, shards: ShardMap, sk: SessionKey,
                          n: nat)
    requires SessionsOk(owed, shards) && Layout(shards) && sk in owed && n <= |owed[sk].paths|
    requires forall k: Key, c: string :: OneCountLess(l, l', KeysOf(sk.device, owed[sk].paths)[..n], sk.client, k, c)
    ensures SessionCounts(l, l', owed - {sk})
  {
    var owed', keys := owed - {sk}, KeysOf(sk.device, owed[sk].paths)[..n];
    assert SessionAt(owed, shards, sk);
    forall t: SessionKey, i: nat ensures SessionCount(l, l', owed', t, i) {
      if t in owed' && i < |owed'[t].paths| {
        assert SessionAt(owed, shards, t);
        InPrefix(shards, sk, owed[sk], t, i);
        assert OneCountLess(l, l', keys, sk.client, Key(t.device, owed[t].paths[i]), t.client);
      }
    }
  }

  lemma SessionCountsChain(l: Loader, l': Loader, l'': Loader, owed: map<SessionKey, Session>,
                           more: map<SessionKey, Session>)
    requires SessionCounts(l, l', owed) && SessionCounts(l', l'', more)
    requires forall t :: t in owed ==> t in more && more[t] == owed[t]
    ensures SessionCounts(l, l'', owed)
  {
    forall t: SessionKey, i: nat ensures SessionCount(l, l'', owed, t, i) {
      assert SessionCount(l, l', owed, t, i) && SessionCount(l', l'', more, t, i);
    }
  }

  ghost predicate SameLoads(l: Loader, l': Loader) {
    forall k: Key :: SameRefs(l, l', k)
  }

  // ---- Which counts go with sessions --------------------------------------------------------

  /** The session has an import of this client on this key. */
  predicate CoveredBy(sk: SessionKey, s: Session, k: Key, c: string) {
    sk.client == c && sk.device == k.device && k.path in s.paths
  }

  predicate Covers(m: map<SessionKey, Session>, k: Key, c: string) {
    exists sk :: sk in m && CoveredBy(sk, m[sk], k, c)
  }

  /** The client's imports of a buffer once these sessions have given theirs back. */
  function CountWithout(l: Loader, m: map<SessionKey, Session>, k: Key, c: string): int {
    ImporterCount(l, k, c) - if Covers(m, k, c) && ImporterCount(l, k, c) > 0 then 1 else 0
  }

  predicate ReturnedAt(l: Loader, l': Loader, m: map<SessionKey, Session>, k: Key, c: string) {
    ImporterCount(l', k, c) == CountWithout(l, m, k, c)
  }

  ghost predicate AllReturned(l: Loader, l': Loader, m: map<SessionKey, Session>) {
    forall k: Key, c: string :: ReturnedAt(l, l', m, k, c)
  }

  ghost predicate AllOneLess(l: Loader, l': Loader, keys: seq<Key>, client: string) {
    forall k: Key, c: string :: OneCountLess(l, l', keys, client, k, c)
  }

  ghost predicate AllOneMore(l: Loader, l': Loader, keys: seq<Key>, client: string) {
    forall k: Key, c: string :: OneCountMore(l, l', keys, client, k, c)
  }

  lemma KeysOfMember(device: int, paths: seq<string>, k: Key)
    ensures k in KeysOf(device, paths) <==> k.device == device && k.path in paths
  {
    var keys := KeysOf(device, paths);
    if k.device == device && k.path in paths {
      var i :| 0 <= i < |paths| && paths[i] == k.path;
      assert keys[i] == k;
    }
  }

  /** No buffer is covered for a client by two sessions. */
  lemma CoveredOnce(shards: ShardMap, sk: SessionKey, s: Session, t: SessionKey, u: Session, k: Key, c: string)
    requires Layout(shards) && SessionOk(sk, s, shards) && SessionOk(t, u, shards)
    requires CoveredBy(sk, s, k, c) && CoveredBy(t, u, k, c)
    ensures sk == t
  {
    var i :| 0 <= i < |s.paths| && s.paths[i] == k.path;
    var j :| 0 <= j < |u.paths| && u.paths[j] == k.path;
    assert PathOnce(shards, sk.model, t.model, i, j);
  }

  lemma NothingReturned(l: Loader)
    ensures AllReturned(l, l, map[])
  {
  }

  lemma ReturnedOneMore(l: Loader, l': Loader, l'': Loader, m: map<SessionKey, Session>, shards: ShardMap,
                         sk: SessionKey, s: Session)
    requires Layout(shards) && SessionsOk(m, shards) && SessionOk(sk, s, shards) && sk !in m
    requires AllReturned(l, l', m) && AllOneLess(l', l'', KeysOf(sk.device, s.paths), sk.client)
    ensures AllReturned(l, l'', m[sk := s])
  {
    var keys, m' := KeysOf(sk.device, s.paths), m[sk := s];
    forall k: Key, c: string ensures ReturnedAt(l, l'', m', k, c) {
      assert ReturnedAt(l, l', m, k, c) && OneCountLess(l', l'', keys, sk.client, k, c);
      KeysOfMember(sk.device, s.paths, k);
      CoversOneMore(m, shards, sk, s, k, c);
    }
  }

  lemma CoversOneMore(m: map<SessionKey, Session>, shards: ShardMap, sk: SessionKey, s: Session, k: Key, c: string)
    requires Layout(shards) && SessionsOk(m, shards) && SessionOk(sk, s, shards) && sk !in m
    ensures Covers(m[sk := s], k, c) <==> Covers(m, k, c) || CoveredBy(sk, s, k, c)
    ensures !(Covers(m, k, c) && CoveredBy(sk, s, k, c))
  {
    var m' := m[sk := s];
    if Covers(m, k, c) {
      var t :| t in m && CoveredBy(t, m[t], k, c);
      assert t in m' && m'[t] == m[t] && SessionAt(m, shards, t);
      if CoveredBy(sk, s, k, c) { CoveredOnce(shards, sk, s, t, m[t], k, c); }
    }
    if CoveredBy(sk, s, k, c) { assert sk in m' && m'[sk] == s; }
    if Covers(m', k, c) {
      var t :| t in m' && CoveredBy(t, m'[t], k, c);
      assert t != sk ==> t in m && m[t] == m'[t];
    }
  }

  lemma SameLoadsStayOk(l: Loader, l': Loader, allocs: map<string, Allocation>, shards: ShardMap)
    requires LoadsOk(l, allocs, shards) && SameLoads(l, l')
    ensures LoadsOk(l', allocs, shards)
  {
    forall m: string, d: int, i: nat ensures ShardLoads(l', allocs, shards, m, d, i) {
      assert ShardLoads(l, allocs, shards, m, d, i);
      if m in shards && i < |shards[m]| { assert SameRefs(l, l', Key(d, shards[m][i])); }
    }
  }

  /** Once the last allocation of a model on a device is gone, none of its shards is
      resident there; and while one is live, all of them are. */
  lemma ResidentWhileLive(l: Loader, allocs: map<string, Allocation>, shards: ShardMap, m: string, d: int, i: nat)
    requires ValidLoader(l) && LoadsOk(l, allocs, shards) && m in shards && i < |shards[m]|
    ensures Key(d, shards[m][i]) in l.allocations <==> exists a :: a in Live(allocs, m, d)
  {
    assert ShardLoads(l, allocs, shards, m, d, i) && AllocOk(l.allocations, Key(d, shards[m][i]));
    if Key(d, shards[m][i]) in l.allocations {
      assert Live(allocs, m, d) != {};
    }
  }
}
