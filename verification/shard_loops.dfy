/** The shard loops of the GPU service with their rollbacks (internal/app/gpu.go:748-846,
    1078-1114, 912-943, 1262-1281), on the loader object. */
module ShardLoops {
  import opened Prelude
  import opened CudaBridge
  import opened LoaderState
  import opened DriverUse
  import opened GdsLoader

  /** now is what loading the keys of `done`, one count each, makes of `before`. */
  ghost predicate LoadedOn(before: map<Key, Alloc>, now: map<Key, Alloc>, done: seq<Key>) {
    forall k: Key :: LoadedAt(before, now, done, k)
  }

  ghost predicate LoadedAt(before: map<Key, Alloc>, now: map<Key, Alloc>, done: seq<Key>, k: Key) {
    Entry(now, k) == LoadedEntry(before, now, done, k)
  }

  function Entry(m: map<Key, Alloc>, k: Key): Option<Alloc> {
    if k in m then Some(m[k]) else None
  }

  ghost function LoadedEntry(before: map<Key, Alloc>, now: map<Key, Alloc>, done: seq<Key>, k: Key): Option<Alloc> {
    var n := Occurs(done, k);
    if k in before then Some(before[k].(loadRefs := before[k].loadRefs + n))
    else if n == 0 then None
    else if k in now then Some(now[k].(loadRefs := n, importerRefs := 0, importers := map[]))
    else Some(Alloc(0, 0, 0, 0, map[], false))
  }

  /** The codes with which freeing a buffer of an active device succeeds. */
  predicate FreeWorks(f: FreeCodes) {
    f.push == 0 && f.setDevice == 0 && f.free == 0
  }

  /** A rollback takes a load back unless it is the key's only one and its free fails. */
  predicate TakesBack(before: map<Key, Alloc>, rest: seq<Key>, k: Key, u: UnloadCodes) {
    k in before || k in rest || FreeWorks(u.free)
  }

  /** The loads a rollback of `files` leaves behind. */
  function Stuck(before: map<Key, Alloc>, files: seq<Key>, outs: seq<UnloadCodes>): seq<Key>
    requires |files| <= |outs|
  {
    if files == [] then []
    else
      var n := |files| - 1;
      Stuck(before, files[..n], outs) + if TakesBack(before, files[..n], files[n], outs[n]) then [] else [files[n]]
  }

  predicate NewKey(before: map<Key, Alloc>, rest: seq<Key>, stuck: seq<Key>, k: Key) {
    k in stuck ==> k !in before && k !in rest
  }

  ghost predicate NewKeys(before: map<Key, Alloc>, rest: seq<Key>, stuck: seq<Key>) {
    forall k: Key :: NewKey(before, rest, stuck, k)
  }

  predicate TakenBackAt(before: map<Key, Alloc>, files: seq<Key>, outs: seq<UnloadCodes>, i: nat)
    requires |files| <= |outs|
  {
    i < |files| ==> TakesBack(before, files[..i], files[i], outs[i])
  }

  /** What is left behind are new keys. */
  lemma {:induction false} StuckAreNew(before: map<Key, Alloc>, files: seq<Key>, outs: seq<UnloadCodes>)
    requires |files| <= |outs|
    ensures forall k :: k in Stuck(before, files, outs) ==> k in files && k !in before
  {
    if files != [] {
      StuckAreNew(before, files[..|files| - 1], outs);
    }
  }

  /** Nothing is left behind exactly when every free the rollback needs works. */
  lemma {:induction false} NothingStuck(before: map<Key, Alloc>, files: seq<Key>, outs: seq<UnloadCodes>)
    requires |files| <= |outs|
    ensures Stuck(before, files, outs) == [] <==> forall i: nat :: TakenBackAt(before, files, outs, i)
  {
    if files != [] {
      var n := |files| - 1;
      var rest := files[..n];
      NothingStuck(before, rest, outs);
      forall i: nat ensures i < n ==> (TakenBackAt(before, files, outs, i) <==> TakenBackAt(before, rest, outs, i)) {
        if i < n { assert files[..i] == rest[..i] && files[i] == rest[i]; }
      }
      if Stuck(before, files, outs) == [] {
        forall i: nat ensures TakenBackAt(before, files, outs, i) { assert TakenBackAt(before, rest, outs, i); }
      } else if Stuck(before, rest, outs) == [] {
        assert !TakenBackAt(before, files, outs, n);
      } else {
        var i: nat :| !TakenBackAt(before, rest, outs, i);
        assert !TakenBackAt(before, files, outs, i);
      }
    }
  }

  predicate SameEntry(a: map<Key, Alloc>, b: map<Key, Alloc>, k: Key) {
    Entry(a, k) == Entry(b, k)
  }

  lemma SameEntries(a: map<Key, Alloc>, b: map<Key, Alloc>)
    requires forall k: Key :: SameEntry(a, b, k)
    ensures a == b
  {
    forall k: Key ensures k in a <==> k in b { assert SameEntry(a, b, k); }
    forall k | k in a ensures a[k] == b[k] { assert SameEntry(a, b, k); }
  }

  lemma NothingLoaded(before: map<Key, Alloc>, now: map<Key, Alloc>)
    ensures LoadedOn(before, now, []) <==> now == before
  {
    forall k: Key ensures LoadedAt(before, now, [], k) <==> SameEntry(now, before, k) {
      if k in before { assert before[k].(loadRefs := before[k].loadRefs + 0) == before[k]; }
    }
    if LoadedOn(before, now, []) {
      forall k: Key ensures SameEntry(now, before, k) { assert LoadedAt(before, now, [], k); }
      SameEntries(now, before);
    }
  }

  lemma LoadEffect(l: Loader, k: Key, c: LoadCodes)
    ensures var (l', ok) := LoadPersistent(l, k, c);
      && (!ok ==> l'.allocations == l.allocations)
      && (ok ==> CountsLoad(l.allocations, l'.allocations, k))
  {
    var (l1, rc) := BeginSession(l, k.device, c.begin);
    BeginLeavesBuffers(l, k.device, c.begin);
    EndLeavesBuffers(LoadInSession(l1, k, c).0, k.device, c.shut);
  }

  /** The entry of a loaded key gains a count, or begins with one; no other entry moves. */
  ghost predicate CountsLoad(was: map<Key, Alloc>, now: map<Key, Alloc>, k: Key) {
    && k in now
    && now[k].loadRefs == (if k in was then was[k].loadRefs else 0) + 1
    && (k in was ==> now[k] == was[k].(loadRefs := now[k].loadRefs))
    && (k !in was ==> now[k].importerRefs == 0 && now[k].importers == map[])
    && (forall j: Key :: SameBut(was, now, k, j))
  }

  predicate SameBut(was: map<Key, Alloc>, now: map<Key, Alloc>, k: Key, j: Key) {
    j != k ==> SameEntry(was, now, j)
  }

  lemma LoadedOneMore(before: map<Key, Alloc>, was: map<Key, Alloc>, now: map<Key, Alloc>, done: seq<Key>, k: Key)
    requires LoadedOn(before, was, done) && CountsLoad(was, now, k)
    ensures LoadedOn(before, now, done + [k])
  {
    var done' := done + [k];
    forall j: Key ensures LoadedAt(before, now, done', j) {
      assert LoadedAt(before, was, done, j) && SameBut(was, now, k, j);
      OccursOneMore(done, k, j);
    }
  }

  lemma OccursOneMore(done: seq<Key>, k: Key, j: Key)
    ensures Occurs(done + [k], j) == Occurs(done, j) + if j == k then 1 else 0
  {
    assert (done + [k])[..|done|] == done;
  }

  lemma LoadStep(before: map<Key, Alloc>, l: Loader, done: seq<Key>, k: Key, c: LoadCodes)
    requires LoadedOn(before, l.allocations, done) && LoadPersistent(l, k, c).1
    ensures LoadedOn(before, LoadPersistent(l, k, c).0.allocations, done + [k])
  {
    LoadEffect(l, k, c);
    LoadedOneMore(before, l.allocations, LoadPersistent(l, k, c).0.allocations, done, k);
  }

  /** Every entry that was not there before holds device memory. */
  ghost predicate NewBuffers(before: map<Key, Alloc>, now: map<Key, Alloc>) {
    forall k: Key :: NewBuffer(before, now, k)
  }

  predicate NewBuffer(before: map<Key, Alloc>, now: map<Key, Alloc>, k: Key) {
    k in now && k !in before ==> now[k].ptr != 0
  }

  lemma NewEntryIsLoaded(l: Loader, k: Key, c: LoadCodes)
    requires k !in l.allocations && LoadPersistent(l, k, c).1
    ensures var l' := LoadPersistent(l, k, c).0;
      k in l'.allocations && c.outcome.LoadDone? && l'.allocations[k].ptr == c.outcome.ptr
  {
    var l1 := BeginSession(l, k.device, c.begin).0;
    BeginLeavesBuffers(l, k.device, c.begin);
    EndLeavesBuffers(LoadInSession(l1, k, c).0, k.device, c.shut);
  }

  lemma LoadHoldsBuffer(before: map<Key, Alloc>, l: Loader, k: Key, c: LoadCodes)
    requires NewBuffers(before, l.allocations) && (c.outcome.LoadDone? ==> c.outcome.ptr != 0)
    ensures NewBuffers(before, LoadPersistent(l, k, c).0.allocations)
  {
    LoadEffect(l, k, c);
    var (l', ok) := LoadPersistent(l, k, c);
    if ok && k !in l.allocations { NewEntryIsLoaded(l, k, c); }
    forall j: Key ensures NewBuffer(before, l'.allocations, j) {
      assert NewBuffer(before, l.allocations, j);
      if ok { assert SameBut(l.allocations, l'.allocations, k, j); }
    }
  }

  lemma OccursAround(rest: seq<Key>, k: Key, stuck: seq<Key>, j: Key)
    ensures Occurs(rest + [k] + stuck, j) == Occurs(rest + stuck, j) + if j == k then 1 else 0
  {
    OccursAppend(rest + [k], stuck, j);
    OccursOneMore(rest, k, j);
    OccursAppend(rest, stuck, j);
  }

  /** Unloading what was loaded last takes exactly that load back, or leaves it stuck. */
  lemma UnloadStep(before: map<Key, Alloc>, l: Loader, rest: seq<Key>, k: Key, stuck: seq<Key>, u: UnloadCodes)
    requires LoadedOn(before, l.allocations, rest + [k] + stuck) && NewBuffers(before, l.allocations)
    requires NewKeys(before, rest + [k], stuck) && Sound(l) && AllocsOk(before)
    ensures var (l', r) := Unload(l, k, u.free, u.shut);
      var took := TakesBack(before, rest, k, u);
      && (took <==> r in {Retained, Freed})
      && NewBuffers(before, l'.allocations)
      && LoadedOn(before, l'.allocations, rest + if took then stuck else [k] + stuck)
  {
    assert LoadedAt(before, l.allocations, rest + [k] + stuck, k) && AllocOk(before, k);
    assert NewKey(before, rest + [k], stuck, k) && NewBuffer(before, l.allocations, k);
    OccursAround(rest, k, stuck, k);
    OccursAppend(rest, stuck, k);
    OccursMember(rest, k);
    OccursMember(stuck, k);
    FreeWorksExactly(l, k, u.free);
    var (l', r) := Unload(l, k, u.free, u.shut);
    if TakesBack(before, rest, k, u) {
      UnloadStepTakes(before, l, l', rest, k, stuck, r, u);
    } else {
      assert l'.allocations == l.allocations;
      assert rest + ([k] + stuck) == rest + [k] + stuck;
    }
  }

  lemma UnloadStepTakes(before: map<Key, Alloc>, l: Loader, l': Loader, rest: seq<Key>, k: Key, stuck: seq<Key>,
                        r: UnloadOutcome, u: UnloadCodes)
    requires LoadedOn(before, l.allocations, rest + [k] + stuck) && NewBuffers(before, l.allocations)
    requires (l', r) == Unload(l, k, u.free, u.shut) && r in {Retained, Freed} && AllocOk(before, k)
    ensures NewBuffers(before, l'.allocations) && LoadedOn(before, l'.allocations, rest + stuck)
  {
    UnloadEffect(l, k, u.free, u.shut);
    var now, left := l'.allocations, rest + stuck;
    forall j: Key ensures LoadedAt(before, now, left, j) {
      assert LoadedAt(before, l.allocations, rest + [k] + stuck, j);
      OccursAround(rest, k, stuck, j);
    }
    forall j: Key ensures NewBuffer(before, now, j) { assert NewBuffer(before, l.allocations, j); }
  }

  /** On a device that is up, a resident buffer is freed exactly with working codes. */
  lemma FreeWorksExactly(l: Loader, k: Key, f: FreeCodes)
    requires NeededDevicesUp(l) && k in l.allocations
    ensures FreeBuffer(l.driver, k.device, l.allocations[k].ptr, f).1 == 0
       <==> l.allocations[k].ptr == 0 || FreeWorks(f)
  {
    assert BufferUp(l.allocations, l.driver, k);
  }

  /** The loader object stands where the frees of a rollback can work. */
  ghost predicate Sound(l: Loader) {
    ValidLoader(l) && NeededDevicesUp(l)
  }

  /** Fresh device pointers: what cudaMalloc may hand out over a sequence of loads. */
  ghost predicate FreshPointers(codes: seq<LoadCodes>, used: set<int>) {
    && (forall i: nat :: FreshAt(codes, used, i))
    && (forall i: nat, j: nat :: FreshApart(codes, i, j))
  }

  predicate FreshAt(codes: seq<LoadCodes>, used: set<int>, i: nat) {
    i < |codes| && codes[i].outcome.LoadDone? ==> codes[i].outcome.ptr != 0 && codes[i].outcome.ptr !in used
  }

  predicate FreshApart(codes: seq<LoadCodes>, i: nat, j: nat) {
    i < j < |codes| && codes[i].outcome.LoadDone? && codes[j].outcome.LoadDone? ==>
      codes[i].outcome.ptr != codes[j].outcome.ptr
  }

  predicate OnlyAdds(buffers: set<int>, buffers': set<int>, o: LoadOutcome) {
    forall p :: p in buffers' ==> p in buffers || (o.LoadDone? && p == o.ptr)
  }

  lemma ReadAddsOnePointer(l: Loader, k: Key, c: LoadCodes)
    ensures OnlyAdds(l.driver.buffers, LoadInSession(l, k, c).0.driver.buffers, c.outcome)
  {
    var (d, o) := LoadBuffer(l.driver, k.device, c.device, c.outcome);
    assert OnlyAdds(l.driver.buffers, d.buffers, c.outcome);
    if o.LoadDone? {
      assert OnlyAdds(l.driver.buffers, FreeBuffer(d, k.device, o.ptr, c.free).0.buffers, c.outcome);
    }
  }

  lemma LoadAddsOnePointer(l: Loader, k: Key, c: LoadCodes)
    ensures OnlyAdds(l.driver.buffers, LoadPersistent(l, k, c).0.driver.buffers, c.outcome)
  {
    var (l1, rc) := BeginSession(l, k.device, c.begin);
    BeginLeavesBuffers(l, k.device, c.begin);
    ReadAddsOnePointer(l1, k, c);
    EndLeavesBuffers(LoadInSession(l1, k, c).0, k.device, c.shut);
  }

  /** The rollback of the load loop, last shard first. What it leaves is what was there before
      and one load of every key whose only load could not be freed. */
  method RollbackLoads(loader: GdsLoader, files: seq<Key>, outs: seq<UnloadCodes>, handle: int,
                       ghost before: map<Key, Alloc>) returns (clean: bool)
    requires loader.Valid() && Sound(loader.View()) && handle != 0 && |files| <= |outs|
    requires LoadedOn(before, loader.allocations, files) && NewBuffers(before, loader.allocations)
    requires AllocsOk(before)
    modifies loader.Repr()
    ensures loader.Valid() && Sound(loader.View())
    ensures LoadedOn(before, loader.allocations, Stuck(before, files, outs))
    ensures clean <==> Stuck(before, files, outs) == []
    ensures clean ==> loader.allocations == before
  {
    var i := |files|;
    ghost var stuck: seq<Key> := [];
    assert files[..i] == files && files + [] == files;
    assert Stuck(before, files, outs) + [] == Stuck(before, files, outs);
    clean := true;
    while i > 0
      invariant 0 <= i <= |files|
      invariant loader.Valid() && Sound(loader.View())
      invariant LoadedOn(before, loader.allocations, files[..i] + stuck) && NewBuffers(before, loader.allocations)
      invariant Stuck(before, files, outs) == Stuck(before, files[..i], outs) + stuck
      invariant NewKeys(before, files[..i], stuck) && (clean <==> stuck == [])
    {
      i := i - 1;
      StuckOneMore(before, files, outs, i, stuck);
      var took := UnloadLast(loader, files[i], outs[i], handle, before, files[..i], stuck);
      clean := clean && took;
      if !took { stuck := [files[i]] + stuck; }
    }
    if clean {
      assert files[..i] + stuck == [];
      NothingLoaded(before, loader.allocations);
    }
  }

  lemma StuckOneMore(before: map<Key, Alloc>, files: seq<Key>, outs: seq<UnloadCodes>, i: nat, stuck: seq<Key>)
    requires i < |files| <= |outs| && NewKeys(before, files[..i + 1], stuck)
    ensures files[..i + 1] == files[..i] + [files[i]]
    ensures Stuck(before, files[..i + 1], outs) + stuck
         == Stuck(before, files[..i], outs)
            + if TakesBack(before, files[..i], files[i], outs[i]) then stuck else [files[i]] + stuck
    ensures NewKeys(before, files[..i], stuck)
    ensures !TakesBack(before, files[..i], files[i], outs[i]) ==> NewKeys(before, files[..i], [files[i]] + stuck)
  {
    var more, rest, stuck' := files[..i + 1], files[..i], [files[i]] + stuck;
    assert more[..i] == rest && more == rest + [files[i]];
    forall k: Key ensures NewKey(before, rest, stuck, k)
      ensures !TakesBack(before, rest, files[i], outs[i]) ==> NewKey(before, rest, stuck', k)
    {
      assert NewKey(before, more, stuck, k);
    }
  }

  /** One round of that rollback. */
  method UnloadLast(loader: GdsLoader, k: Key, u: UnloadCodes, handle: int, ghost before: map<Key, Alloc>,
                    ghost rest: seq<Key>, ghost stuck: seq<Key>) returns (took: bool)
    requires loader.Valid() && Sound(loader.View()) && handle != 0
    requires LoadedOn(before, loader.allocations, rest + [k] + stuck) && NewBuffers(before, loader.allocations)
    requires NewKeys(before, rest + [k], stuck) && AllocsOk(before)
    modifies loader.Repr()
    ensures loader.Valid() && Sound(loader.View()) && NewBuffers(before, loader.allocations)
    ensures took <==> TakesBack(before, rest, k, u)
    ensures LoadedOn(before, loader.allocations, rest + if took then stuck else [k] + stuck)
  {
    ghost var l := loader.View();
    UnloadStep(before, l, rest, k, stuck, u);
    UnloadKeepsNeeded(l, k, u.free, u.shut);
    UnloadKeepsValid(l, k, u.free, u.shut);
    var r := loader.UnloadPersistent(k, u.(cancelled := false), handle);
    took := r.Retained? || r.Freed?;
  }

  method LoadOne(loader: GdsLoader, k: Key, codes: seq<LoadCodes>, handle: int,
                 ghost before: map<Key, Alloc>, ghost files: seq<Key>) returns (ok: bool)
    requires loader.Valid() && Sound(loader.View()) && handle != 0
    requires codes != [] && FreshPointers(codes, loader.View().driver.buffers)
    requires LoadedOn(before, loader.allocations, files) && NewBuffers(before, loader.allocations)
    modifies loader.Repr()
    ensures loader.Valid() && Sound(loader.View())
    ensures FreshPointers(codes[1..], loader.View().driver.buffers)
    ensures LoadedOn(before, loader.allocations, if ok then files + [k] else files)
    ensures NewBuffers(before, loader.allocations)
    ensures RoomFor(old(loader.View().driver.table), k.device) ==>
              RoomFor(loader.View().driver.table, k.device) && (CodesWork(codes[0]) ==> ok)
  {
    ghost var l := loader.View();
    LoadStepKeepsSound(l, k, codes[0]);
    LoadEffect(l, k, codes[0]);
    LoadAddsOnePointer(l, k, codes[0]);
    assert FreshAt(codes, l.driver.buffers, 0);
    LoadHoldsBuffer(before, l, k, codes[0]);
    LoadOutcomes(l, k, codes[0]);
    if RoomFor(l.driver.table, k.device) { LoadKeepsRoom(l, k, codes[0]); }
    ok := loader.LoadPersistent(k, codes[0], handle);
    PointersStayFresh(codes, l.driver.buffers, loader.View().driver.buffers);
    if ok { LoadStep(before, l, files, k, codes[0]); }
  }

  /** The shards a walk limited by maxShards visits; 0 means no limit. */
  function Walked(shards: seq<Key>, maxShards: nat): seq<Key> {
    if maxShards > 0 && maxShards < |shards| then shards[..maxShards] else shards
  }

  predicate AllWork(codes: seq<LoadCodes>) {
    forall i :: 0 <= i < |codes| ==> CodesWork(codes[i])
  }

  /** Shards of one device, with valid names, and room for the device. */
  predicate AllLoadable(shards: seq<Key>, nameOk: seq<bool>, table: seq<int>, device: int)
    requires |nameOk| == |shards|
  {
    RoomFor(table, device) && forall i :: 0 <= i < |shards| ==> shards[i].device == device && nameOk[i]
  }

  /** The load loop of gpuPersistentLoad: all of the first maxShards shards gain one load, or
      the allocation map is what it was but for the loads the rollback cannot free. */
  method LoadShards(loader: GdsLoader, shards: seq<Key>, nameOk: seq<bool>, maxShards: nat, codes: seq<LoadCodes>,
                    outs: seq<UnloadCodes>, handle: int, ghost device: int)
    returns (files: seq<Key>, ok: bool, clean: bool)
    requires loader.Valid() && Sound(loader.View()) && handle != 0 && |outs| == |shards|
    requires |nameOk| == |shards| == |codes| && FreshPointers(codes, loader.View().driver.buffers)
    modifies loader.Repr()
    ensures loader.Valid() && Sound(loader.View())
    ensures |files| <= |shards| && files == shards[..|files|]
    ensures ok ==> files == Walked(shards, maxShards)
    ensures ok ==> LoadedOn(old(loader.allocations), loader.allocations, files)
    ensures !ok ==> |files| < |shards|
    ensures !ok ==> LoadedOn(old(loader.allocations), loader.allocations, Stuck(old(loader.allocations), files, outs))
    ensures !ok ==> (clean <==> Stuck(old(loader.allocations), files, outs) == [])
    ensures !ok && clean ==> loader.allocations == old(loader.allocations)
    ensures AllWork(codes) && AllLoadable(shards, nameOk, old(loader.View().driver.table), device) ==> ok
  {
    ghost var before := loader.allocations;
    ghost var works := AllWork(codes) && AllLoadable(shards, nameOk, loader.View().driver.table, device);
    files, clean := [], true;
    var i := 0;
    while i < |shards|
      invariant 0 <= i <= |shards| && (maxShards > 0 ==> i <= maxShards)
      invariant files == shards[..i]
      invariant loader.Valid() && Sound(loader.View())
      invariant LoadedOn(before, loader.allocations, files) && NewBuffers(before, loader.allocations)
      invariant FreshPointers(codes[i..], loader.View().driver.buffers)
      invariant works ==> RoomFor(loader.View().driver.table, device)
    {
      if maxShards > 0 && i >= maxShards { break; }
      var loaded := false;
      if nameOk[i] {
        loaded := LoadOne(loader, shards[i], codes[i..], handle, before, files);
      }
      if !loaded {
        clean := RollbackLoads(loader, files, outs, handle, before);
        return files, false, clean;
      }
      assert codes[i..][1..] == codes[i + 1..];
      files := files + [shards[i]];
      i := i + 1;
    }
    ok := true;
  }

  lemma PointersStayFresh(codes: seq<LoadCodes>, used: set<int>, used': set<int>)
    requires codes != [] && FreshPointers(codes, used)
    requires OnlyAdds(used, used', codes[0].outcome)
    ensures FreshPointers(codes[1..], used')
  {
    var rest := codes[1..];
    forall i: nat ensures FreshAt(rest, used', i) {
      var n := i + 1;
      assert FreshAt(codes, used, n) && FreshApart(codes, 0, n);
    }
    forall i: nat, j: nat ensures FreshApart(rest, i, j) {
      var m, n := i + 1, j + 1;
      assert FreshApart(codes, m, n);
    }
  }

  lemma LoadStepKeepsSound(l: Loader, k: Key, c: LoadCodes)
    requires Sound(l)
    ensures Sound(LoadPersistent(l, k, c).0)
  {
    LoadKeepsNeeded(l, k, c);
    LoadKeepsValid(l, k, c);
  }

  // ---- Attach ------------------------------------------------------------------------

  function AttachedTimes(a: Alloc, client: string, n: nat): Alloc {
    if n == 0 then a else AttachAlloc(AttachedTimes(a, client, n - 1), client)
  }

  ghost predicate AttachedOn(before: map<Key, Alloc>, now: map<Key, Alloc>, done: seq<Key>, client: string) {
    forall k: Key :: AttachedAt(before, now, done, client, k)
  }

  ghost predicate AttachedAt(before: map<Key, Alloc>, now: map<Key, Alloc>, done: seq<Key>, client: string, k: Key) {
    Entry(now, k) == if k in before then Some(AttachedTimes(before[k], client, Occurs(done, k))) else None
  }

  lemma {:induction false} AttachedTimesValid(a: Alloc, client: string, n: nat)
    requires ValidAlloc(a) && client != ""
    ensures ValidAlloc(AttachedTimes(a, client, n))
  {
    if n > 0 {
      AttachedTimesValid(a, client, n - 1);
      AttachKeepsValid(AttachedTimes(a, client, n - 1), client);
    }
  }

  lemma DetachStep(before: map<Key, Alloc>, l: Loader, done: seq<Key>, client: string)
    requires done != [] && AttachedOn(before, l.allocations, done, client) && client != ""
    requires done[|done| - 1] in before && AllocsOk(before)
    ensures AttachedOn(before, Detach(l, done[|done| - 1], client).allocations, done[..|done| - 1], client)
  {
    var k, rest := done[|done| - 1], done[..|done| - 1];
    assert AllocOk(before, k) && AttachedAt(before, l.allocations, done, client, k);
    AttachedTimesValid(before[k], client, Occurs(rest, k));
    DetachUndoesAttach(AttachedTimes(before[k], client, Occurs(rest, k)), client);
    var now := Detach(l, k, client).allocations;
    forall j: Key ensures AttachedAt(before, now, rest, client, j) {
      assert AttachedAt(before, l.allocations, done, client, j);
    }
  }

  lemma AttachStep(before: map<Key, Alloc>, l: Loader, done: seq<Key>, k: Key, client: string)
    requires AttachedOn(before, l.allocations, done, client) && Attach(l, k, client).Some?
    ensures k in before && AttachedOn(before, Attach(l, k, client).value.allocations, done + [k], client)
  {
    var now, done' := Attach(l, k, client).value.allocations, done + [k];
    assert AttachedAt(before, l.allocations, done, client, k);
    forall j: Key ensures AttachedAt(before, now, done', client, j) {
      assert AttachedAt(before, l.allocations, done, client, j);
      OccursOneMore(done, k, j);
    }
  }

  lemma NothingAttached(before: map<Key, Alloc>, now: map<Key, Alloc>, client: string)
    ensures AttachedOn(before, now, [], client) <==> now == before
  {
    if AttachedOn(before, now, [], client) {
      forall k: Key ensures SameEntry(now, before, k) { assert AttachedAt(before, now, [], client, k); }
      SameEntries(now, before);
    }
  }

  predicate AllResident(keys: seq<Key>, m: map<Key, Alloc>) {
    forall k :: k in keys ==> k in m
  }

  method AttachOne(loader: GdsLoader, k: Key, client: string, cancelled: bool,
                   ghost before: map<Key, Alloc>, ghost files: seq<Key>) returns (ok: bool)
    requires loader.Valid() && ValidLoader(loader.View())
    requires AttachedOn(before, loader.allocations, files, client) && AllResident(files, before)
    modifies loader`allocations
    ensures loader.Valid() && ValidLoader(loader.View())
    ensures ok <==> !cancelled && client != "" && k in before
    ensures ok ==> AllResident(files + [k], before)
    ensures AttachedOn(before, loader.allocations, if ok then files + [k] else files, client)
  {
    ghost var l := loader.View();
    assert AttachedAt(before, l.allocations, files, client, k);
    ImportsKeepValid(l, k, client);
    ok := loader.AttachPersistent(k, client, cancelled);
    if ok { AttachStep(before, l, files, k, client); }
  }

  predicate AttachableAt(m: map<Key, Alloc>, keys: seq<Key>, cancelled: seq<bool>, i: nat)
    requires |cancelled| == |keys|
  {
    i < |keys| ==> keys[i] in m && !cancelled[i]
  }

  /** The attach loop of GPUAttach: all shards gain one import by the client, or every
      importer multiset is exactly what it was. */
  method AttachShards(loader: GdsLoader, shards: seq<Key>, client: string, cancelled: seq<bool>)
    returns (files: seq<Key>, ok: bool)
    requires loader.Valid() && ValidLoader(loader.View()) && client != "" && |cancelled| == |shards|
    modifies loader`allocations
    ensures loader.Valid() && ValidLoader(loader.View())
    ensures ok ==> files == shards && AttachedOn(old(loader.allocations), loader.allocations, shards, client)
    ensures ok ==> AllResident(shards, old(loader.allocations))
    ensures ok <==> forall i: nat :: AttachableAt(old(loader.allocations), shards, cancelled, i)
    ensures !ok ==> loader.allocations == old(loader.allocations)
  {
    ghost var before := loader.allocations;
    files := [];
    NothingAttached(before, before, client);
    var i := 0;
    while i < |shards|
      invariant 0 <= i <= |shards| && files == shards[..i]
      invariant loader.Valid() && ValidLoader(loader.View())
      invariant AttachedOn(before, loader.allocations, files, client) && AllResident(files, before)
      invariant forall j: nat :: j < i ==> AttachableAt(before, shards, cancelled, j)
    {
      var attached := AttachOne(loader, shards[i], client, cancelled[i], before, files);
      if !attached {
        assert !AttachableAt(before, shards, cancelled, i);
        RollbackAttach(loader, files, client, before);
        return files, false;
      }
      assert shards[..i + 1] == files + [shards[i]];
      files := files + [shards[i]];
      i := i + 1;
    }
    ok := true;
  }

  method RollbackAttach(loader: GdsLoader, files: seq<Key>, client: string, ghost before: map<Key, Alloc>)
    requires loader.Valid() && ValidLoader(loader.View()) && client != ""
    requires AttachedOn(before, loader.allocations, files, client)
    requires AllResident(files, before) && AllocsOk(before)
    modifies loader`allocations
    ensures loader.Valid() && ValidLoader(loader.View())
    ensures loader.allocations == before
  {
    var i := |files|;
    assert files[..i] == files;
    while i > 0
      invariant 0 <= i <= |files|
      invariant loader.Valid() && ValidLoader(loader.View())
      invariant AttachedOn(before, loader.allocations, files[..i], client)
    {
      i := i - 1;
      DetachLast(loader, files[i], client, before, files[..i + 1]);
      assert files[..i + 1][..i] == files[..i];
    }
    NothingAttached(before, loader.allocations, client);
  }

  method DetachLast(loader: GdsLoader, k: Key, client: string, ghost before: map<Key, Alloc>, ghost done: seq<Key>)
    requires loader.Valid() && ValidLoader(loader.View()) && client != ""
    requires done != [] && done[|done| - 1] == k && k in before
    requires AttachedOn(before, loader.allocations, done, client)
    requires AllocsOk(before)
    modifies loader`allocations
    ensures loader.Valid() && ValidLoader(loader.View())
    ensures AttachedOn(before, loader.allocations, done[..|done| - 1], client)
  {
    ghost var l := loader.View();
    DetachStep(before, l, done, client);
    ImportsKeepValid(l, k, client);
    var _ := loader.DetachPersistent(k, client, false);
  }

  // ---- Unload and detach ----------------------------------------------------------------

  ghost predicate Distinct(keys: seq<Key>) {
    forall i: nat, j: nat :: KeysApart(keys, i, j)
  }

  predicate KeysApart(keys: seq<Key>, i: nat, j: nat) {
    i < j < |keys| ==> keys[i] != keys[j]
  }

  lemma NotBefore(keys: seq<Key>, i: nat, k: Key)
    requires i < |keys| && Distinct(keys)
    ensures keys[i] !in keys[..i]
    ensures k in keys[..i + 1] <==> k in keys[..i] || k == keys[i]
  {
    forall j | 0 <= j < i ensures keys[j] != keys[i] { assert KeysApart(keys, j, i); }
    assert keys[..i + 1] == keys[..i] + [keys[i]];
  }

  /** now is what unloading the keys of `done` once each makes of `before`. */
  ghost predicate UnloadedOn(before: map<Key, Alloc>, now: map<Key, Alloc>, done: seq<Key>) {
    forall k: Key :: UnloadedAt(before, now, done, k)
  }

  ghost predicate UnloadedAt(before: map<Key, Alloc>, now: map<Key, Alloc>, done: seq<Key>, k: Key) {
    Entry(now, k) == UnloadedEntry(before, done, k)
  }

  function UnloadedEntry(before: map<Key, Alloc>, done: seq<Key>, k: Key): Option<Alloc> {
    if k in done && k in before then
      if before[k].loadRefs > 1 then Some(before[k].(loadRefs := before[k].loadRefs - 1)) else None
    else Entry(before, k)
  }

  /** What an unload can take a load of: an entry with another load, or one nobody imports. */
  predicate Unloadable(m: map<Key, Alloc>, k: Key) {
    k in m && (m[k].loadRefs <= 1 ==> m[k].importerRefs <= 0)
  }

  /** What refuses an unload: a cancelled context, an absent entry, or the last load of one
      that is imported or cannot be freed. */
  predicate RefusesUnload(m: map<Key, Alloc>, k: Key, u: UnloadCodes) {
    || u.cancelled || !Unloadable(m, k)
    || (m[k].loadRefs <= 1 && m[k].ptr != 0 && !FreeWorks(u.free))
  }

  /** An unload takes one load exactly when nothing refuses it. */
  lemma UnloadOutcomes(l: Loader, k: Key, u: UnloadCodes)
    requires Sound(l) && !u.cancelled
    ensures var (l', r) := Unload(l, k, u.free, u.shut);
      && (r.Retained? || r.Freed? <==> !RefusesUnload(l.allocations, k, u))
      && (if RefusesUnload(l.allocations, k, u) then l'.allocations == l.allocations
          else UnloadedOn(l.allocations, l'.allocations, [k]))
  {
    assert AllocOk(l.allocations, k);
    if k in l.allocations { FreeWorksExactly(l, k, u.free); }
  }

  lemma UnloadedOneMore(before: map<Key, Alloc>, was: map<Key, Alloc>, now: map<Key, Alloc>, keys: seq<Key>, i: nat)
    requires i < |keys| && Distinct(keys) && UnloadedOn(before, was, keys[..i]) && UnloadedOn(was, now, [keys[i]])
    ensures UnloadedOn(before, now, keys[..i + 1])
  {
    var done' := keys[..i + 1];
    forall k: Key ensures UnloadedAt(before, now, done', k) {
      assert UnloadedAt(before, was, keys[..i], k) && UnloadedAt(was, now, [keys[i]], k);
      NotBefore(keys, i, k);
    }
  }

  lemma EntryNotYetUnloaded(before: map<Key, Alloc>, was: map<Key, Alloc>, keys: seq<Key>, i: nat)
    requires i < |keys| && Distinct(keys) && UnloadedOn(before, was, keys[..i])
    ensures SameEntry(before, was, keys[i])
  {
    NotBefore(keys, i, keys[i]);
    assert UnloadedAt(before, was, keys[..i], keys[i]);
  }

  /** The unload loop of GPUUnload: it stops, without undoing anything, at the first shard
      that is refused. */
  method UnloadShards(loader: GdsLoader, keys: seq<Key>, outs: seq<UnloadCodes>, handle: int)
    returns (done: nat)
    requires loader.Valid() && Sound(loader.View()) && handle != 0 && |outs| == |keys| && Distinct(keys)
    modifies loader.Repr()
    ensures loader.Valid() && Sound(loader.View())
    ensures done <= |keys| && UnloadedOn(old(loader.allocations), loader.allocations, keys[..done])
    ensures done < |keys| ==> RefusesUnload(old(loader.allocations), keys[done], outs[done])
    ensures forall i :: 0 <= i < done ==> !RefusesUnload(old(loader.allocations), keys[i], outs[i])
  {
    ghost var before := loader.allocations;
    done := 0;
    while done < |keys|
      invariant done <= |keys|
      invariant loader.Valid() && Sound(loader.View())
      invariant UnloadedOn(before, loader.allocations, keys[..done])
      invariant forall i :: 0 <= i < done ==> !RefusesUnload(before, keys[i], outs[i])
    {
      var ok := UnloadShard(loader, keys, done, outs[done], handle, before);
      if !ok { return; }
      done := done + 1;
    }
  }

  /** One round of that loop. */
  method UnloadShard(loader: GdsLoader, keys: seq<Key>, i: nat, u: UnloadCodes, handle: int,
                     ghost before: map<Key, Alloc>) returns (ok: bool)
    requires loader.Valid() && Sound(loader.View()) && handle != 0 && Distinct(keys) && i < |keys|
    requires UnloadedOn(before, loader.allocations, keys[..i])
    modifies loader.Repr()
    ensures loader.Valid() && Sound(loader.View())
    ensures UnloadedOn(before, loader.allocations, if ok then keys[..i + 1] else keys[..i])
    ensures ok <==> !RefusesUnload(before, keys[i], u)
  {
    ghost var l := loader.View();
    EntryNotYetUnloaded(before, l.allocations, keys, i);
    if !u.cancelled { UnloadOutcomes(l, keys[i], u); }
    UnloadKeepsNeeded(l, keys[i], u.free, u.shut);
    UnloadKeepsValid(l, keys[i], u.free, u.shut);
    var r := loader.UnloadPersistent(keys[i], u, handle);
    ok := r.Retained? || r.Freed?;
    if ok { UnloadedOneMore(before, l.allocations, loader.allocations, keys, i); }
  }

  ghost predicate DetachedOn(before: map<Key, Alloc>, now: map<Key, Alloc>, done: seq<Key>, client: string) {
    forall k: Key :: DetachedAt(before, now, done, client, k)
  }

  ghost predicate DetachedAt(before: map<Key, Alloc>, now: map<Key, Alloc>, done: seq<Key>, client: string, k: Key) {
    Entry(now, k) == if k in before && k in done then Some(DetachAlloc(before[k], client)) else Entry(before, k)
  }

  lemma DetachOneMore(before: map<Key, Alloc>, l: Loader, keys: seq<Key>, i: nat, client: string)
    requires i < |keys| && Distinct(keys) && client != "" && DetachedOn(before, l.allocations, keys[..i], client)
    ensures DetachedOn(before, Detach(l, keys[i], client).allocations, keys[..i + 1], client)
  {
    var now, done' := Detach(l, keys[i], client).allocations, keys[..i + 1];
    forall k: Key ensures DetachedAt(before, now, done', client, k) {
      assert DetachedAt(before, l.allocations, keys[..i], client, k);
      NotBefore(keys, i, k);
    }
  }

  /** The detach loops of GPUDetach and pruneExpiredAttachments: a cancelled context stops
      them, and nothing takes up again what they leave. */
  method DetachShards(loader: GdsLoader, keys: seq<Key>, client: string, cancelled: seq<bool>)
    returns (done: nat)
    requires loader.Valid() && ValidLoader(loader.View()) && client != "" && Distinct(keys)
    requires |cancelled| == |keys|
    modifies loader`allocations
    ensures loader.Valid() && ValidLoader(loader.View())
    ensures done <= |keys| && DetachedOn(old(loader.allocations), loader.allocations, keys[..done], client)
    ensures done < |keys| ==> cancelled[done]
    ensures forall i :: 0 <= i < done ==> !cancelled[i]
  {
    ghost var before := loader.allocations;
    done := 0;
    while done < |keys|
      invariant done <= |keys|
      invariant loader.Valid() && ValidLoader(loader.View())
      invariant DetachedOn(before, loader.allocations, keys[..done], client)
      invariant forall i :: 0 <= i < done ==> !cancelled[i]
    {
      ghost var l := loader.View();
      ImportsKeepValid(l, keys[done], client);
      var detached := loader.DetachPersistent(keys[done], client, cancelled[done]);
      if !detached { return; }
      DetachOneMore(before, l, keys, done, client);
      done := done + 1;
    }
  }
}
