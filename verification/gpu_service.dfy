/** The allocation and attachment side of the service (internal/app/gpu.go), run one call at
    a time: allocate, load, attach, heartbeat, detach, expiry and unload over the loader object.
    Every call may start from any usable state; what it keeps of load counts, imports and leases is
    stated for each of the three by itself. */
module GpuService {
  import opened Prelude
  import opened Records
  import opened CudaBridge
  import opened LoaderState
  import opened DriverUse
  import opened GdsLoader
  import opened ShardLoops
  import opened Residency
  import opened Sessions

  const DEFAULT_TTL := 300
  const MIN_TTL := 15
  const MAX_TTL := 3600

  /** Attachment lifetimes in seconds: a missing one is five minutes, any other is clamped. */
  function NormalizeTtl(seconds: int): (ttl: int)
    ensures MIN_TTL <= ttl <= MAX_TTL
    ensures MIN_TTL <= seconds <= MAX_TTL ==> ttl == seconds
    ensures seconds <= 0 ==> ttl == 300
    ensures 0 < seconds <= 15 ==> ttl == 15
    ensures seconds >= 3600 ==> ttl == 3600
  {
    if seconds <= 0 then DEFAULT_TTL
    else if seconds < MIN_TTL then MIN_TTL
    else if seconds > MAX_TTL then MAX_TTL
    else seconds
  }

  class GpuService {
    const loader: GdsLoader
    const shards: ShardMap
    var records: map<string, Record>
    var allocs: map<string, Allocation>
    var sessions: map<SessionKey, Session>
    /** How often a store has refused a put or a deletion. */
    ghost var refusals: nat

    ghost function Parts(): set<object>
    {
      {this} + loader.Repr()
    }

    /** What every call keeps, whatever fails: the object is well formed, its loader can serve
        the rollbacks, and allocations and sessions are of known models. */
    ghost predicate Usable()
      reads this`allocs, this`sessions, loader, loader.bridge, loader.bridge.ids, loader.bridge.ctxs
    {
      && loader.Valid() && Sound(loader.View()) && Layout(shards)
      && Known(allocs, shards) && SessionsOk(sessions, shards)
    }

    /** Load counts equal live allocations. */
    ghost predicate Loads()
      requires loader.Valid()
      reads this`allocs, loader, loader.bridge, loader.bridge.ids, loader.bridge.ctxs
    {
      LoadsOk(loader.View(), allocs, shards)
    }

    /** Importer counts are explained by the sessions. */
    ghost predicate Imports()
      requires loader.Valid()
      reads this`sessions, loader, loader.bridge, loader.bridge.ids, loader.bridge.ctxs
    {
      ImportsOk(loader.View(), sessions, shards)
    }

    /** Shard i of an allocation's model on its device. */
    ghost function ShardKey(a: Allocation, i: nat): Key
      requires a.model in shards && i < |shards[a.model]|
    {
      Key(a.device, shards[a.model][i])
    }

    /** Every live allocation's holder has its lease. */
    ghost predicate Holders()
      reads this`allocs, this`records
    {
      HoldersOk(allocs, records, shards)
    }

    constructor (shards: ShardMap, records: map<string, Record>)
      requires Layout(shards)
      ensures Usable() && Loads() && Imports() && Holders() && fresh(Parts())
      ensures allocs == map[] && sessions == map[] && this.records == records
      ensures loader.View() == EMPTY && this.shards == shards
    {
      this.shards := shards;
      this.records := records;
      loader := new GdsLoader();
      allocs, sessions, refusals := map[], map[], 0;
      new;
      NothingAllocated(shards);
    }

    /** The record store takes a put, or refuses it. */
    method PutRecord(model: string, rec: Record) returns (stored: bool)
      modifies this`records, this`refusals
      ensures records == if stored then old(records)[model := rec] else old(records)
      ensures refusals == old(refusals) + if stored then 0 else 1
    {
      stored := *;
      if stored {
        records := records[model := rec];
      } else {
        refusals := refusals + 1;
      }
    }

    /** The store of allocation records takes a put, or refuses it. */
    method PutAllocation(id: string, a: Allocation) returns (stored: bool)
      modifies this`allocs, this`refusals
      ensures allocs == if stored then old(allocs)[id := a] else old(allocs)
      ensures refusals == old(refusals) + if stored then 0 else 1
    {
      stored := *;
      if stored {
        allocs := allocs[id := a];
      } else {
        refusals := refusals + 1;
      }
    }

    method DeleteAllocation(id: string) returns (stored: bool)
      modifies this`allocs, this`refusals
      ensures allocs == if stored then old(allocs) - {id} else old(allocs)
      ensures refusals == old(refusals) + if stored then 0 else 1
    {
      stored := *;
      if stored {
        allocs := allocs - {id};
      } else {
        refusals := refusals + 1;
      }
    }

    /** gpuPersistentLoad: a load that fails leaves the allocation map and the lease list as they
        were, but for the loads whose frees failed, and for the new lease when the store refuses
        the rollback. `reached` is the shard that failed. */
    method PersistentLoad(model: string, holder: string, device: int, maxShards: nat, codes: seq<LoadCodes>,
                          outs: seq<UnloadCodes>, handle: int, now: int)
      returns (ok: bool, clean: bool, restored: bool, ghost reached: nat)
      requires Usable() && handle != 0
      requires model in shards && |codes| == |outs| == |shards[model]|
      requires FreshPointers(codes, loader.View().driver.buffers)
      modifies this`refusals, this`records, loader.Repr()
      ensures Usable() && LeaseJoined(old(records), records, model, holder)
      ensures !ok && restored ==> SameLeases(old(records), records)
      ensures !ok && !restored ==> refusals > old(refusals)
      ensures ok ==> model in old(records) && old(records)[model].status == Ready && holder != ""
      ensures ok ==> HasHolder(records[model].leases, holder)
      ensures ok ==>
                LoadedOn(old(loader.allocations), loader.allocations, Walked(KeysOf(device, shards[model]), maxShards))
      ensures !ok ==> FailedAt(old(loader.allocations), loader.allocations, KeysOf(device, shards[model]), outs,
                               reached, clean)
      ensures refusals >= old(refusals)
      ensures !ok ==> refusals > old(refusals) || holder == "" || !IsReady(old(records), model)
                      || !AllWork(codes) || !RoomFor(old(loader.View().driver.table), device)
    {
      ghost var was := records;
      var before := Stored(records, model);
      var joined := JoinLease(model, holder, now);
      var keys := KeysOf(device, shards[model]);
      assert HasShards(shards, model);
      if !joined {
        NothingReached(loader.allocations, keys, outs);
        return false, true, true, 0;
      }
      ok, clean, reached := LoadKeys(keys, maxShards, codes, outs, handle, device);
      restored := true;
      if !ok && !HasHolder(before.value.leases, holder) {
        restored := RollBackLease(model, holder, before.value, now, was);
      }
    }

    /** Its load loop with the rollback of the loads. */
    method LoadKeys(keys: seq<Key>, maxShards: nat, codes: seq<LoadCodes>, outs: seq<UnloadCodes>, handle: int,
                    ghost device: int)
      returns (ok: bool, clean: bool, ghost reached: nat)
      requires Usable() && handle != 0 && |codes| == |outs| == |keys|
      requires FreshPointers(codes, loader.View().driver.buffers)
      modifies loader.Repr()
      ensures Usable()
      ensures ok ==> LoadedOn(old(loader.allocations), loader.allocations, Walked(keys, maxShards))
      ensures !ok ==> FailedAt(old(loader.allocations), loader.allocations, keys, outs, reached, clean)
      ensures (forall i :: 0 <= i < |keys| ==> keys[i].device == device) ==>
                ok || !AllWork(codes) || !RoomFor(old(loader.View().driver.table), device)
    {
      var files;
      files, ok, clean := LoadShards(loader, keys, seq(|keys|, _ => true), maxShards, codes, outs, handle, device);
      reached := |files|;
    }

    /** The record of a READY model takes the holder's lease before any shard is loaded. */
    method JoinLease(model: string, holder: string, now: int) returns (joined: bool)
      modifies this`refusals, this`records
      ensures LeaseJoined(old(records), records, model, holder)
      ensures !joined ==> records == old(records)
      ensures joined ==> model in old(records) && old(records)[model].status == Ready && holder != ""
      ensures joined ==> HasHolder(records[model].leases, holder)
      ensures joined <==> holder != "" && IsReady(old(records), model) && refusals == old(refusals)
      ensures refusals >= old(refusals)
      ensures joined ==> records[model] == old(records)[model].(leases := records[model].leases, releasable := false,
                                             releasableAt := None, lastError := NoReason, message := NoMessage)
      ensures joined ==> records[model].leases == Acquired(old(records)[model], holder, now).leases
      ensures joined && HasHolder(old(records)[model].leases, holder) ==> SameLeases(old(records), records)
    {
      if holder == "" { return false; }
      if model !in records || records[model].status != Ready { return false; }
      AcquireJoins(records[model], holder, now);
      var rec := AcquireLease(records[model], holder, now);
      rec := rec.(releasable := false, releasableAt := None, lastError := NoReason, message := NoMessage);
      joined := PutRecord(model, rec);
    }

    /** The lease part of the rollback. */
    method RollBackLease(model: string, holder: string, before: Record, at: int, ghost was: map<string, Record>)
      returns (stored: bool)
      requires holder != "" && model in records && model in was && was[model] == before
      requires !HasHolder(before.leases, holder)
      requires records[model].leases == Acquired(before, holder, at).leases
      requires LeaseJoined(was, records, model, holder)
      modifies this`refusals, this`records
      ensures LeaseJoined(was, records, model, holder)
      ensures stored ==> SameLeases(was, records)
      ensures refusals == old(refusals) + if stored then 0 else 1
    {
      ReleaseUndoesAcquire(before, holder, at);
      var released := ReleaseLeaseOnly(records[model], holder, at);
      stored := PutRecord(model, released);
    }

    /** The part of Release that GPUAllocate uses to undo: drop the lease, keep the files. */
    method DropLease(model: string, holder: string, now: int) returns (stored: bool)
      requires holder != ""
      modifies this`refusals, this`records
      ensures stored ==> LeaseDropped(old(records), records, model, holder)
      ensures !stored ==> records == old(records)
      ensures refusals == old(refusals) + if stored then 0 else 1
    {
      if model !in records { return true; }
      var rec := ReleaseLeaseOnly(records[model], holder, now);
      stored := PutRecord(model, rec);
    }

    /** GPUAllocate. `ensured` is what Ensure left of the record when the model was asked for by
        reference. On success the load counts fit the allocations exactly when the shard limit
        does not bite. A call that fails leaves them so exactly when its rollback freed every
        shard and the store took the deletion of its record; it gives its holder's lease back,
        which takes the lease of every other live allocation of the model under that holder. */
    method Allocate(id: string, model: string, holder: string, device: int, maxShards: nat, ensured: Option<Ensured>,
                    verified: bool, codes: seq<LoadCodes>, outs: seq<UnloadCodes>, handle: int, now: int)
      returns (ok: bool, clean: bool, dropped: bool)
      requires Usable() && handle != 0 && id !in allocs
      requires model in shards && |codes| == |outs| == |shards[model]|
      requires FreshPointers(codes, loader.View().driver.buffers)
      requires ensured.Some? ==> EnsureFits(Stored(records, model), holder, ensured.value)
      modifies this, loader.Repr()
      ensures Usable() && sessions == old(sessions)
      ensures SameCounts(old(loader.View()), loader.View()) && (old(Imports()) ==> Imports())
      ensures ok ==> allocs == old(allocs)[id := Allocation(model, holder, device)]
      ensures ok && old(Loads()) ==> (Loads() <==> !Limited(maxShards, |shards[model]|))
      ensures ok && old(Holders()) ==> Holders()
      ensures ok ==> verified && !dropped && holder != "" && (ensured.Some? ==> ensured.value.ready)
      ensures ok && ensured.None? ==> model in old(records) && old(records)[model].status == Ready
      ensures !ok ==> allocs == old(allocs) || allocs == old(allocs)[id := Allocation(model, holder, device)]
      ensures !ok && old(Loads()) ==> (Loads() <==> clean && id !in allocs)
      ensures !ok && clean ==> loader.allocations == old(loader.allocations)
      ensures !ok && AllFreesWork(outs) ==> clean
      ensures !ok && old(Holders()) ==>
                (HoldersOk(old(allocs), records, shards) <==> !dropped || Unheld(old(allocs), model, holder))
      ensures ok ==> LoadedWithin(old(loader.View()), loader.View(), device, shards[model], maxShards)
      ensures OthersLeased(old(records), records, model, holder)
      ensures ok ==> model in records && HasHolder(records[model].leases, holder)
      ensures dropped && model in records ==> !HasHolder(records[model].leases, holder)
      ensures !ok && !dropped ==> refusals > old(refusals) || holder == "" || (ensured.Some? && !ensured.value.ready)
      ensures refusals >= old(refusals)
      ensures !ok ==> refusals > old(refusals) || holder == "" || !verified
                      || !(if ensured.Some? then ensured.value.ready else IsReady(old(records), model))
                      || !AllWork(codes) || !RoomFor(old(loader.View().driver.table), device)
    {
      clean, dropped := true, false;
      SameKeepsOthers(records, model, holder);
      if holder == "" { return false, clean, dropped; }
      if ensured.Some? {
        TakeEnsured(model, holder, ensured.value);
        if !ensured.value.ready { return false, clean, dropped; }
      }
      ghost var was := records;
      ok, clean, dropped :=
        AllocatePublished(id, Allocation(model, holder, device), maxShards, verified, codes, outs, handle, now);
      OthersLeasedChain(old(records), was, records, model, holder);
    }

    /** The record Ensure left behind. */
    method TakeEnsured(model: string, holder: string, e: Ensured)
      requires EnsureFits(Stored(records, model), holder, e)
      modifies this`records
      ensures old(Holders()) ==> Holders()
      ensures e.ready ==> model in records && records[model].status == Ready
      ensures OthersLeased(old(records), records, model, holder)
    {
      SameKeepsOthers(records, model, holder);
      if e.record.None? { return; }
      ghost var was := records;
      records := records[model := e.record.value];
      GrownKeepsOthers(was, records, model, holder);
      if HoldersOk(allocs, was, shards) { GrownLeasesKeepHolders(allocs, was, records, shards); }
    }

    /** The rest of GPUAllocate, the same for a model that was published before. */
    method AllocatePublished(id: string, a: Allocation, maxShards: nat, verified: bool, codes: seq<LoadCodes>,
                             outs: seq<UnloadCodes>, handle: int, now: int)
      returns (ok: bool, clean: bool, dropped: bool)
      requires Usable() && handle != 0 && a.holder != "" && id !in allocs
      requires a.model in shards && |codes| == |outs| == |shards[a.model]|
      requires FreshPointers(codes, loader.View().driver.buffers)
      modifies this`refusals, this`allocs, this`records, loader.Repr()
      ensures Usable() && (old(Imports()) ==> Imports())
      ensures SameCounts(old(loader.View()), loader.View())
      ensures ok ==> verified && allocs == old(allocs)[id := a] && !dropped
      ensures ok && old(Loads()) ==> (Loads() <==> !Limited(maxShards, |shards[a.model]|))
      ensures ok && old(Holders()) ==> Holders()
      ensures ok ==> a.model in old(records) && old(records)[a.model].status == Ready
      ensures !ok ==> allocs == old(allocs) || allocs == old(allocs)[id := a]
      ensures !ok && old(Loads()) ==> (Loads() <==> clean && id !in allocs)
      ensures !ok && clean ==> loader.allocations == old(loader.allocations)
      ensures !ok && AllFreesWork(outs) ==> clean
      ensures !ok && old(Holders()) ==>
                (HoldersOk(old(allocs), records, shards) <==> !dropped || Unheld(old(allocs), a.model, a.holder))
      ensures ok ==> LoadedWithin(old(loader.View()), loader.View(), a.device, shards[a.model], maxShards)
      ensures OthersLeased(old(records), records, a.model, a.holder)
      ensures if ok then Leased(records, a)
              else if dropped then !Leased(records, a) else refusals > old(refusals)
      ensures refusals >= old(refusals)
      ensures !ok ==> refusals > old(refusals) || !verified || !IsReady(old(records), a.model)
                      || !AllWork(codes) || !RoomFor(old(loader.View().driver.table), a.device)
    {
      ok, clean, dropped := false, true, false;
      if a.model in records && verified {
        ok, clean := LoadAllocation(id, a, maxShards, codes, outs, handle, now);
      }
      JoinedKeepsOthers(old(records), records, a.model, a.holder);
      if !ok { dropped := UndoLease(a.model, a.holder, now, old(allocs), old(records)); }
    }

    /** The allocation record and its load, taken back together when the load fails. */
    method LoadAllocation(id: string, a: Allocation, maxShards: nat, codes: seq<LoadCodes>, outs: seq<UnloadCodes>,
                          handle: int, now: int) returns (ok: bool, clean: bool)
      requires Usable() && handle != 0 && a.holder != "" && id !in allocs
      requires a.model in shards && |codes| == |outs| == |shards[a.model]|
      requires FreshPointers(codes, loader.View().driver.buffers)
      modifies this`refusals, this`allocs, this`records, loader.Repr()
      ensures Usable() && (old(Imports()) ==> Imports())
      ensures SameCounts(old(loader.View()), loader.View())
      ensures ok ==> allocs == old(allocs)[id := a]
      ensures ok && old(Loads()) ==> (Loads() <==> !Limited(maxShards, |shards[a.model]|))
      ensures ok && old(Holders()) ==> Holders()
      ensures ok ==> a.model in old(records) && old(records)[a.model].status == Ready
      ensures !ok ==> allocs == old(allocs) || allocs == old(allocs)[id := a]
      ensures !ok && old(Loads()) ==> (Loads() <==> clean && id !in allocs)
      ensures !ok && clean ==> loader.allocations == old(loader.allocations)
      ensures !ok && AllFreesWork(outs) ==> clean
      ensures old(Holders()) ==> HoldersOk(old(allocs), records, shards)
      ensures LeaseJoined(old(records), records, a.model, a.holder)
      ensures ok ==> LoadedWithin(old(loader.View()), loader.View(), a.device, shards[a.model], maxShards)
      ensures ok ==> Leased(records, a)
      ensures refusals >= old(refusals)
      ensures !ok ==> refusals > old(refusals) || !IsReady(old(records), a.model)
                      || !AllWork(codes) || !RoomFor(old(loader.View().driver.table), a.device)
    {
      var stored := PutAllocation(id, a);
      if !stored { return false, true; }
      ok, clean := LoadFor(id, a, maxShards, codes, outs, handle, now, old(allocs));
      if !ok { Forget(id, old(allocs)); }
    }

    /** The record of a failed allocation is deleted, if the store takes that. */
    method Forget(id: string, ghost others: map<string, Allocation>)
      requires Usable() && id in allocs && id !in others && allocs == others[id := allocs[id]]
      modifies this`refusals, this`allocs
      ensures Usable() && (allocs == old(allocs) || allocs == others)
      ensures Loads() <==> if id in allocs then old(Loads()) else old(LoadsOk(loader.View(), others, shards))
      ensures Imports() <==> old(Imports())
      ensures refusals == old(refusals) + if id in allocs then 1 else 0
    {
      assert allocs - {id} == others;
      var _ := DeleteAllocation(id);
    }

    /** The load of an allocation whose record has just been stored beside the others'. */
    method LoadFor(id: string, a: Allocation, maxShards: nat, codes: seq<LoadCodes>, outs: seq<UnloadCodes>,
                   handle: int, now: int, ghost others: map<string, Allocation>) returns (ok: bool, clean: bool)
      requires Usable() && handle != 0 && a.holder != "" && id !in others && allocs == others[id := a]
      requires a.model in shards && |codes| == |outs| == |shards[a.model]|
      requires FreshPointers(codes, loader.View().driver.buffers)
      modifies this`refusals, this`records, loader.Repr()
      ensures Usable() && (old(Imports()) ==> Imports())
      ensures SameCounts(old(loader.View()), loader.View())
      ensures ok && old(LoadsOk(loader.View(), others, shards)) ==>
                (Loads() <==> !Limited(maxShards, |shards[a.model]|))
      ensures ok && old(HoldersOk(others, records, shards)) ==> Holders()
      ensures LeaseJoined(old(records), records, a.model, a.holder)
      ensures ok ==> LoadedWithin(old(loader.View()), loader.View(), a.device, shards[a.model], maxShards)
      ensures ok ==> Leased(records, a)
      ensures ok ==> a.model in old(records) && old(records)[a.model].status == Ready
      ensures !ok && old(LoadsOk(loader.View(), others, shards)) ==>
                (LoadsOk(loader.View(), others, shards) <==> clean) && !Loads()
      ensures !ok && clean ==> loader.allocations == old(loader.allocations)
      ensures !ok && AllFreesWork(outs) ==> clean
      ensures old(HoldersOk(others, records, shards)) ==> HoldersOk(others, records, shards)
      ensures refusals >= old(refusals)
      ensures !ok ==> refusals > old(refusals) || !IsReady(old(records), a.model)
                      || !AllWork(codes) || !RoomFor(old(loader.View().driver.table), a.device)
    {
      ghost var l, was := loader.View(), records;
      var restored;
      ghost var reached;
      ok, clean, restored, reached :=
        PersistentLoad(a.model, a.holder, a.device, maxShards, codes, outs, handle, now);
      if ok {
        AllocateFacts(l, loader.View(), others, sessions, shards, id, a, maxShards);
        AllocateKeepsHolders(others, was, records, shards, id, a);
      } else {
        FailureFacts(l, loader.View(), others, sessions, shards, id, a, outs, reached, clean);
        JoinedLeaseKeepsHolders(others, was, records, shards, a.model, a.holder);
      }
    }

    /** The failed allocation's lease is given back, if the store takes that. */
    method UndoLease(model: string, holder: string, now: int, ghost others: map<string, Allocation>,
                     ghost before: map<string, Record>) returns (dropped: bool)
      requires holder != "" && OthersLeased(before, records, model, holder)
      modifies this`refusals, this`records
      ensures refusals == old(refusals) + if dropped then 0 else 1
      ensures old(HoldersOk(others, records, shards)) ==>
                (HoldersOk(others, records, shards) <==> !dropped || Unheld(others, model, holder))
      ensures OthersLeased(before, records, model, holder)
      ensures dropped && model in records ==> !HasHolder(records[model].leases, holder)
    {
      ghost var was := records;
      dropped := DropLease(model, holder, now);
      if dropped { DroppedKeepsOthers(before, was, records, model, holder); }
      if dropped && HoldersOk(others, was, shards) { DropKeepsHolders(others, was, records, shards, model, holder); }
    }

    /** GPULoad on an allocation: a second load of shards that the counts of allocations do not
        explain, so that they fit afterwards exactly when it failed and its rollback was clean. */
    method Load(id: string, verified: bool, maxShards: nat, codes: seq<LoadCodes>, outs: seq<UnloadCodes>,
                handle: int, now: int) returns (ok: bool, clean: bool)
      requires Usable() && handle != 0
      requires id in allocs ==> |codes| == |outs| == |shards[allocs[id].model]|
      requires FreshPointers(codes, loader.View().driver.buffers)
      modifies this`refusals, this`records, loader.Repr()
      ensures Usable() && (old(Imports()) ==> Imports()) && (old(Holders()) ==> Holders())
      ensures SameCounts(old(loader.View()), loader.View())
      ensures old(Loads()) ==> (Loads() <==> !ok && clean)
      ensures !ok && clean ==> loader.allocations == old(loader.allocations)
      ensures !ok && AllFreesWork(outs) ==> clean
      ensures ok ==> verified && id in allocs && Leased(records, allocs[id])
                     && LoadedWithin(old(loader.View()), loader.View(), allocs[id].device, shards[allocs[id].model],
                                     maxShards)
      ensures if id in allocs then LeaseJoined(old(records), records, allocs[id].model, allocs[id].holder)
              else records == old(records)
      ensures ok || SameLeases(old(records), records) || refusals > old(refusals)
      ensures refusals >= old(refusals)
      ensures !ok && verified && id in allocs ==>
                refusals > old(refusals) || !IsReady(old(records), allocs[id].model)
                || !AllWork(codes) || !RoomFor(old(loader.View().driver.table), allocs[id].device)
    {
      if !verified || id !in allocs {
        return false, true;
      }
      var a := allocs[id];
      ghost var l, was := loader.View(), records;
      var restored;
      ghost var reached;
      ok, clean, restored, reached :=
        PersistentLoad(a.model, a.holder, a.device, maxShards, codes, outs, handle, now);
      LoadFacts(l, loader.View(), allocs, sessions, shards, a, outs, maxShards, reached, ok, clean);
      JoinedLeaseKeepsHolders(allocs, was, records, shards, a.model, a.holder);
    }

    /** pruneExpiredAttachments: every session whose time is up gives its imports back; no load
        count moves, and no import of another session. */
    method Prune(now: int)
      requires Usable()
      modifies this`sessions, loader`allocations
      ensures Usable() && sessions == LiveSessions(old(sessions), now)
      ensures forall sk :: sk in sessions <==> sk in old(sessions) && old(sessions)[sk].expiresAt > now
      ensures SameLoads(old(loader.View()), loader.View())
      ensures AllReturned(old(loader.View()), loader.View(), EndedSessions(old(sessions), now))
      ensures SessionCounts(old(loader.View()), loader.View(), sessions)
      ensures old(Imports()) ==> Imports()
    {
      ghost var was := sessions;
      var expired := CollectExpired(now);
      assert expired == EndedSessions(was, now);
      FewerSessions(was, sessions, shards);
      ReleaseExpired(expired);
    }

    /** The unlocked part of the sweep: the expired entries' imports are detached. */
    method ReleaseExpired(sessionsOut: map<SessionKey, Session>)
      requires Usable() && sessions.Keys !! sessionsOut.Keys && SessionsOk(sessions + sessionsOut, shards)
      modifies loader`allocations
      ensures Usable()
      ensures SameLoads(old(loader.View()), loader.View())
      ensures AllReturned(old(loader.View()), loader.View(), sessionsOut)
      ensures SessionCounts(old(loader.View()), loader.View(), sessions)
      ensures old(ImportsOk(loader.View(), sessions + sessionsOut, shards)) ==> Imports()
    {
      ghost var l := loader.View();
      ghost var out: map<SessionKey, Session> := map[];
      var expired := sessionsOut;
      NothingReturned(l);
      assert map[] + expired == sessionsOut;
      ghost var explained := ImportsOk(l, sessions + sessionsOut, shards);
      while expired.Keys != {}
        invariant Releasing(l, out, expired, sessionsOut, explained)
        decreases |expired|
      {
        var key :| key in expired;
        ReleaseOne(key, expired[key], l, out, expired, sessionsOut, explained);
        out := out[key := expired[key]];
        expired := expired - {key};
      }
      UnionEmpty(sessions, expired);
      UnionEmpty(out, expired);
    }

    /** The sweep under way: the sessions in `out` have given their imports back, those in
        `expired` have not. */
    ghost predicate Releasing(l: Loader, out: map<SessionKey, Session>, expired: map<SessionKey, Session>,
                              all: map<SessionKey, Session>, explained: bool)
      reads this`allocs, this`sessions, loader, loader.bridge, loader.bridge.ids, loader.bridge.ctxs
    {
      && Usable() && SameLoads(l, loader.View()) && SessionCounts(l, loader.View(), sessions)
      && AllReturned(l, loader.View(), out)
      && out.Keys !! expired.Keys && out + expired == all && sessions.Keys !! expired.Keys
      && SessionsOk(out, shards) && SessionsOk(sessions + expired, shards)
      && (explained ==> ImportsOk(loader.View(), sessions + expired, shards))
    }

    /** One expired entry, with a context that is never cancelled. */
    method ReleaseOne(sk: SessionKey, s: Session, ghost l: Loader, ghost out: map<SessionKey, Session>,
                      ghost expired: map<SessionKey, Session>, ghost all: map<SessionKey, Session>,
                      ghost explained: bool)
      requires Releasing(l, out, expired, all, explained) && sk in expired && expired[sk] == s
      modifies loader`allocations
      ensures Releasing(l, out[sk := s], expired - {sk}, all, explained)
    {
      ghost var l', owed := loader.View(), sessions + expired;
      assert SessionAt(owed, shards, sk);
      var done := EndOne(sk, s, seq(|s.paths|, _ => false), owed);
      assert KeysOf(sk.device, s.paths)[..done] == KeysOf(sk.device, s.paths);
      ReturnedOneMore(l, l', loader.View(), out, shards, sk, s);
      UnionMinus(sessions, expired, sk);
      FewerSessions(owed, owed - {sk}, shards);
      MoreSessions(out, shards, sk, s);
      MovedOver(out, expired, sk);
      SessionCountsChain(l, l', loader.View(), sessions, owed - {sk});
      SameLoadsChain(l, l', loader.View());
    }

    /** The locked part of the sweep: expired entries leave the map. */
    method CollectExpired(now: int) returns (expired: map<SessionKey, Session>)
      modifies this`sessions
      ensures sessions == LiveSessions(old(sessions), now)
      ensures sessions + expired == old(sessions) && sessions.Keys !! expired.Keys
    {
      ghost var was := sessions;
      expired := map[];
      var todo := sessions;
      while todo.Keys != {}
        invariant SweptTo(was, sessions, expired, todo, now)
        decreases |todo|
      {
        var key :| key in todo;
        SweptOneMore(was, sessions, expired, todo, now, key);
        if todo[key].expiresAt <= now {
          expired := expired[key := todo[key]];
          sessions := sessions - {key};
        }
        todo := todo - {key};
      }
      SweptAll(was, sessions, expired, todo, now);
    }

    /** Gives back the imports of one session that is out of the map, up to the shard at which
        the context is found cancelled. */
    method EndOne(sk: SessionKey, s: Session, cancelled: seq<bool>, ghost owed: map<SessionKey, Session>)
      returns (done: nat)
      requires Usable() && sk in owed && owed[sk] == s && SessionsOk(owed, shards) && |cancelled| == |s.paths|
      modifies loader`allocations
      ensures Usable() && SameLoads(old(loader.View()), loader.View()) && done <= |s.paths|
      ensures SessionCounts(old(loader.View()), loader.View(), owed - {sk})
      ensures AllOneLess(old(loader.View()), loader.View(), KeysOf(sk.device, s.paths)[..done], sk.client)
      ensures StoppedAt(cancelled, done) && s.paths != []
      ensures old(ImportsOk(loader.View(), owed, shards)) ==>
                (ImportsOk(loader.View(), owed - {sk}, shards)
                 <==> done == 0 || FirstAhead(old(loader.View()), sk, s.paths, done))
    {
      ghost var l := loader.View();
      assert SessionAt(owed, shards, sk);
      var keys := KeysOf(sk.device, s.paths);
      PrefixDistinct(shards, sk, s);
      done := DetachShards(loader, keys, sk.client, cancelled);
      ghost var l' := loader.View();
      DetachFacts(l, l', owed, shards, sk, done);
      DetachKeepsEntries(l, l', keys[..done], sk.client);
    }

    /** GPUAttach: on success the client has a session over the walked prefix; on failure
        the importer counts and sessions are what expiry left. While the load counts fit, only a
        cancelled context makes it fail. */
    method AttachClient(id: string, verified: bool, client: string, maxShards: nat, ttlSeconds: int,
                        cancelled: seq<bool>, now: int) returns (ok: bool)
      requires Usable()
      requires id in allocs ==> |cancelled| == |shards[allocs[id].model]|
      modifies this`sessions, loader`allocations
      ensures Usable() && SameLoads(old(loader.View()), loader.View())
      ensures old(Imports()) ==> Imports()
      ensures !(verified && id in allocs && client != "") ==> !ok && sessions == old(sessions)
      ensures verified && id in allocs && client != "" ==>
                var a, live := allocs[id], LiveSessions(old(sessions), now);
                var all := |shards[a.model]|;
                var n := if maxShards == 0 || all <= maxShards then all else maxShards;
                var paths := shards[a.model][..n];
                && sessions == (if ok then live[SessionKey(a.model, a.device, client)
                                                  := Session(paths, now + NormalizeTtl(ttlSeconds))] else live)
                && Attached(old(loader.View()), loader.View(), EndedSessions(old(sessions), now), a.device,
                            if ok then paths else [], client)
                && (old(Loads()) ==> (ok <==> forall i :: 0 <= i < n ==> !cancelled[i]))
    {
      if !verified || id !in allocs || client == "" { return false; }
      var a := allocs[id];
      ghost var l := loader.View();
      Prune(now);
      assert HasShards(shards, a.model);
      var paths := WalkedPaths(shards[a.model], maxShards);
      var sk := SessionKey(a.model, a.device, client);
      ghost var l', ended := loader.View(), EndedSessions(old(sessions), now);
      ok := OpenOne(sk, Session(paths, now + NormalizeTtl(ttlSeconds)), cancelled[..|paths|]);
      AttachedAfterExpiry(l, l', loader.View(), ended, a.device, if ok then paths else [], client);
      SameLoadsChain(l, l', loader.View());
      if LoadsOk(l, allocs, shards) {
        SameLoadsStayOk(l, l', allocs, shards);
        AttachableWhileLive(l', allocs, shards, id, paths, cancelled[..|paths|]);
      }
    }

    method OpenOne(sk: SessionKey, s: Session, cancelled: seq<bool>) returns (ok: bool)
      requires Usable() && SessionOk(sk, s, shards) && |cancelled| == |s.paths|
      modifies this`sessions, loader`allocations
      ensures Usable() && SameLoads(old(loader.View()), loader.View())
      ensures old(Imports()) ==> Imports()
      ensures sessions == if ok then old(sessions)[sk := s] else old(sessions)
      ensures !ok ==> loader.allocations == old(loader.allocations)
      ensures AllOneMore(old(loader.View()), loader.View(), KeysOf(sk.device, if ok then s.paths else []), sk.client)
      ensures ok <==> forall i: nat :: AttachableAt(old(loader.allocations), KeysOf(sk.device, s.paths), cancelled, i)
    {
      ghost var l := loader.View();
      var keys := KeysOf(sk.device, s.paths);
      PrefixDistinct(shards, sk, s);
      var files;
      files, ok := AttachShards(loader, keys, sk.client, cancelled);
      ghost var l' := loader.View();
      if ok {
        AttachFacts(l, l', sessions, shards, sk, s);
        AttachKeepsEntries(l, l', keys, sk.client);
        sessions := sessions[sk := s];
      } else {
        SameEntriesFacts(l, l', sessions, shards);
        NoneMore(l, l', sk.device, sk.client);
        FewerNeeds(l, l');
      }
    }

    /** GPUHeartbeat: a live session lives on, also when the context is found cancelled after
        that and the call answers with an error; nothing else moves. */
    method Heartbeat(id: string, verified: bool, client: string, ttlSeconds: int, cancelled: bool, now: int)
      returns (ok: bool)
      requires Usable()
      modifies this`sessions, loader`allocations
      ensures Usable() && SameLoads(old(loader.View()), loader.View())
      ensures old(Imports()) ==> Imports()
      ensures !(verified && id in allocs && client != "") ==> !ok && sessions == old(sessions)
      ensures verified && id in allocs && client != "" ==>
                var sk := SessionKey(allocs[id].model, allocs[id].device, client);
                var live := LiveSessions(old(sessions), now);
                && AllReturned(old(loader.View()), loader.View(), EndedSessions(old(sessions), now))
                && (ok <==> sk in live && !cancelled)
                && sessions == if sk in live then live[sk := live[sk].(expiresAt := now + NormalizeTtl(ttlSeconds))]
                               else live
    {
      if !verified || id !in allocs || client == "" { return false; }
      var sk := SessionKey(allocs[id].model, allocs[id].device, client);
      Prune(now);
      if sk !in sessions { return false; }
      ghost var was := sessions;
      sessions := sessions[sk := sessions[sk].(expiresAt := now + NormalizeTtl(ttlSeconds))];
      SamePathsSameSessions(loader.View(), was, sessions, shards);
      return !cancelled;
    }

    /** GPUDetach: afterwards the client has no session on the model and device, even when its
        context is found cancelled before some shard and the shards from there on stay imported.
        The imports then stay explained exactly when no shard was detached, or the first one is
        counted more often than any of those left over. */
    method DetachClient(id: string, verified: bool, client: string, cancelled: seq<bool>, now: int)
      returns (ok: bool, done: nat)
      requires Usable()
      requires id in allocs ==> |cancelled| == |shards[allocs[id].model]|
      modifies this`sessions, loader`allocations
      ensures Usable() && SameLoads(old(loader.View()), loader.View())
      ensures !(verified && id in allocs && client != "") ==>
                !ok && sessions == old(sessions) && loader.allocations == old(loader.allocations)
      ensures verified && id in allocs && client != "" ==>
                var sk := SessionKey(allocs[id].model, allocs[id].device, client);
                var live := LiveSessions(old(sessions), now);
                && sessions == live - {sk}
                && (sk !in live ==> ok && done == 0 && (old(Imports()) ==> Imports()))
                && Detached(old(loader.View()), loader.View(), EndedSessions(old(sessions), now), sk.device,
                            if sk in live && done <= |live[sk].paths| then live[sk].paths[..done] else [], client)
                && (sk in live ==> sk in old(sessions) && var paths := old(sessions)[sk].paths;
                      && done <= |paths| <= |cancelled| && StoppedAt(cancelled[..|paths|], done) && paths != []
                      && (ok <==> done == |paths|)
                      && (old(Imports()) ==>
                            (Imports() <==> done == 0 || FirstAhead(old(loader.View()), sk, paths, done))))
    {
      ok, done := false, 0;
      if !verified || id !in allocs || client == "" { return; }
      var sk := SessionKey(allocs[id].model, allocs[id].device, client);
      ghost var l, ended := loader.View(), EndedSessions(sessions, now);
      Prune(now);
      ok := true;
      if sk in sessions {
        var s := sessions[sk];
        assert SessionAt(sessions, shards, sk);
        done := CloseSession(sk, s, cancelled[..|s.paths|], l, ended);
        ok := done == |s.paths|;
      } else {
        NoneLess(l, loader.View(), ended, sk.device, client);
      }
    }

    /** The session leaves the map, and its imports are detached as far as the context lives. */
    method CloseSession(sk: SessionKey, s: Session, cancelled: seq<bool>, ghost l: Loader,
                        ghost ended: map<SessionKey, Session>) returns (done: nat)
      requires Usable() && sk in sessions && sessions[sk] == s && |cancelled| == |s.paths|
      requires SameLoads(l, loader.View()) && SessionCounts(l, loader.View(), sessions)
      requires AllReturned(l, loader.View(), ended)
      modifies this`sessions, loader`allocations
      ensures Usable() && SameLoads(l, loader.View()) && sessions == old(sessions) - {sk}
      ensures done <= |s.paths| && StoppedAt(cancelled, done) && s.paths != []
      ensures Detached(l, loader.View(), ended, sk.device, s.paths[..done], sk.client)
      ensures old(Imports()) ==> (Imports() <==> done == 0 || FirstAhead(l, sk, s.paths, done))
    {
      ghost var owed, l' := sessions, loader.View();
      FewerSessions(owed, owed - {sk}, shards);
      sessions := sessions - {sk};
      done := EndOne(sk, s, cancelled, owed);
      SameLoadsChain(l, l', loader.View());
      SameCountsSameLead(l, l', owed, sk, done);
      assert KeysOf(sk.device, s.paths)[..done] == KeysOf(sk.device, s.paths[..done]);
      DetachedAfterExpiry(l, l', loader.View(), ended, sk.device, s.paths[..done], sk.client);
    }

    /** GPUUnload: the allocation goes, with one load of every weight shard and its lease; or the
        call is refused, after `done` shards. Where the load counts fit the allocations, they still
        do exactly when no shard was unloaded; and where the imports are explained too, only a
        cancelled context or a failing free can stop it later. When the store refuses the released
        lease or the deletion, the allocation stays without its loads, and the counts no longer
        fit. The lease goes with the first allocation of its holder: the others keep theirs
        exactly when none of the model has that holder. */
    method UnloadAllocation(id: string, verified: bool, outs: seq<UnloadCodes>, handle: int, now: int)
      returns (r: UnloadAnswer, done: nat)
      requires Usable() && handle != 0
      requires id in allocs ==> |outs| == |shards[allocs[id].model]|
      modifies this, loader.Repr()
      ensures Usable() && (old(Imports()) ==> Imports())
      ensures if verified && id in old(allocs) && old(Leased(records, allocs[id]))
              then sessions == LiveSessions(old(sessions), now)
                   && AllReturned(old(loader.View()), loader.View(), EndedSessions(old(sessions), now))
              else sessions == old(sessions) && SameCounts(old(loader.View()), loader.View())
      ensures id in old(allocs) ==> var a := old(allocs)[id];
                && done <= |shards[a.model]| && (r != Refused ==> done == |shards[a.model]|)
                && OneLoadLess(old(loader.View()), loader.View(), a.device, shards[a.model][..done])
      ensures r == Refused ==> allocs == old(allocs) && records == old(records)
      ensures r == Refused && old(Loads()) ==> (Loads() <==> done == 0)
      ensures r == Refused && done > 0 ==> done < |outs|
      ensures r == Refused && done > 0 && old(Loads() && Imports()) ==>
                outs[done].cancelled || !FreeWorks(outs[done].free)
      ensures r != Refused ==> verified && id in old(allocs) && old(Leased(records, allocs[id]))
      ensures r != Refused ==> NoSessions(sessions, old(allocs)[id].model, old(allocs)[id].device)
      ensures r == Unloaded ==> allocs == old(allocs) - {id} && (old(Loads()) ==> Loads())
      ensures r == Unloaded && old(Holders()) ==>
                (Holders() <==> Unheld(allocs, old(allocs)[id].model, old(allocs)[id].holder))
      ensures r == LeaseStuck ==> records == old(records)
      ensures r in {Unloaded, RecordStuck} ==>
                LeaseDropped(old(records), records, old(allocs)[id].model, old(allocs)[id].holder)
      ensures r in {LeaseStuck, RecordStuck} ==> allocs == old(allocs)
      ensures r in {LeaseStuck, RecordStuck} && old(Loads()) ==>
                !Loads() && LoadsOk(loader.View(), allocs - {id}, shards)
      ensures r in {LeaseStuck, RecordStuck} <==> refusals > old(refusals)
      ensures r == Refused && verified && id in allocs && Leased(records, allocs[id])
              && NoSessions(sessions, allocs[id].model, allocs[id].device) ==>
                done < |outs| && RefusesUnload(loader.allocations, ShardKey(allocs[id], done), outs[done])
    {
      done := 0;
      NoneUnloaded(loader.View(), loader.View(), allocs, shards, id);
      if !verified || id !in allocs { return Refused, done; }
      var a := allocs[id];
      if a.model !in records || !HasHolder(records[a.model].leases, a.holder) { return Refused, done; }
      ghost var l := loader.View();
      var idle := NoClients(a.model, a.device, now);
      NoneUnloaded(l, loader.View(), allocs, shards, id);
      if !idle { return Refused, done; }
      ghost var l' := loader.View();
      r, done := UnloadIdle(id, outs, handle, now, l);
      ReturnedStays(l, l', loader.View(), EndedSessions(old(sessions), now));
    }

    /** The sweep and count that come first. */
    method NoClients(model: string, device: int, now: int) returns (none: bool)
      requires Usable()
      modifies this`sessions, loader`allocations
      ensures Usable() && sessions == LiveSessions(old(sessions), now)
      ensures SameLoads(old(loader.View()), loader.View())
      ensures AllReturned(old(loader.View()), loader.View(), EndedSessions(old(sessions), now))
      ensures (old(Loads()) ==> Loads()) && (old(Imports()) ==> Imports())
      ensures none <==> NoSessions(sessions, model, device)
    {
      ghost var l := loader.View();
      Prune(now);
      if LoadsOk(l, allocs, shards) { SameLoadsStayOk(l, loader.View(), allocs, shards); }
      var active := CountSessions(model, device);
      none := active == 0;
    }

    /** The rest of GPUUnload. */
    method UnloadIdle(id: string, outs: seq<UnloadCodes>, handle: int, now: int, ghost l: Loader)
      returns (r: UnloadAnswer, done: nat)
      requires Usable() && handle != 0 && id in allocs && |outs| == |shards[allocs[id].model]|
      requires SameLoads(l, loader.View())
      modifies this`refusals, this`allocs, this`records, loader.Repr()
      ensures Usable() && (old(Imports()) ==> Imports())
      ensures SameCounts(old(loader.View()), loader.View())
      ensures r == Refused ==> allocs == old(allocs) && records == old(records) && done < |outs|
      ensures done <= |outs| && (r != Refused ==> done == |outs|)
      ensures OneLoadLess(l, loader.View(), old(allocs)[id].device, shards[old(allocs)[id].model][..done])
      ensures r == Refused && old(Loads()) ==> (Loads() <==> done == 0)
      ensures r == Refused && done > 0 && old(Loads() && Imports()) ==>
                outs[done].cancelled || !FreeWorks(outs[done].free)
      ensures r == Unloaded ==> allocs == old(allocs) - {id} && (old(Loads()) ==> Loads())
      ensures r == Unloaded && old(Holders()) ==>
                (Holders() <==> Unheld(allocs, old(allocs)[id].model, old(allocs)[id].holder))
      ensures r == LeaseStuck ==> records == old(records)
      ensures r in {Unloaded, RecordStuck} ==>
                LeaseDropped(old(records), records, old(allocs)[id].model, old(allocs)[id].holder)
      ensures r in {LeaseStuck, RecordStuck} ==> allocs == old(allocs)
      ensures r in {LeaseStuck, RecordStuck} && old(Loads()) ==>
                !Loads() && LoadsOk(loader.View(), allocs - {id}, shards)
      ensures refusals >= old(refusals)
      ensures r in {LeaseStuck, RecordStuck} <==> refusals > old(refusals)
      ensures r == Refused ==> RefusesUnload(loader.allocations, ShardKey(allocs[id], done), outs[done])
    {
      assert HasShards(shards, allocs[id].model);
      ghost var l' := loader.View();
      done := UnloadModel(id, allocs[id], outs, handle);
      SameThenLess(l, l', loader.View(), allocs[id].device, shards[allocs[id].model][..done]);
      if done < |outs| { return Refused, done; }
      r := Deallocate(id, now);
    }

    /** The end of an unload whose shards have gone: the lease and the allocation record go. */
    method Deallocate(id: string, now: int) returns (r: UnloadAnswer)
      requires Known(allocs, shards) && id in allocs
      modifies this`refusals, this`allocs, this`records
      ensures r in {Unloaded, LeaseStuck, RecordStuck}
      ensures allocs == if r == Unloaded then old(allocs) - {id} else old(allocs)
      ensures r == Unloaded && old(Holders()) ==>
                (Holders() <==> Unheld(allocs, old(allocs)[id].model, old(allocs)[id].holder))
      ensures r == LeaseStuck ==> records == old(records)
      ensures r in {Unloaded, RecordStuck} ==>
                LeaseDropped(old(records), records, old(allocs)[id].model, old(allocs)[id].holder)
      ensures r == Unloaded <==> refusals == old(refusals)
      ensures refusals >= old(refusals)
    {
      var stored := DropLease(allocs[id].model, allocs[id].holder, now);
      if !stored { return LeaseStuck; }
      if old(Holders()) { DeallocateKeepsHolders(allocs, old(records), records, shards, id); }
      var deleted := DeleteAllocation(id);
      return if deleted then Unloaded else RecordStuck;
    }

    /** The unload loop. */
    method UnloadModel(id: string, a: Allocation, outs: seq<UnloadCodes>, handle: int) returns (done: nat)
      requires Usable() && handle != 0 && id in allocs && allocs[id] == a && |outs| == |shards[a.model]|
      modifies loader.Repr()
      ensures Usable() && (old(Imports()) ==> Imports()) && done <= |outs|
      ensures SameCounts(old(loader.View()), loader.View())
      ensures old(Loads()) ==> (Loads() <==> done == 0)
      ensures old(Loads()) ==> (LoadsOk(loader.View(), allocs - {id}, shards) <==> done == |outs|)
      ensures OneLoadLess(old(loader.View()), loader.View(), a.device, shards[a.model][..done])
      ensures 0 < done < |outs| && old(Loads() && Imports()) ==> outs[done].cancelled || !FreeWorks(outs[done].free)
      ensures done < |outs| ==> RefusesUnload(loader.allocations, ShardKey(a, done), outs[done])
    {
      ghost var l := loader.View();
      var keys := KeysOf(a.device, shards[a.model]);
      KeysDistinct(shards, a.model, a.device);
      done := UnloadShards(loader, keys, outs, handle);
      UnloadFacts(l, loader.View(), allocs, sessions, shards, id, outs, done);
      if done < |outs| { EntryNotYetUnloaded(l.allocations, loader.allocations, keys, done); }
    }

    method CountSessions(model: string, device: int) returns (count: nat)
      ensures count == 0 <==> NoSessions(sessions, model, device)
    {
      count := 0;
      var todo := sessions;
      while todo.Keys != {}
        invariant todo.Keys <= sessions.Keys
        invariant count == 0 <==>
                    forall sk :: sk in sessions && sk !in todo ==> sk.model != model || sk.device != device
        decreases |todo|
      {
        var key :| key in todo;
        if key.model == model && key.device == device { count := count + 1; }
        todo := todo - {key};
      }
    }
  }

  datatype UnloadAnswer = Refused | Unloaded | LeaseStuck | RecordStuck

  /** A loop that found its context cancelled before step `done`, or never. */
  predicate StoppedAt(cancelled: seq<bool>, done: nat) {
    && done <= |cancelled| && (done < |cancelled| ==> cancelled[done])
    && forall i :: 0 <= i < done ==> !cancelled[i]
  }

  predicate AllFreesWork(outs: seq<UnloadCodes>) {
    forall u :: u in outs ==> FreeWorks(u.free)
  }

  /** What a load leaves that failed at key n: the loads its rollback could not free. */
  ghost predicate FailedAt(before: map<Key, Alloc>, now: map<Key, Alloc>, keys: seq<Key>, outs: seq<UnloadCodes>,
                           n: nat, clean: bool) {
    && n < |keys| == |outs| && LoadedOn(before, now, Stuck(before, keys[..n], outs))
    && (clean <==> Stuck(before, keys[..n], outs) == [])
  }

  predicate NoSessions(sessions: map<SessionKey, Session>, model: string, device: int) {
    forall sk :: sk in sessions ==> sk.model != model || sk.device != device
  }

  /** The paths a walk limited by maxShards visits; 0 means no limit. */
  function WalkedPaths(paths: seq<string>, maxShards: nat): seq<string> {
    if maxShards > 0 && maxShards < |paths| then paths[..maxShards] else paths
  }

  /** Every live allocation is of a model with shards and names its holder. */
  predicate Known(allocs: map<string, Allocation>, shards: ShardMap) {
    forall a :: a in allocs ==> allocs[a].model in shards && allocs[a].holder != ""
  }

  /** No live allocation of the model has this holder. */
  predicate Unheld(allocs: map<string, Allocation>, model: string, holder: string) {
    forall a :: a in allocs && allocs[a].model == model ==> allocs[a].holder != holder
  }

  lemma NothingAllocated(shards: ShardMap)
    requires Layout(shards)
    ensures LoadsOk(EMPTY, map[], shards) && ImportsOk(EMPTY, map[], shards)
  {
    forall m: string, d: int, i: nat ensures ShardLoads(EMPTY, map[], shards, m, d, i) {
      assert Live(map[], m, d) == {};
    }
  }

  // ---- The expiry sweep -------------------------------------------------------------------

  /** Every entry is kept or out; those already visited are kept exactly when they are live. */
  predicate Swept(was: map<SessionKey, Session>, kept: map<SessionKey, Session>, out: map<SessionKey, Session>,
                  todo: map<SessionKey, Session>, now: int, k: SessionKey) {
    && (k in kept ==> k in was && kept[k] == was[k])
    && (k in out ==> k in was && out[k] == was[k] && k !in kept)
    && (k in todo ==> k in kept && todo[k] == was[k])
    && (k in was ==> k in kept || k in out)
    && (k in was && k !in todo ==> (k in kept <==> was[k].expiresAt > now))
  }

  ghost predicate SweptTo(was: map<SessionKey, Session>, kept: map<SessionKey, Session>, out: map<SessionKey, Session>,
                          todo: map<SessionKey, Session>, now: int) {
    forall k: SessionKey :: Swept(was, kept, out, todo, now, k)
  }

  lemma SweptOneMore(was: map<SessionKey, Session>, kept: map<SessionKey, Session>, out: map<SessionKey, Session>,
                     todo: map<SessionKey, Session>, now: int, key: SessionKey)
    requires SweptTo(was, kept, out, todo, now) && key in todo
    ensures key in kept
    ensures todo[key].expiresAt <= now ==> SweptTo(was, kept - {key}, out[key := todo[key]], todo - {key}, now)
    ensures todo[key].expiresAt > now ==> SweptTo(was, kept, out, todo - {key}, now)
  {
    var todo' := todo - {key};
    assert Swept(was, kept, out, todo, now, key);
    if todo[key].expiresAt <= now {
      var kept', out' := kept - {key}, out[key := todo[key]];
      forall k: SessionKey ensures Swept(was, kept', out', todo', now, k) {
        assert Swept(was, kept, out, todo, now, k);
      }
    } else {
      forall k: SessionKey ensures Swept(was, kept, out, todo', now, k) { assert Swept(was, kept, out, todo, now, k); }
    }
  }

  lemma SweptAll(was: map<SessionKey, Session>, kept: map<SessionKey, Session>, out: map<SessionKey, Session>,
                 todo: map<SessionKey, Session>, now: int)
    requires SweptTo(was, kept, out, todo, now) && todo.Keys == {}
    ensures kept == LiveSessions(was, now)
    ensures kept + out == was && kept.Keys !! out.Keys
  {
    forall k: SessionKey
      ensures k in kept <==> k in was && was[k].expiresAt > now
      ensures k in out <==> k in was && was[k].expiresAt <= now
      ensures (k in kept ==> kept[k] == was[k]) && (k in out ==> out[k] == was[k])
    {
      assert Swept(was, kept, out, todo, now, k);
    }
    assert kept + out == was;
  }

  function LiveSessions(sessions: map<SessionKey, Session>, now: int): map<SessionKey, Session> {
    map k | k in sessions && sessions[k].expiresAt > now :: sessions[k]
  }

  function EndedSessions(sessions: map<SessionKey, Session>, now: int): map<SessionKey, Session> {
    map k | k in sessions && sessions[k].expiresAt <= now :: sessions[k]
  }

  /** The imports once the ended sessions have given theirs back and a client has attached the
      paths: one more on each of them, and no other moves. */
  predicate AttachedCount(l: Loader, l': Loader, ended: map<SessionKey, Session>, device: int, paths: seq<string>,
                          client: string, k: Key, c: string) {
    ImporterCount(l', k, c)
    == CountWithout(l, ended, k, c) + if c == client && k.device == device && k.path in paths then 1 else 0
  }

  ghost predicate Attached(l: Loader, l': Loader, ended: map<SessionKey, Session>, device: int, paths: seq<string>,
                           client: string) {
    forall k: Key, c: string :: AttachedCount(l, l', ended, device, paths, client, k, c)
  }

  /** ... and a client has detached the paths: one less on each of them it still counts. */
  predicate DetachedCount(l: Loader, l': Loader, ended: map<SessionKey, Session>, device: int, paths: seq<string>,
                          client: string, k: Key, c: string) {
    var count := CountWithout(l, ended, k, c);
    ImporterCount(l', k, c)
    == count - if c == client && k.device == device && k.path in paths && count > 0 then 1 else 0
  }

  ghost predicate Detached(l: Loader, l': Loader, ended: map<SessionKey, Session>, device: int, paths: seq<string>,
                           client: string) {
    forall k: Key, c: string :: DetachedCount(l, l', ended, device, paths, client, k, c)
  }

  lemma AttachedAfterExpiry(l: Loader, l': Loader, l'': Loader, ended: map<SessionKey, Session>, device: int,
                            paths: seq<string>, client: string)
    requires AllReturned(l, l', ended) && AllOneMore(l', l'', KeysOf(device, paths), client)
    ensures Attached(l, l'', ended, device, paths, client)
  {
    forall k: Key, c: string ensures AttachedCount(l, l'', ended, device, paths, client, k, c) {
      assert ReturnedAt(l, l', ended, k, c) && OneCountMore(l', l'', KeysOf(device, paths), client, k, c);
      KeysOfMember(device, paths, k);
    }
  }

  lemma DetachedAfterExpiry(l: Loader, l': Loader, l'': Loader, ended: map<SessionKey, Session>, device: int,
                            paths: seq<string>, client: string)
    requires AllReturned(l, l', ended) && AllOneLess(l', l'', KeysOf(device, paths), client)
    ensures Detached(l, l'', ended, device, paths, client)
  {
    forall k: Key, c: string ensures DetachedCount(l, l'', ended, device, paths, client, k, c) {
      assert ReturnedAt(l, l', ended, k, c) && OneCountLess(l', l'', KeysOf(device, paths), client, k, c);
      KeysOfMember(device, paths, k);
    }
  }

  lemma NoneLess(l: Loader, l': Loader, ended: map<SessionKey, Session>, device: int, client: string)
    requires AllReturned(l, l', ended)
    ensures Detached(l, l', ended, device, [], client)
  {
    forall k: Key, c: string ensures DetachedCount(l, l', ended, device, [], client, k, c) {
      assert ReturnedAt(l, l', ended, k, c);
    }
  }

  lemma ReturnedStays(l: Loader, l': Loader, l'': Loader, ended: map<SessionKey, Session>)
    requires AllReturned(l, l', ended) && SameCounts(l', l'')
    ensures AllReturned(l, l'', ended)
  {
    forall k: Key, c: string ensures ReturnedAt(l, l'', ended, k, c) {
      assert ReturnedAt(l, l', ended, k, c) && SameCount(l', l'', k, c);
    }
  }

  lemma NoneMore(l: Loader, l': Loader, device: int, client: string)
    requires l'.allocations == l.allocations
    ensures AllOneMore(l, l', KeysOf(device, []), client)
  {
  }

  function Stored(records: map<string, Record>, model: string): Option<Record> {
    if model in records then Some(records[model]) else None
  }

  predicate IsReady(records: map<string, Record>, model: string) {
    model in records && records[model].status == Ready
  }

  /** At most the holder's lease has joined, on this model alone. */
  ghost predicate LeaseJoined(before: map<string, Record>, after: map<string, Record>, model: string, holder: string) {
    && after.Keys == before.Keys
    && (forall m :: m in before && m != model ==> after[m] == before[m])
    && (model in before ==>
          before[model].leases <= after[model].leases && OnlyNewHolder(before[model], after[model], holder))
  }

  ghost predicate OnlyNewHolder(before: Record, after: Record, holder: string) {
    forall h: string :: NewHolderIs(before, after, holder, h)
  }

  predicate NewHolderIs(before: Record, after: Record, holder: string, h: string) {
    HasHolder(after.leases, h) ==> HasHolder(before.leases, h) || h == holder
  }

  ghost predicate SameLeases(before: map<string, Record>, after: map<string, Record>) {
    after.Keys == before.Keys && forall m :: m in before ==> after[m].leases == before[m].leases
  }

  /** The holder's lease has gone, on this model alone. */
  ghost predicate LeaseDropped(before: map<string, Record>, after: map<string, Record>, model: string, holder: string) {
    && after.Keys == before.Keys
    && (forall m :: m in before && m != model ==> after[m] == before[m])
    && (model in before ==>
          && after[model].leases == Without(before[model].leases, holder) && after[model].status == Ready
          && (after[model].releasable <==> after[model].leases == []))
  }

  /** Other models' records are untouched, and of this model every other holder keeps its lease. */
  ghost predicate OthersLeased(before: map<string, Record>, after: map<string, Record>, model: string, holder: string) {
    && (forall m :: m in before && m != model ==> m in after && after[m] == before[m])
    && (model in before ==> model in after && forall h: string :: LeaseStays(before[model], after[model], holder, h))
  }

  predicate LeaseStays(before: Record, after: Record, holder: string, h: string) {
    h != holder && HasHolder(before.leases, h) ==> HasHolder(after.leases, h)
  }

  lemma SameKeepsOthers(records: map<string, Record>, model: string, holder: string)
    ensures OthersLeased(records, records, model, holder)
  {
    if model in records {
      forall h: string ensures LeaseStays(records[model], records[model], holder, h) {}
    }
  }

  lemma GrownKeepsOthers(before: map<string, Record>, after: map<string, Record>, model: string, holder: string)
    requires before.Keys <= after.Keys && forall m :: m in before && m != model ==> after[m] == before[m]
    requires model in before ==> before[model].leases <= after[model].leases
    ensures OthersLeased(before, after, model, holder)
  {
    if model in before {
      forall h: string ensures LeaseStays(before[model], after[model], holder, h) {
        if HasHolder(before[model].leases, h) { PrefixHolders(before[model].leases, after[model].leases, h); }
      }
    }
  }

  lemma JoinedKeepsOthers(before: map<string, Record>, after: map<string, Record>, model: string, holder: string)
    requires LeaseJoined(before, after, model, holder)
    ensures OthersLeased(before, after, model, holder)
  {
    GrownKeepsOthers(before, after, model, holder);
  }

  lemma OthersLeasedChain(a: map<string, Record>, b: map<string, Record>, c: map<string, Record>, model: string,
                          holder: string)
    requires OthersLeased(a, b, model, holder) && OthersLeased(b, c, model, holder)
    ensures OthersLeased(a, c, model, holder)
  {
    if model in a {
      forall h: string ensures LeaseStays(a[model], c[model], holder, h) {
        assert LeaseStays(a[model], b[model], holder, h) && LeaseStays(b[model], c[model], holder, h);
      }
    }
  }

  lemma DroppedKeepsOthers(before: map<string, Record>, was: map<string, Record>, after: map<string, Record>,
                           model: string, holder: string)
    requires OthersLeased(before, was, model, holder) && LeaseDropped(was, after, model, holder)
    ensures OthersLeased(before, after, model, holder)
    ensures model in after ==> !HasHolder(after[model].leases, holder)
  {
    if model in was {
      forall h: string ensures LeaseStays(was[model], after[model], holder, h) {
        WithoutHolds(was[model].leases, holder, h);
      }
      WithoutHolds(was[model].leases, holder, holder);
    }
    OthersLeasedChain(before, was, after, model, holder);
  }

  lemma AcquireJoins(r: Record, holder: string, now: int)
    ensures r.leases <= Acquired(r, holder, now).leases && OnlyNewHolder(r, Acquired(r, holder, now), holder)
    ensures holder != "" ==> HasHolder(Acquired(r, holder, now).leases, holder)
  {
    var after := Acquired(r, holder, now);
    forall h: string ensures NewHolderIs(r, after, holder, h) { HasHolderAppend(r.leases, Lease(holder, now), h); }
    HasHolderAppend(r.leases, Lease(holder, now), holder);
  }

  /** More leases are no harm. */
  lemma GrownLeasesKeepHolders(allocs: map<string, Allocation>, records: map<string, Record>,
                               records': map<string, Record>, shards: ShardMap)
    requires HoldersOk(allocs, records, shards) && records.Keys <= records'.Keys
    requires forall m :: m in records ==> records[m].leases <= records'[m].leases
    ensures HoldersOk(allocs, records', shards)
  {
    forall a: string ensures HeldAt(allocs, records', shards, a) {
      assert HeldAt(allocs, records, shards, a);
      if a in allocs {
        var m := allocs[a].model;
        PrefixHolders(records[m].leases, records'[m].leases, allocs[a].holder);
      }
    }
  }

  /** Dropping a lease leaves all holders theirs exactly when no live allocation of the model
      relies on it. */
  lemma DropKeepsHolders(allocs: map<string, Allocation>, records: map<string, Record>, records': map<string, Record>,
                         shards: ShardMap, model: string, holder: string)
    requires HoldersOk(allocs, records, shards) && LeaseDropped(records, records', model, holder)
    ensures HoldersOk(allocs, records', shards) <==> Unheld(allocs, model, holder)
  {
    if Unheld(allocs, model, holder) {
      forall a: string ensures HeldAt(allocs, records', shards, a) {
        assert HeldAt(allocs, records, shards, a);
        if a in allocs && allocs[a].model == model {
          WithoutHolds(records[model].leases, holder, allocs[a].holder);
        }
      }
    } else {
      var a :| a in allocs && allocs[a].model == model && allocs[a].holder == holder;
      assert HeldAt(allocs, records, shards, a);
      WithoutHolds(records[model].leases, holder, holder);
      assert !HeldAt(allocs, records', shards, a);
    }
  }

  /** An allocation that goes takes its holder's lease with it. */
  lemma DeallocateKeepsHolders(allocs: map<string, Allocation>, records: map<string, Record>,
                               records': map<string, Record>, shards: ShardMap, id: string)
    requires HoldersOk(allocs, records, shards) && id in allocs
    requires LeaseDropped(records, records', allocs[id].model, allocs[id].holder)
    ensures HoldersOk(allocs - {id}, records', shards)
       <==> Unheld(allocs - {id}, allocs[id].model, allocs[id].holder)
  {
    var rest := allocs - {id};
    forall a: string ensures HeldAt(rest, records, shards, a) { assert HeldAt(allocs, records, shards, a); }
    DropKeepsHolders(rest, records, records', shards, allocs[id].model, allocs[id].holder);
  }

  /** Two allocations of a model under one holder, on two devices: the first unload takes the
      lease of the other. */
  lemma SharedHolderLosesLease(r: Record, r': Record)
    requires r.leases == [Lease("pod", 0)] && r'.leases == Records.Without(r.leases, "pod")
    ensures var allocs := map["a" := Allocation("m", "pod", 0), "b" := Allocation("m", "pod", 1)];
      && HoldersOk(allocs, map["m" := r], map["m" := ["shard"]])
      && !HoldersOk(allocs - {"a"}, map["m" := r'], map["m" := ["shard"]])
  {
    var allocs := map["a" := Allocation("m", "pod", 0), "b" := Allocation("m", "pod", 1)];
    var shards: ShardMap := map["m" := ["shard"]];
    assert r.leases[0].holder == "pod";
    WithoutHolds(r.leases, "pod", "pod");
    assert !HeldAt(allocs - {"a"}, map["m" := r'], shards, "b");
  }

  /** A model of two shards that one client has attached. Its detach is cancelled after the first
      shard: with no session left, an unload frees that shard and is refused at the other, which
      is still imported; every later unload is refused at the first, which is gone. */
  lemma CancelledDetachStrandsAllocation(l: Loader, id: string, a: Allocation, p: string, q: string, client: string,
                                         f: FreeCodes, c: ShutCodes)
    requires Sound(l) && FreeWorks(f) && p != q && client != ""
    requires LoadsOk(l, map[id := a], map[a.model := [p, q]])
    requires Key(a.device, p) in l.allocations && l.allocations[Key(a.device, p)].importers == map[]
    requires Key(a.device, q) in l.allocations && l.allocations[Key(a.device, q)].importers == map[]
    ensures var k0, k1 := Key(a.device, p), Key(a.device, q);
      var l1 := Attach(l, k0, client);
      l1.Some? && var l2 := Attach(l1.value, k1, client);
      l2.Some? && var l3 := Detach(l2.value, k0, client);
      var (l4, r) := Unload(l3, k0, f, c);
      && r == Freed && Unload(l4, k1, f, c) == (l4, Busy) && Unload(l4, k0, f, c) == (l4, NotFound)
      && LoadsOk(l3, map[id := a], map[a.model := [p, q]]) && !LoadsOk(l4, map[id := a], map[a.model := [p, q]])
      && !ImportsOk(l3, map[], map[a.model := [p, q]])
  {
    var k0, k1 := Key(a.device, p), Key(a.device, q);
    var shards: ShardMap, allocs := map[a.model := [p, q]], map[id := a];
    var l2 := Attach(Attach(l, k0, client).value, k1, client).value;
    var l3 := Detach(l2, k0, client);
    var (l4, r) := Unload(l3, k0, f, c);
    OneLoadEach(l, id, a, p, q);
    assert AllocOk(l.allocations, k0) && AllocOk(l.allocations, k1);
    DetachUndoesAttach(l.allocations[k0], client);
    assert l3.allocations == l.allocations[k1 := AttachAlloc(l.allocations[k1], client)];
    assert BufferUp(l.allocations, l.driver, k0);
    forall k: Key ensures SameRefs(l, l3, k) {}
    SameLoadsStayOk(l, l3, allocs, shards);
    assert shards[a.model][0] == p;
    assert !ShardLoads(l4, allocs, shards, a.model, a.device, 0);
    assert !ImportAt(l3, map[], shards, SessionKey(a.model, a.device, client), 1);
  }

  lemma OneLoadEach(l: Loader, id: string, a: Allocation, p: string, q: string)
    requires LoadsOk(l, map[id := a], map[a.model := [p, q]])
    ensures |Live(map[id := a], a.model, a.device)| == 1
    ensures LoadRefs(l, Key(a.device, p)) == 1 && LoadRefs(l, Key(a.device, q)) == 1
  {
    var shards: ShardMap, allocs := map[a.model := [p, q]], map[id := a];
    assert Live(allocs, a.model, a.device) == {id};
    assert ShardLoads(l, allocs, shards, a.model, a.device, 0) && ShardLoads(l, allocs, shards, a.model, a.device, 1);
  }

  lemma PrefixDistinct(shards: ShardMap, sk: SessionKey, s: Session)
    requires Layout(shards) && SessionOk(sk, s, shards)
    ensures Distinct(KeysOf(sk.device, s.paths))
  {
    var keys := KeysOf(sk.device, s.paths);
    forall i: nat, j: nat ensures KeysApart(keys, i, j) { assert PathOnce(shards, sk.model, sk.model, i, j); }
  }

  lemma SameEntriesFacts(l: Loader, l': Loader, owed: map<SessionKey, Session>, shards: ShardMap)
    requires l'.allocations == l.allocations
    ensures SameLoads(l, l') && (ImportsOk(l, owed, shards) ==> ImportsOk(l', owed, shards))
  {
    if ImportsOk(l, owed, shards) { SameCountsSameImports(l, l', owed, shards); }
  }

  lemma SameLoadsChain(l: Loader, l': Loader, l'': Loader)
    requires SameLoads(l, l') && SameLoads(l', l'')
    ensures SameLoads(l, l'')
  {
    forall k: Key ensures SameRefs(l, l'', k) { assert SameRefs(l, l', k) && SameRefs(l', l'', k); }
  }

  lemma NoneUnloaded(l: Loader, l': Loader, allocs: map<string, Allocation>, shards: ShardMap, id: string)
    requires Known(allocs, shards) && SameLoads(l, l')
    ensures id in allocs ==> OneLoadLess(l, l', allocs[id].device, shards[allocs[id].model][..0])
  {
    if id in allocs {
      var paths := shards[allocs[id].model][..0];
      forall k: Key ensures UnloadedOnce(l, l', allocs[id].device, paths, k) { assert SameRefs(l, l', k); }
    }
  }

  lemma SameThenLess(l: Loader, l': Loader, l'': Loader, device: int, paths: seq<string>)
    requires SameLoads(l, l') && OneLoadLess(l', l'', device, paths)
    ensures OneLoadLess(l, l'', device, paths)
  {
    forall k: Key ensures UnloadedOnce(l, l'', device, paths, k) {
      assert SameRefs(l, l', k) && UnloadedOnce(l', l'', device, paths, k);
    }
  }

  lemma FewerSessions(owed: map<SessionKey, Session>, owed': map<SessionKey, Session>, shards: ShardMap)
    requires SessionsOk(owed, shards)
    requires forall t :: t in owed' ==> t in owed && owed[t] == owed'[t]
    ensures SessionsOk(owed', shards)
  {
    forall t: SessionKey ensures SessionAt(owed', shards, t) { assert SessionAt(owed, shards, t); }
  }

  lemma MoreSessions(owed: map<SessionKey, Session>, shards: ShardMap, sk: SessionKey, s: Session)
    requires SessionsOk(owed, shards) && SessionOk(sk, s, shards)
    ensures SessionsOk(owed[sk := s], shards)
  {
    var owed' := owed[sk := s];
    forall t: SessionKey ensures SessionAt(owed', shards, t) { assert SessionAt(owed, shards, t); }
  }

  /** A new allocation whose holder has its lease. */
  lemma AllocateKeepsHolders(allocs: map<string, Allocation>, records: map<string, Record>,
                             records': map<string, Record>, shards: ShardMap, id: string, a: Allocation)
    requires a.model in shards && a.model in records && a.holder != "" && id !in allocs
    requires LeaseJoined(records, records', a.model, a.holder) && HasHolder(records'[a.model].leases, a.holder)
    ensures HoldersOk(allocs, records, shards) ==>
              HoldersOk(allocs[id := a], records', shards) && HoldersOk(allocs, records', shards)
  {
    if HoldersOk(allocs, records, shards) {
      GrownLeasesKeepHolders(allocs, records, records', shards);
      var allocs' := allocs[id := a];
      forall b: string ensures HeldAt(allocs', records', shards, b) { assert HeldAt(allocs, records', shards, b); }
    }
  }

  lemma JoinedLeaseKeepsHolders(allocs: map<string, Allocation>, records: map<string, Record>,
                                records': map<string, Record>, shards: ShardMap, model: string, holder: string)
    requires LeaseJoined(records, records', model, holder)
    ensures HoldersOk(allocs, records, shards) ==> HoldersOk(allocs, records', shards)
  {
    if HoldersOk(allocs, records, shards) { GrownLeasesKeepHolders(allocs, records, records', shards); }
  }

  lemma LoadKeepsAllImports(l: Loader, l': Loader, keys: seq<Key>, owed: map<SessionKey, Session>, shards: ShardMap)
    requires LoadedOn(l.allocations, l'.allocations, keys)
    ensures SameCounts(l, l') && (ImportsOk(l, owed, shards) ==> ImportsOk(l', owed, shards))
  {
    forall k: Key, c: string ensures SameCount(l, l', k, c) { LoadKeepsImports(l, l', keys, k, c); }
    if ImportsOk(l, owed, shards) { SameCountsSameImports(l, l', owed, shards); }
  }

  lemma AllocateFacts(l: Loader, l': Loader, allocs: map<string, Allocation>, owed: map<SessionKey, Session>,
                      shards: ShardMap, id: string, a: Allocation, maxShards: nat)
    requires Layout(shards) && a.model in shards && id !in allocs
    requires LoadedOn(l.allocations, l'.allocations, Walked(KeysOf(a.device, shards[a.model]), maxShards))
    ensures LoadsOk(l, allocs, shards) ==>
              (LoadsOk(l', allocs[id := a], shards) <==> !Limited(maxShards, |shards[a.model]|))
    ensures LoadedWithin(l, l', a.device, shards[a.model], maxShards)
    ensures SameCounts(l, l') && (ImportsOk(l, owed, shards) ==> ImportsOk(l', owed, shards))
  {
    WalkCounts(l, l', shards, a.model, a.device, maxShards);
    if LoadsOk(l, allocs, shards) { LimitedLoad(l, l', allocs, shards, id, a, maxShards); }
    LoadKeepsAllImports(l, l', Walked(KeysOf(a.device, shards[a.model]), maxShards), owed, shards);
  }

  lemma NothingReached(m: map<Key, Alloc>, keys: seq<Key>, outs: seq<UnloadCodes>)
    requires 0 < |keys| == |outs|
    ensures FailedAt(m, m, keys, outs, 0, true)
  {
    NothingLoaded(m, m);
  }

  lemma CleanWhenFreesWork(before: map<Key, Alloc>, now: map<Key, Alloc>, keys: seq<Key>, outs: seq<UnloadCodes>,
                           n: nat, clean: bool)
    requires FailedAt(before, now, keys, outs, n, clean)
    ensures AllFreesWork(outs) ==> clean
    ensures clean ==> now == before
    ensures forall k :: k in Stuck(before, keys[..n], outs) ==> k in keys[..n] && k in keys
  {
    StuckAreNew(before, keys[..n], outs);
    NothingStuck(before, keys[..n], outs);
    if AllFreesWork(outs) {
      forall i: nat ensures TakenBackAt(before, keys[..n], outs, i) {
        if i < n { assert outs[i] in outs; }
      }
    }
    NothingLoaded(before, now);
  }

  /** A failed load with its allocation record deleted, or kept. */
  lemma FailureFacts(l: Loader, l': Loader, allocs: map<string, Allocation>, owed: map<SessionKey, Session>,
                     shards: ShardMap, id: string, a: Allocation, outs: seq<UnloadCodes>, n: nat, clean: bool)
    requires Layout(shards) && ValidLoader(l) && a.model in shards && id !in allocs
    requires FailedAt(l.allocations, l'.allocations, KeysOf(a.device, shards[a.model]), outs, n, clean)
    ensures LoadsOk(l, allocs, shards) ==> (LoadsOk(l', allocs, shards) <==> clean)
    ensures LoadsOk(l, allocs, shards) ==> !LoadsOk(l', allocs[id := a], shards)
    ensures SameCounts(l, l') && (ImportsOk(l, owed, shards) ==> ImportsOk(l', owed, shards))
    ensures AllFreesWork(outs) ==> clean
    ensures clean ==> l'.allocations == l.allocations
  {
    var keys := KeysOf(a.device, shards[a.model]);
    var stuck := Stuck(l.allocations, keys[..n], outs);
    CleanWhenFreesWork(l.allocations, l'.allocations, keys, outs, n, clean);
    if LoadsOk(l, allocs, shards) {
      ExtraLoads(l, l', allocs, shards, a.model, a.device, stuck);
      MissedShard(l, l', allocs, shards, id, a, stuck, n);
    }
    LoadKeepsAllImports(l, l', stuck, owed, shards);
  }

  /** A load that no new allocation accounts for. */
  lemma LoadFacts(l: Loader, l': Loader, allocs: map<string, Allocation>, owed: map<SessionKey, Session>,
                  shards: ShardMap, a: Allocation, outs: seq<UnloadCodes>, maxShards: nat, n: nat, ok: bool,
                  clean: bool)
    requires Layout(shards) && ValidLoader(l) && a.model in shards
    requires ok ==> LoadedOn(l.allocations, l'.allocations, Walked(KeysOf(a.device, shards[a.model]), maxShards))
    requires !ok ==> FailedAt(l.allocations, l'.allocations, KeysOf(a.device, shards[a.model]), outs, n, clean)
    ensures LoadsOk(l, allocs, shards) ==> (LoadsOk(l', allocs, shards) <==> !ok && clean)
    ensures ok ==> LoadedWithin(l, l', a.device, shards[a.model], maxShards)
    ensures SameCounts(l, l') && (ImportsOk(l, owed, shards) ==> ImportsOk(l', owed, shards))
    ensures !ok && AllFreesWork(outs) ==> clean
    ensures !ok && clean ==> l'.allocations == l.allocations
  {
    var keys := KeysOf(a.device, shards[a.model]);
    assert HasShards(shards, a.model);
    if !ok { CleanWhenFreesWork(l.allocations, l'.allocations, keys, outs, n, clean); }
    var done := if ok then Walked(keys, maxShards) else Stuck(l.allocations, keys[..n], outs);
    assert ok ==> done != [];
    if ok { WalkCounts(l, l', shards, a.model, a.device, maxShards); }
    if LoadsOk(l, allocs, shards) { ExtraLoads(l, l', allocs, shards, a.model, a.device, done); }
    LoadKeepsAllImports(l, l', done, owed, shards);
  }

  lemma UnionMinus<K, V>(a: map<K, V>, b: map<K, V>, k: K)
    requires a.Keys !! b.Keys && k in b
    ensures (a + b) - {k} == a + (b - {k})
  {
  }

  lemma MovedOver<K, V>(out: map<K, V>, left: map<K, V>, k: K)
    requires out.Keys !! left.Keys && k in left
    ensures out[k := left[k]].Keys !! (left - {k}).Keys && out[k := left[k]] + (left - {k}) == out + left
  {
  }

  lemma UnionEmpty<K, V>(a: map<K, V>, b: map<K, V>)
    requires b.Keys == {}
    ensures a + b == a
  {
  }

  lemma AttachFacts(l: Loader, l': Loader, owed: map<SessionKey, Session>, shards: ShardMap, sk: SessionKey, s: Session)
    requires Layout(shards) && SessionOk(sk, s, shards)
    requires AttachedOn(l.allocations, l'.allocations, KeysOf(sk.device, s.paths), sk.client)
    requires AllResident(KeysOf(sk.device, s.paths), l.allocations)
    ensures SameLoads(l, l') && AllOneMore(l, l', KeysOf(sk.device, s.paths), sk.client)
    ensures SessionsOk(owed, shards) ==> SessionsOk(owed[sk := s], shards)
    ensures ImportsOk(l, owed, shards) ==> ImportsOk(l', owed[sk := s], shards)
  {
    var keys := KeysOf(sk.device, s.paths);
    PrefixDistinct(shards, sk, s);
    forall k: Key, c: string ensures OneCountMore(l, l', keys, sk.client, k, c) {
      AttachAddsOne(l, l', keys, sk.client, k, c);
    }
    if ImportsOk(l, owed, shards) { OpenKeepsImports(l, l', owed, shards, sk, s); }
    if SessionsOk(owed, shards) { MoreSessions(owed, shards, sk, s); }
    forall k: Key ensures SameRefs(l, l', k) { AttachAddsOne(l, l', keys, sk.client, k, ""); }
  }

  /** While an allocation is live and the load counts fit, all its shards can be attached. */
  lemma AttachableWhileLive(l: Loader, allocs: map<string, Allocation>, shards: ShardMap, id: string,
                            paths: seq<string>, cancelled: seq<bool>)
    requires ValidLoader(l) && LoadsOk(l, allocs, shards) && id in allocs && allocs[id].model in shards
    requires paths <= shards[allocs[id].model] && |cancelled| == |paths|
    ensures (forall i: nat :: AttachableAt(l.allocations, KeysOf(allocs[id].device, paths), cancelled, i))
       <==> forall i :: 0 <= i < |paths| ==> !cancelled[i]
  {
    var keys := KeysOf(allocs[id].device, paths);
    forall i: nat ensures i < |paths| ==> (AttachableAt(l.allocations, keys, cancelled, i) <==> !cancelled[i]) {
      if i < |paths| {
        ResidentWhileLive(l, allocs, shards, allocs[id].model, allocs[id].device, i);
        assert id in Live(allocs, allocs[id].model, allocs[id].device);
      }
    }
    if forall i: nat :: AttachableAt(l.allocations, keys, cancelled, i) {
      forall i | 0 <= i < |paths| ensures !cancelled[i] { assert AttachableAt(l.allocations, keys, cancelled, i); }
    }
  }

  lemma DetachFacts(l: Loader, l': Loader, owed: map<SessionKey, Session>, shards: ShardMap, sk: SessionKey, n: nat)
    requires Layout(shards) && sk in owed && SessionsOk(owed, shards) && n <= |owed[sk].paths| && owed[sk].paths != []
    requires DetachedOn(l.allocations, l'.allocations, KeysOf(sk.device, owed[sk].paths)[..n], sk.client)
    ensures SameLoads(l, l') && SessionCounts(l, l', owed - {sk})
    ensures AllOneLess(l, l', KeysOf(sk.device, owed[sk].paths)[..n], sk.client)
    ensures ImportsOk(l, owed, shards) ==>
              (ImportsOk(l', owed - {sk}, shards) <==> n == 0 || FirstAhead(l, sk, owed[sk].paths, n))
  {
    var keys := KeysOf(sk.device, owed[sk].paths)[..n];
    forall k: Key, c: string ensures OneCountLess(l, l', keys, sk.client, k, c) {
      DetachTakesOne(l, l', keys, sk.client, k, c);
    }
    assert SessionAt(owed, shards, sk);
    if ImportsOk(l, owed, shards) { StoppedDetach(l, l', owed, shards, sk, n); }
    CloseLeavesOthers(l, l', owed, shards, sk, n);
    forall k: Key ensures SameRefs(l, l', k) { DetachTakesOne(l, l', keys, sk.client, k, ""); }
  }

  /** Expiry moves no count a live session's detach depends on. */
  lemma SameCountsSameLead(l: Loader, l': Loader, owed: map<SessionKey, Session>, sk: SessionKey, n: nat)
    requires SessionCounts(l, l', owed) && sk in owed && owed[sk].paths != []
    ensures FirstAhead(l, sk, owed[sk].paths, n) <==> FirstAhead(l', sk, owed[sk].paths, n)
  {
    var paths := owed[sk].paths;
    forall i | 0 <= i < |paths| ensures SameCount(l, l', Key(sk.device, paths[i]), sk.client) {
      assert SessionCount(l, l', owed, sk, i);
    }
  }

  /** Attaching and detaching leave the set of entries, so the devices stay up. */
  lemma AttachKeepsEntries(l: Loader, l': Loader, keys: seq<Key>, client: string)
    requires AttachedOn(l.allocations, l'.allocations, keys, client)
    requires NeededDevicesUp(l) && l'.driver == l.driver && l'.refs == l.refs
    ensures NeededDevicesUp(l')
  {
    forall k: Key ensures BufferUp(l'.allocations, l'.driver, k) {
      assert AttachedAt(l.allocations, l'.allocations, keys, client, k) && BufferUp(l.allocations, l.driver, k);
    }
  }

  lemma DetachKeepsEntries(l: Loader, l': Loader, keys: seq<Key>, client: string)
    requires DetachedOn(l.allocations, l'.allocations, keys, client)
    requires NeededDevicesUp(l) && l'.driver == l.driver && l'.refs == l.refs
    ensures NeededDevicesUp(l')
  {
    forall k: Key ensures BufferUp(l'.allocations, l'.driver, k) {
      assert DetachedAt(l.allocations, l'.allocations, keys, client, k) && BufferUp(l.allocations, l.driver, k);
    }
  }

  lemma SamePathsSameSessions(l: Loader, owed: map<SessionKey, Session>, owed': map<SessionKey, Session>,
                              shards: ShardMap)
    requires SessionsOk(owed, shards) && owed'.Keys == owed.Keys
    requires forall k :: k in owed ==> owed'[k].paths == owed[k].paths
    ensures SessionsOk(owed', shards)
    ensures ImportsOk(l, owed, shards) ==> ImportsOk(l, owed', shards)
  {
    forall sk: SessionKey ensures SessionAt(owed', shards, sk) { assert SessionAt(owed, shards, sk); }
    if ImportsOk(l, owed, shards) {
      forall sk: SessionKey, i: nat ensures ImportAt(l, owed', shards, sk, i) {
        assert ImportAt(l, owed, shards, sk, i);
      }
    }
  }

  /** With working frees and a live context, where loads and imports are as they should be,
      only the first shard can be refused. */
  lemma RefusedShardIsFirst(l: Loader, allocs: map<string, Allocation>, owed: map<SessionKey, Session>,
                            shards: ShardMap, id: string, i: nat)
    requires ValidLoader(l) && LoadsOk(l, allocs, shards) && ImportsOk(l, owed, shards)
    requires id in allocs && allocs[id].model in shards && i < |shards[allocs[id].model]|
    requires !Unloadable(l.allocations, Key(allocs[id].device, shards[allocs[id].model][i]))
    requires i > 0 ==> Unloadable(l.allocations, Key(allocs[id].device, shards[allocs[id].model][0]))
    ensures i == 0
  {
    var m, d := allocs[id].model, allocs[id].device;
    assert id in Live(allocs, m, d);
    assert ShardLoads(l, allocs, shards, m, d, i) && ShardLoads(l, allocs, shards, m, d, 0);
    if i > 0 { FirstShardImportedFirst(l, owed, shards, m, d, i); }
  }

  lemma UnloadFacts(l: Loader, l': Loader, allocs: map<string, Allocation>, owed: map<SessionKey, Session>,
                    shards: ShardMap, id: string, outs: seq<UnloadCodes>, done: nat)
    requires ValidLoader(l) && Layout(shards) && id in allocs && allocs[id].model in shards
    requires var keys := KeysOf(allocs[id].device, shards[allocs[id].model]);
      && done <= |keys| == |outs| && UnloadedOn(l.allocations, l'.allocations, keys[..done])
      && (done < |keys| ==> RefusesUnload(l.allocations, keys[done], outs[done]))
      && (forall i :: 0 <= i < done ==> !RefusesUnload(l.allocations, keys[i], outs[i]))
    ensures LoadsOk(l, allocs, shards) ==>
              && (LoadsOk(l', allocs, shards) <==> done == 0)
              && (LoadsOk(l', allocs - {id}, shards) <==> done == |outs|)
    ensures SameCounts(l, l') && (ImportsOk(l, owed, shards) ==> ImportsOk(l', owed, shards))
    ensures OneLoadLess(l, l', allocs[id].device, shards[allocs[id].model][..done])
    ensures 0 < done < |outs| && LoadsOk(l, allocs, shards) && ImportsOk(l, owed, shards) ==>
              outs[done].cancelled || !FreeWorks(outs[done].free)
  {
    var keys := KeysOf(allocs[id].device, shards[allocs[id].model]);
    if LoadsOk(l, allocs, shards) { StoppedUnload(l, l', allocs, shards, id, done); }
    var paths := shards[allocs[id].model][..done];
    assert KeysOf(allocs[id].device, paths) == keys[..done];
    forall i | 0 <= i < done ensures Key(allocs[id].device, paths[i]) in l.allocations {
      assert !RefusesUnload(l.allocations, keys[i], outs[i]);
    }
    UnloadCounts(l, l', allocs[id].device, paths);
    UnloadKeepsAllImports(l, l', keys[..done], owed, shards);
    if ImportsOk(l, owed, shards) {
      if 0 < done < |outs| && LoadsOk(l, allocs, shards) && !Unloadable(l.allocations, keys[done]) {
        assert !RefusesUnload(l.allocations, keys[0], outs[0]);
        RefusedShardIsFirst(l, allocs, owed, shards, id, done);
      }
    }
  }

  lemma UnloadKeepsAllImports(l: Loader, l': Loader, keys: seq<Key>, owed: map<SessionKey, Session>, shards: ShardMap)
    requires ValidLoader(l) && UnloadedOn(l.allocations, l'.allocations, keys)
    requires forall i :: 0 <= i < |keys| ==> Unloadable(l.allocations, keys[i])
    ensures SameCounts(l, l') && (ImportsOk(l, owed, shards) ==> ImportsOk(l', owed, shards))
  {
    forall k: Key, c: string ensures SameCount(l, l', k, c) { UnloadKeepsImports(l, l', keys, k, c); }
    if ImportsOk(l, owed, shards) { SameCountsSameImports(l, l', owed, shards); }
  }
}
