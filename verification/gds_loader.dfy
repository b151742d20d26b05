/** The loader object of internal/gpu/gds_linux.go, method by method. */
module GdsLoader {
  import opened Prelude
  import opened CudaBridge
  import opened LoaderState

  /** A context for the device is held, or there is room for one and the driver gives it. */
  predicate CanActivate(table: seq<int>, device: int, c: DeviceCodes) {
    device in table || (|table| < 128 && c.cuGet == 0 && c.cuRetain == 0)
  }

  /** The loader object. A method's result codes of the CUDA calls it makes are
      parameters; `handle` stands for the context pointer the driver returns. */
  class GdsLoader {
    const bridge: Bridge
    var refs: map<int, nat>
    var allocations: map<Key, Alloc>

    ghost predicate Valid()
      reads this, bridge, bridge.ids, bridge.ctxs
    {
      bridge.Valid()
    }

    ghost function View(): Loader
      requires Valid()
      reads this, bridge, bridge.ids, bridge.ctxs
    {
      Loader(refs, allocations, bridge.View())
    }

    ghost function Repr(): set<object>
    {
      {this, bridge, bridge.ids, bridge.ctxs}
    }

    constructor ()
      ensures Valid() && fresh(Repr())
      ensures View() == EMPTY
    {
      bridge := new Bridge();
      refs, allocations := map[], map[];
    }

    method CloseIfIdle(c: ShutCodes)
      requires Valid()
      modifies Repr()
      ensures Valid()
      ensures View() == ShutdownIfIdle(old(View()), c)
    {
      var total := AddUp(refs);
      if total == 0 && allocations == map[] {
        var _ := bridge.Shutdown(c);
      }
    }

    method BeginSession(device: int, c: SessionCodes, handle: int) returns (rc: int)
      requires Valid() && handle != 0
      modifies Repr()
      ensures Valid()
      ensures (View(), rc) == LoaderState.BeginSession(old(View()), device, c)
      ensures allocations == old(allocations)
      ensures refs == if rc == 0 then old(refs)[device := GetOr(old(refs), device, 0) + 1] else old(refs)
      ensures GetOr(old(refs), device, 0) > 0 ==> rc == 0 && View().driver == old(View().driver)
      ensures rc == 0 && GetOr(old(refs), device, 0) == 0 ==> View().driver.open && device in View().driver.table
      ensures GetOr(old(refs), device, 0) == 0 ==>
                (rc == 0 <==> c.cuInit == 0 && (old(View().driver.open) || c.openErr == 0)
                              && CanActivate(old(View().driver.table), device, c.device))
      ensures rc != 0 && c.cuInit == 0 && (old(View().driver.open) || c.openErr == 0) ==>
                NothingLeft(refs, allocations) ==> ShutDown(old(View().driver), View().driver, c.shut)
    {
      FailedBeginShutsDown(View(), device, c);
      var count := GetOr(refs, device, 0);
      if count > 0 {
        refs := refs[device := count + 1];
        return 0;
      }
      rc := bridge.Init(c.cuInit, c.openErr);
      if rc != 0 { return; }
      var ctx;
      rc, ctx := bridge.Activate(device, c.device, handle);
      if rc != 0 {
        CloseIfIdle(c.shut);
        return;
      }
      refs := refs[device := 1];
    }

    method EndSession(device: int, c: ShutCodes)
      requires Valid()
      modifies Repr()
      ensures Valid()
      ensures View() == LoaderState.EndSession(old(View()), device, c)
      ensures allocations == old(allocations)
      ensures refs == if GetOr(old(refs), device, 0) > 1 then old(refs)[device := old(refs)[device] - 1]
                      else old(refs) - {device}
      ensures NothingLeft(refs, allocations) ==> ShutDown(old(View().driver), View().driver, c)
      ensures Sum(refs) > 0 || allocations != map[] ==> View().driver == old(View().driver)
    {
      LastEndShutsDown(View(), device, c);
      IdleIsShutDown(View().(refs := DropRef(refs, device)), c);
      var count := GetOr(refs, device, 0);
      if count > 1 {
        refs := refs[device := count - 1];
      } else {
        refs := refs - {device};
      }
      CloseIfIdle(c);
    }

    method AttachPersistent(k: Key, client: string, cancelled: bool) returns (ok: bool)
      requires Valid()
      modifies this`allocations
      ensures Valid()
      ensures cancelled || Attach(old(View()), k, client).None? ==> !ok && View() == old(View())
      ensures !cancelled && Attach(old(View()), k, client).Some? ==>
                ok && View() == Attach(old(View()), k, client).value
    {
      if cancelled || client == "" || k !in allocations { return false; }
      var alloc := allocations[k];
      alloc := alloc.(importers := alloc.importers[client := GetOr(alloc.importers, client, 0) + 1]);
      alloc := alloc.(importerRefs := alloc.importerRefs + 1);
      allocations := allocations[k := alloc];
      return true;
    }

    method DetachPersistent(k: Key, client: string, cancelled: bool) returns (ok: bool)
      requires Valid()
      modifies this`allocations
      ensures Valid()
      ensures ok == (!cancelled && client != "")
      ensures View() == if ok then Detach(old(View()), k, client) else old(View())
    {
      if cancelled || client == "" { return false; }
      if k !in allocations { return true; }
      var alloc := allocations[k];
      var count := GetOr(alloc.importers, client, 0);
      if count > 1 {
        alloc := alloc.(importers := alloc.importers[client := count - 1]);
        if alloc.importerRefs > 0 {
          alloc := alloc.(importerRefs := alloc.importerRefs - 1);
        }
      } else if count == 1 {
        alloc := alloc.(importers := alloc.importers - {client});
        if alloc.importerRefs > 0 {
          alloc := alloc.(importerRefs := alloc.importerRefs - 1);
        }
      }
      allocations := allocations[k := alloc];
      return true;
    }

    method UnloadPersistent(k: Key, u: UnloadCodes, handle: int) returns (r: UnloadOutcome)
      requires Valid() && handle != 0
      modifies Repr()
      ensures Valid()
      ensures u.cancelled ==> r == Cancelled && View() == old(View())
      ensures !u.cancelled ==> (View(), r) == Unload(old(View()), k, u.free, u.shut)
      ensures r.Freed? && NothingLeft(refs, allocations) ==> ShutDown(old(View().driver), View().driver, u.shut)
    {
      LastUnloadShutsDown(View(), k, u.free, u.shut);
      if u.cancelled { return Cancelled; }
      if k !in allocations { return NotFound; }
      var alloc := allocations[k];
      if alloc.loadRefs > 1 {
        allocations := allocations[k := alloc.(loadRefs := alloc.loadRefs - 1)];
        return Retained;
      }
      if alloc.importerRefs > 0 { return Busy; }
      var rc := bridge.Free(k.device, alloc.ptr, u.free, handle);
      if rc != 0 {
        allocations := allocations[k := alloc.(loadRefs := 1)];
        return FreeFailed(rc);
      }
      allocations := allocations - {k};
      CloseIfIdle(u.shut);
      return Freed;
    }

    /** The part of LoadPersistent between BeginSession and the deferred end of session. */
    method LoadInSession(k: Key, c: LoadCodes, handle: int) returns (ok: bool)
      requires Valid() && handle != 0
      requires c.outcome.LoadDone? ==> c.outcome.ptr != 0 && c.outcome.ptr !in View().driver.buffers
      modifies Repr()
      ensures Valid()
      ensures (View(), ok) == LoaderState.LoadInSession(old(View()), k, c)
      ensures ok <==> old(View().driver.open) && CanActivate(old(View().driver.table), k.device, c.device)
                      && c.outcome.LoadDone? && c.outcome.total == c.size
      ensures refs == old(refs)
      ensures !ok ==> allocations == old(allocations)
      ensures ok && k in old(allocations) ==>
                allocations == old(allocations)[k := old(allocations)[k].(loadRefs := old(allocations)[k].loadRefs + 1)]
      ensures ok && k !in old(allocations) ==>
                && allocations == old(allocations)[k := Alloc(c.outcome.ptr, c.size, 1, 0, map[], c.outcome.direct)]
                && View().driver.buffers == old(View().driver.buffers) + {c.outcome.ptr}
      ensures (!ok || k in old(allocations)) && c.free.push == c.free.setDevice == c.free.free == 0 ==>
                View().driver.buffers == old(View().driver.buffers)
    {
      var o := bridge.Load(k.device, c.device, c.outcome, handle);
      if o.LoadFailed? { return false; }
      if o.total != c.size {
        var _ := bridge.Free(k.device, o.ptr, c.free, handle);
        return false;
      }
      if k in allocations {
        var alloc := allocations[k];
        allocations := allocations[k := alloc.(loadRefs := alloc.loadRefs + 1)];
        var _ := bridge.Free(k.device, o.ptr, c.free, handle);
        return true;
      }
      allocations := allocations[k := Alloc(o.ptr, o.total, 1, 0, map[], o.direct)];
      return true;
    }

    method LoadPersistent(k: Key, c: LoadCodes, handle: int) returns (ok: bool)
      requires Valid() && handle != 0
      requires c.outcome.LoadDone? ==> c.outcome.ptr != 0 && c.outcome.ptr !in View().driver.buffers
      modifies Repr()
      ensures Valid()
      ensures (View(), ok) == LoaderState.LoadPersistent(old(View()), k, c)
    {
      if c.cancelled || !c.statOk { return false; }
      if k in allocations {
        var alloc := allocations[k];
        allocations := allocations[k := alloc.(loadRefs := alloc.loadRefs + 1)];
        return true;
      }
      var rc := BeginSession(k.device, c.begin, handle);
      if rc != 0 { return false; }
      ok := LoadInSession(k, c, handle);
      EndSession(k.device, c.shut);
    }
  }
}
