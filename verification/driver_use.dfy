/** The loader closes the cuFile driver only when nothing needs it: what each operation
    leaves of the devices that sessions and resident buffers rely on. */
module DriverUse {
  import opened Prelude
  import opened CudaBridge
  import opened LoaderState

  /** The driver is open and the device's context is retained. */
  predicate Up(d: Driver, device: int) {
    d.open && device in d.table
  }

  predicate DeviceUp(l: Loader, device: int) {
    Up(l.driver, device)
  }

  predicate RefUp(refs: map<int, nat>, d: Driver, device: int) {
    device in refs ==> Up(d, device)
  }

  predicate BufferUp(allocations: map<Key, Alloc>, d: Driver, k: Key) {
    k in allocations ==> Up(d, k.device)
  }

  /** Every device with a session or a resident buffer is up. */
  ghost predicate NeededDevicesUp(l: Loader) {
    && (forall device: int :: RefUp(l.refs, l.driver, device))
    && (forall k: Key :: BufferUp(l.allocations, l.driver, k))
  }

  /** Fewer sessions and entries need no more. */
  lemma FewerNeeds(l: Loader, l': Loader)
    requires NeededDevicesUp(l) && l'.driver == l.driver
    requires l'.refs.Keys <= l.refs.Keys && l'.allocations.Keys <= l.allocations.Keys
    ensures NeededDevicesUp(l')
  {
    forall device: int ensures RefUp(l'.refs, l'.driver, device) { assert RefUp(l.refs, l.driver, device); }
    forall k: Key ensures BufferUp(l'.allocations, l'.driver, k) { assert BufferUp(l.allocations, l.driver, k); }
  }

  lemma IdleMeansNoRefs(l: Loader)
    requires ValidLoader(l) && TotalRefs(l) == 0
    ensures l.refs == map[]
  {
    SumZero(l.refs);
    forall d ensures d !in l.refs { assert RefPositive(l.refs, d); }
  }

  lemma ShutdownKeepsNeeded(l: Loader, c: ShutCodes)
    requires ValidLoader(l) && NeededDevicesUp(l)
    ensures NeededDevicesUp(ShutdownIfIdle(l, c))
  {
    if TotalRefs(l) == 0 && l.allocations == map[] {
      IdleMeansNoRefs(l);
    }
  }

  /** A driver that covers the old one serves everything the old one served. */
  lemma CoverKeepsNeeded(l: Loader, d: Driver)
    requires NeededDevicesUp(l) && Covers(l.driver, d)
    ensures NeededDevicesUp(l.(driver := d))
  {
    forall x: int ensures RefUp(l.refs, d, x) { assert RefUp(l.refs, l.driver, x); }
    forall k: Key ensures BufferUp(l.allocations, d, k) { assert BufferUp(l.allocations, l.driver, k); }
  }

  lemma AddRefKeepsNeeded(l: Loader, device: int, n: nat)
    requires NeededDevicesUp(l) && Up(l.driver, device)
    ensures NeededDevicesUp(l.(refs := l.refs[device := n]))
  {
    var refs := l.refs[device := n];
    forall d: int ensures RefUp(refs, l.driver, d) { assert RefUp(l.refs, l.driver, d); }
  }

  lemma AddEntryKeepsNeeded(l: Loader, k: Key, a: Alloc)
    requires NeededDevicesUp(l) && Up(l.driver, k.device)
    ensures NeededDevicesUp(l.(allocations := l.allocations[k := a]))
  {
    var allocations := l.allocations[k := a];
    forall j: Key ensures BufferUp(allocations, l.driver, j) { assert BufferUp(l.allocations, l.driver, j); }
  }

  lemma OpeningKeepsNeeded(l: Loader, device: int, c: SessionCodes)
    requires NeededDevicesUp(l)
    ensures var d1 := InitDriver(l.driver, c.cuInit, c.openErr).0;
      && NeededDevicesUp(l.(driver := d1))
      && NeededDevicesUp(l.(driver := ActivateDevice(d1, device, c.device).0))
  {
    var f := FreeCodes(c.device, 0, 0, 0);
    var d1 := InitDriver(l.driver, c.cuInit, c.openErr).0;
    OnlyShutdownTakesAway(l.driver, device, 0, c.cuInit, c.openErr, f, LoadFailed(0));
    CoverKeepsNeeded(l, d1);
    OnlyShutdownTakesAway(d1, device, 0, 0, 0, f, LoadFailed(0));
    CoverKeepsNeeded(l.(driver := d1), ActivateDevice(d1, device, c.device).0);
  }

  lemma BeginKeepsNeeded(l: Loader, device: int, c: SessionCodes)
    requires ValidLoader(l) && NeededDevicesUp(l)
    ensures NeededDevicesUp(BeginSession(l, device, c).0)
  {
    if device in l.refs {
      assert RefUp(l.refs, l.driver, device);
      AddRefKeepsNeeded(l, device, l.refs[device] + 1);
      assert RefPositive(l.refs, device);
    } else {
      OpeningKeepsNeeded(l, device, c);
      var d1 := InitDriver(l.driver, c.cuInit, c.openErr).0;
      var (d2, rc2) := ActivateDevice(d1, device, c.device);
      DriverChangeKeepsValid(l, d2);
      ShutdownKeepsNeeded(l.(driver := d2), c.shut);
      if rc2 == 0 {
        ActivationRetains(d1, device, c.device);
        AddRefKeepsNeeded(l.(driver := d2), device, 1);
      }
    }
  }

  // ---- What a load comes to ---------------------------------------------------------------

  /** The codes with which a session begins and the whole file is read. */
  predicate CodesWork(c: LoadCodes) {
    && !c.cancelled && c.statOk && c.outcome.LoadDone? && c.outcome.total == c.size
    && c.begin.cuInit == 0 && c.begin.openErr == 0 && c.begin.device == DeviceCodes(0, 0)
  }

  /** The context table has the device, or room for it. */
  predicate RoomFor(table: seq<int>, device: int) {
    device in table || |table| < 128
  }

  lemma ShutdownKeepsRoom(l: Loader, device: int, c: ShutCodes)
    requires RoomFor(l.driver.table, device)
    ensures RoomFor(ShutdownIfIdle(l, c).driver.table, device)
  {
  }

  lemma ActivationKeepsRoom(d: Driver, device: int, c: DeviceCodes)
    requires RoomFor(d.table, device)
    ensures RoomFor(ActivateDevice(d, device, c).0.table, device)
  {
  }

  /** A load leaves room for the next on its device. */
  lemma LoadKeepsRoom(l: Loader, k: Key, c: LoadCodes)
    requires RoomFor(l.driver.table, k.device)
    ensures RoomFor(LoadPersistent(l, k, c).0.driver.table, k.device)
  {
    var d1 := InitDriver(l.driver, c.begin.cuInit, c.begin.openErr).0;
    var d2 := ActivateDevice(d1, k.device, c.begin.device).0;
    ActivationKeepsRoom(d1, k.device, c.begin.device);
    ShutdownKeepsRoom(l.(driver := d2), k.device, c.begin.shut);
    var l1 := BeginSession(l, k.device, c.begin).0;
    assert RoomFor(l1.driver.table, k.device);
    ReadKeepsRoom(l1, k, c);
    var l2 := LoadInSession(l1, k, c).0;
    ShutdownKeepsRoom(l2.(refs := DropRef(l2.refs, k.device)), k.device, c.shut);
  }

  lemma ReadKeepsRoom(l: Loader, k: Key, c: LoadCodes)
    requires RoomFor(l.driver.table, k.device)
    ensures RoomFor(LoadInSession(l, k, c).0.driver.table, k.device)
  {
    ActivationKeepsRoom(l.driver, k.device, c.device);
    var d := LoadBuffer(l.driver, k.device, c.device, c.outcome).0;
    ActivationKeepsRoom(d, k.device, c.free.device);
  }

  lemma ReadOutcomes(l: Loader, k: Key, c: LoadCodes)
    requires Up(l.driver, k.device) && k !in l.allocations
    requires c.outcome.LoadDone? ==> c.outcome.ptr != 0 && c.outcome.ptr !in l.driver.buffers
    ensures var (l', ok) := LoadInSession(l, k, c);
      && l'.refs == l.refs && (ok <==> c.outcome.LoadDone? && c.outcome.total == c.size)
      && (ok ==> LoadedAlone(l, l', k, c.outcome))
      && (!ok ==> l'.allocations == l.allocations)
      && (!ok && c.free.push == 0 && c.free.setDevice == 0 && c.free.free == 0 ==>
            l'.driver.buffers == l.driver.buffers)
  {
  }

  /** The buffer has become the key's entry, counted once and imported by nobody. */
  ghost predicate LoadedAlone(l: Loader, l': Loader, k: Key, o: LoadOutcome) {
    && o.LoadDone? && l'.driver.buffers == l.driver.buffers + {o.ptr}
    && l'.allocations == l.allocations[k := Alloc(o.ptr, o.total, 1, 0, map[], o.direct)]
  }

  /** A load gives its session back; a resident key is only counted; any other is read, and
      either becomes an entry or leaves entries, and with a working free device memory, as they
      were. With working codes it succeeds. */
  lemma LoadOutcomes(l: Loader, k: Key, c: LoadCodes)
    requires ValidLoader(l) && NeededDevicesUp(l)
    requires c.outcome.LoadDone? ==> c.outcome.ptr != 0 && c.outcome.ptr !in l.driver.buffers
    ensures var (l', ok) := LoadPersistent(l, k, c);
      && l'.refs == l.refs
      && (k in l.allocations ==> l'.driver == l.driver && (ok <==> !c.cancelled && c.statOk))
      && (k !in l.allocations && ok ==> c.outcome.total == c.size && LoadedAlone(l, l', k, c.outcome))
      && (!ok ==> l'.allocations == l.allocations)
      && (!ok && c.free.push == 0 && c.free.setDevice == 0 && c.free.free == 0 ==>
            l'.driver.buffers == l.driver.buffers)
      && (CodesWork(c) && RoomFor(l.driver.table, k.device) ==> ok)
  {
    if !c.cancelled && c.statOk && k !in l.allocations {
      var (l1, rc) := BeginSession(l, k.device, c.begin);
      BeginLeavesBuffers(l, k.device, c.begin);
      assert RefUp(l.refs, l.driver, k.device) && RefPositive(l.refs, k.device);
      if rc == 0 {
        ReadOutcomes(l1, k, c);
        var l2 := LoadInSession(l1, k, c).0;
        EndLeavesBuffers(l2, k.device, c.shut);
        assert DropRef(l1.refs, k.device) == l.refs;
      }
    }
  }

  // ---- The context table ----------------------------------------------------------------

  lemma ShutdownKeepsTable(l: Loader, c: ShutCodes)
    requires ValidDriver(l.driver)
    ensures ValidDriver(ShutdownIfIdle(l, c).driver)
  {
    ShutdownKeepsValid(l.driver, c);
  }

  lemma BeginKeepsTable(l: Loader, device: int, c: SessionCodes)
    requires ValidDriver(l.driver)
    ensures ValidDriver(BeginSession(l, device, c).0.driver)
  {
    var d1 := InitDriver(l.driver, c.cuInit, c.openErr).0;
    InitKeepsValid(l.driver, c.cuInit, c.openErr);
    ActivateKeepsValid(d1, device, c.device);
    ShutdownKeepsTable(l.(driver := ActivateDevice(d1, device, c.device).0), c.shut);
  }

  lemma EndKeepsTable(l: Loader, device: int, c: ShutCodes)
    requires ValidDriver(l.driver)
    ensures ValidDriver(EndSession(l, device, c).driver)
  {
    ShutdownKeepsTable(l.(refs := DropRef(l.refs, device)), c);
  }

  lemma UnloadKeepsTable(l: Loader, k: Key, f: FreeCodes, c: ShutCodes)
    requires ValidDriver(l.driver)
    ensures ValidDriver(Unload(l, k, f, c).0.driver)
  {
    if k in l.allocations {
      var a := l.allocations[k];
      FreeAndLoadKeepValid(l.driver, k.device, a.ptr, f, LoadFailed(0));
      var d := FreeBuffer(l.driver, k.device, a.ptr, f).0;
      ShutdownKeepsTable(l.(driver := d, allocations := l.allocations - {k}), c);
    }
  }

  lemma IdleShutdownKeepsBalance(l: Loader, c: ShutCodes)
    requires Balanced(l.driver) && c.lookupFails == {}
    ensures Balanced(ShutdownIfIdle(l, c).driver)
  {
    ShutdownKeepsBalance(l.driver, c);
  }

  lemma BeginKeepsBalance(l: Loader, device: int, c: SessionCodes)
    requires Balanced(l.driver) && c.shut.lookupFails == {}
    ensures Balanced(BeginSession(l, device, c).0.driver)
  {
    var d1 := InitDriver(l.driver, c.cuInit, c.openErr).0;
    ActivateKeepsBalance(d1, device, c.device);
    IdleShutdownKeepsBalance(l.(driver := ActivateDevice(d1, device, c.device).0), c.shut);
  }

  lemma EndKeepsBalance(l: Loader, device: int, c: ShutCodes)
    requires Balanced(l.driver) && c.lookupFails == {}
    ensures Balanced(EndSession(l, device, c).driver)
  {
    IdleShutdownKeepsBalance(l.(refs := DropRef(l.refs, device)), c);
  }

  lemma UnloadKeepsBalance(l: Loader, k: Key, f: FreeCodes, c: ShutCodes)
    requires Balanced(l.driver) && c.lookupFails == {}
    ensures Balanced(Unload(l, k, f, c).0.driver)
  {
    if k in l.allocations {
      FreeKeepsBalance(l.driver, k.device, l.allocations[k].ptr, f);
      var d := FreeBuffer(l.driver, k.device, l.allocations[k].ptr, f).0;
      IdleShutdownKeepsBalance(l.(driver := d, allocations := l.allocations - {k}), c);
    }
  }

  // ---- Sessions and loads ---------------------------------------------------------------

  lemma EndKeepsNeeded(l: Loader, device: int, c: ShutCodes)
    requires ValidLoader(l) && NeededDevicesUp(l)
    ensures NeededDevicesUp(EndSession(l, device, c))
  {
    var l' := l.(refs := DropRef(l.refs, device));
    FewerNeeds(l, l');
    forall d: int ensures RefPositive(l'.refs, d) { assert RefPositive(l.refs, d); }
    ShutdownKeepsNeeded(l', c);
  }

  lemma UnloadKeepsNeeded(l: Loader, k: Key, f: FreeCodes, c: ShutCodes)
    requires ValidLoader(l) && NeededDevicesUp(l)
    ensures NeededDevicesUp(Unload(l, k, f, c).0)
  {
    if k in l.allocations {
      var a := l.allocations[k];
      OnlyShutdownTakesAway(l.driver, k.device, a.ptr, 0, 0, f, LoadFailed(0));
      var l1 := l.(driver := FreeBuffer(l.driver, k.device, a.ptr, f).0);
      CoverKeepsNeeded(l, l1.driver);
      FewerNeeds(l, l.(allocations := l.allocations[k := a.(loadRefs := a.loadRefs - 1)]));
      FewerNeeds(l1, l1.(allocations := l.allocations[k := a.(loadRefs := 1)]));
      var gone := l1.(allocations := l.allocations - {k});
      FewerNeeds(l1, gone);
      forall j: Key ensures AllocOk(gone.allocations, j) { assert AllocOk(l.allocations, j); }
      ShutdownKeepsNeeded(gone, c);
    }
  }

  lemma LoadKeepsNeeded(l: Loader, k: Key, c: LoadCodes)
    requires ValidLoader(l) && NeededDevicesUp(l)
    ensures NeededDevicesUp(LoadPersistent(l, k, c).0)
  {
    if k in l.allocations {
      FewerNeeds(l, AddLoad(l, k));
    } else if !c.cancelled && c.statOk {
      BeginKeepsNeeded(l, k.device, c.begin);
      SessionsKeepValid(l, k.device, c.begin, c.shut);
      var (l1, rc) := BeginSession(l, k.device, c.begin);
      if rc == 0 {
        LoadInSessionKeepsNeeded(l1, k, c);
        LoadInSessionKeepsValid(l1, k, c);
        EndKeepsNeeded(LoadInSession(l1, k, c).0, k.device, c.shut);
      }
    }
  }

  lemma LoadInSessionKeepsNeeded(l: Loader, k: Key, c: LoadCodes)
    requires NeededDevicesUp(l) && k.device in l.refs
    ensures NeededDevicesUp(LoadInSession(l, k, c).0)
  {
    var f := FreeCodes(c.device, 0, 0, 0);
    OnlyShutdownTakesAway(l.driver, k.device, 0, 0, 0, f, c.outcome);
    var (d, o) := LoadBuffer(l.driver, k.device, c.device, c.outcome);
    var l' := l.(driver := d);
    CoverKeepsNeeded(l, d);
    assert RefUp(l.refs, d, k.device);
    if o.LoadDone? { SettlingKeepsNeeded(l', k, o, c.free); }
  }

  /** A read whose buffer is entered, or freed again. */
  lemma SettlingKeepsNeeded(l: Loader, k: Key, o: LoadOutcome, f: FreeCodes)
    requires NeededDevicesUp(l) && Up(l.driver, k.device) && o.LoadDone?
    ensures NeededDevicesUp(Settle(l, k, o.ptr, o.total, o.direct))
    ensures NeededDevicesUp(l.(driver := FreeBuffer(l.driver, k.device, o.ptr, f).0))
    ensures NeededDevicesUp(Settle(l, k, o.ptr, o.total, o.direct)
                              .(driver := FreeBuffer(l.driver, k.device, o.ptr, f).0))
  {
    var settled := Settle(l, k, o.ptr, o.total, o.direct);
    AddEntryKeepsNeeded(l, k, settled.allocations[k]);
    OnlyShutdownTakesAway(l.driver, k.device, o.ptr, 0, 0, f, LoadFailed(0));
    CoverKeepsNeeded(l, FreeBuffer(l.driver, k.device, o.ptr, f).0);
    CoverKeepsNeeded(settled, FreeBuffer(l.driver, k.device, o.ptr, f).0);
  }
}
