/** What each critical section of the GPU loader (internal/gpu/gds_linux.go) does to its
    state: reference-counted sessions per device, and buffers counted by loads and by
    importers, keyed by device and path. */
module LoaderState {
  import opened Prelude
  import opened CudaBridge

  datatype Key = Key(device: int, path: string)

  datatype Alloc = Alloc(ptr: int, bytes: int, loadRefs: int, importerRefs: int,
                         importers: map<string, nat>, direct: bool)

  datatype Loader = Loader(refs: map<int, nat>, allocations: map<Key, Alloc>, driver: Driver)

  const EMPTY := Loader(map[], map[], CLOSED)

  datatype SessionCodes = SessionCodes(cuInit: nat, openErr: nat, device: DeviceCodes, shut: ShutCodes)

  datatype UnloadOutcome = Cancelled | NotFound | Retained | Busy | FreeFailed(code: int) | Freed

  ghost predicate ValidAlloc(a: Alloc) {
    && a.loadRefs >= 1
    && a.importerRefs == Sum(a.importers)
    && "" !in a.importers
    && forall c :: c in a.importers ==> a.importers[c] > 0
  }

  ghost predicate ValidLoader(l: Loader) {
    (forall d: int :: RefPositive(l.refs, d)) && AllocsOk(l.allocations)
  }

  ghost predicate AllocsOk(allocations: map<Key, Alloc>) {
    forall k: Key :: AllocOk(allocations, k)
  }

  predicate RefPositive(refs: map<int, nat>, d: int) {
    d in refs ==> refs[d] > 0
  }

  ghost predicate AllocOk(allocations: map<Key, Alloc>, k: Key) {
    k in allocations ==> ValidAlloc(allocations[k])
  }

  /** How many times a client has imported a buffer. */
  function ImporterCount(l: Loader, k: Key, client: string): nat {
    if k in l.allocations then GetOr(l.allocations[k].importers, client, 0) else 0
  }

  /** How many loads a buffer carries; 0 when it is not resident. */
  function LoadRefs(l: Loader, k: Key): int {
    if k in l.allocations then l.allocations[k].loadRefs else 0
  }

  ghost function TotalRefs(l: Loader): nat {
    Sum(l.refs)
  }

  /** The driver is closed once nothing needs it. */
  ghost function ShutdownIfIdle(l: Loader, c: ShutCodes): Loader {
    if TotalRefs(l) == 0 && l.allocations == map[]
    then l.(driver := ShutdownDriver(l.driver, c).0)
    else l
  }

  ghost function BeginSession(l: Loader, device: int, c: SessionCodes): (r: (Loader, int)) {
    if GetOr(l.refs, device, 0) > 0 then
      (l.(refs := l.refs[device := l.refs[device] + 1]), 0)
    else
      var (d1, rc1) := InitDriver(l.driver, c.cuInit, c.openErr);
      if rc1 != 0 then (l.(driver := d1), rc1)
      else
        var (d2, rc2) := ActivateDevice(d1, device, c.device);
        if rc2 != 0 then (ShutdownIfIdle(l.(driver := d2), c.shut), rc2)
        else (l.(driver := d2, refs := l.refs[device := 1]), 0)
  }

  function DropRef(refs: map<int, nat>, device: int): map<int, nat> {
    if GetOr(refs, device, 0) > 1 then refs[device := refs[device] - 1] else refs - {device}
  }

  ghost function EndSession(l: Loader, device: int, c: ShutCodes): Loader {
    ShutdownIfIdle(l.(refs := DropRef(l.refs, device)), c)
  }

  /** First critical region of LoadPersistent: a resident buffer gains a load count. */
  function AddLoad(l: Loader, k: Key): Loader
    requires k in l.allocations
  {
    var a := l.allocations[k];
    l.(allocations := l.allocations[k := a.(loadRefs := a.loadRefs + 1)])
  }

  /** Last critical region of LoadPersistent: the winner inserts its buffer, a loser only
      counts its load on the winner's. */
  function Settle(l: Loader, k: Key, ptr: int, bytes: int, direct: bool): Loader {
    if k in l.allocations then AddLoad(l, k)
    else l.(allocations := l.allocations[k := Alloc(ptr, bytes, 1, 0, map[], direct)])
  }

  function AttachAlloc(a: Alloc, client: string): Alloc {
    a.(importers := a.importers[client := GetOr(a.importers, client, 0) + 1], importerRefs := a.importerRefs + 1)
  }

  function DetachAlloc(a: Alloc, client: string): Alloc {
    var count := GetOr(a.importers, client, 0);
    var fewer := if a.importerRefs > 0 then a.importerRefs - 1 else a.importerRefs;
    if count > 1 then a.(importers := a.importers[client := count - 1], importerRefs := fewer)
    else if count == 1 then a.(importers := a.importers - {client}, importerRefs := fewer)
    else a
  }

  function Attach(l: Loader, k: Key, client: string): Option<Loader> {
    if client == "" || k !in l.allocations then None
    else Some(l.(allocations := l.allocations[k := AttachAlloc(l.allocations[k], client)]))
  }

  function Detach(l: Loader, k: Key, client: string): Loader {
    if client == "" || k !in l.allocations then l
    else l.(allocations := l.allocations[k := DetachAlloc(l.allocations[k], client)])
  }

  ghost function Unload(l: Loader, k: Key, f: FreeCodes, c: ShutCodes): (r: (Loader, UnloadOutcome)) {
    if k !in l.allocations then (l, NotFound)
    else
      var a := l.allocations[k];
      if a.loadRefs > 1 then
        (l.(allocations := l.allocations[k := a.(loadRefs := a.loadRefs - 1)]), Retained)
      else if a.importerRefs > 0 then (l, Busy)
      else
        var (d, rc) := FreeBuffer(l.driver, k.device, a.ptr, f);
        if rc != 0 then
          (l.(driver := d, allocations := l.allocations[k := a.(loadRefs := 1)]), FreeFailed(rc))
        else
          (ShutdownIfIdle(l.(driver := d, allocations := l.allocations - {k}), c), Freed)
  }

  lemma AttachKeepsValid(a: Alloc, client: string)
    requires ValidAlloc(a) && client != ""
    ensures ValidAlloc(AttachAlloc(a, client))
  {
    SumUpdate(a.importers, client, GetOr(a.importers, client, 0) + 1);
  }

  lemma DetachKeepsValid(a: Alloc, client: string)
    requires ValidAlloc(a)
    ensures ValidAlloc(DetachAlloc(a, client))
  {
    var count := GetOr(a.importers, client, 0);
    if count >= 1 {
      SumBounds(a.importers, client);
      SumUpdate(a.importers, client, count - 1);
      SumRemove(a.importers, client);
    }
  }

  /** Detaching takes back exactly what attaching added. */
  lemma DetachUndoesAttach(a: Alloc, client: string)
    requires ValidAlloc(a)
    ensures DetachAlloc(AttachAlloc(a, client), client) == a
  {
    var b := AttachAlloc(a, client);
    if client in a.importers {
      assert b.importers[client := a.importers[client]] == a.importers;
    } else {
      assert b.importers - {client} == a.importers;
    }
  }

  /** Every loader operation keeps counts positive and importerRefs equal to the sum over
      clients. */
  lemma SessionsKeepValid(l: Loader, device: int, c: SessionCodes, s: ShutCodes)
    requires ValidLoader(l)
    ensures ValidLoader(BeginSession(l, device, c).0)
    ensures ValidLoader(EndSession(l, device, s))
  {
    var begun, ended := BeginSession(l, device, c).0, EndSession(l, device, s);
    forall d: int ensures RefPositive(begun.refs, d) && RefPositive(ended.refs, d) { assert RefPositive(l.refs, d); }
  }

  lemma DriverChangeKeepsValid(l: Loader, d: Driver)
    requires ValidLoader(l)
    ensures ValidLoader(l.(driver := d))
  {
  }

  /** One entry set to a valid one. */
  lemma EntryKeepsValid(l: Loader, k: Key, a: Alloc, l': Loader)
    requires ValidLoader(l) && ValidAlloc(a)
    requires l'.refs == l.refs && l'.allocations == l.allocations[k := a]
    ensures ValidLoader(l')
  {
    forall j: Key ensures AllocOk(l'.allocations, j) { assert AllocOk(l.allocations, j); }
  }

  lemma LoadsKeepValid(l: Loader, k: Key, ptr: int, bytes: int, direct: bool)
    requires ValidLoader(l)
    ensures k in l.allocations ==> ValidLoader(AddLoad(l, k))
    ensures ValidLoader(Settle(l, k, ptr, bytes, direct))
  {
    if k in l.allocations {
      assert AllocOk(l.allocations, k);
      EntryKeepsValid(l, k, AddLoad(l, k).allocations[k], AddLoad(l, k));
    } else {
      EntryKeepsValid(l, k, Alloc(ptr, bytes, 1, 0, map[], direct), Settle(l, k, ptr, bytes, direct));
    }
  }

  lemma ImportsKeepValid(l: Loader, k: Key, client: string)
    requires ValidLoader(l)
    ensures Attach(l, k, client).Some? ==> ValidLoader(Attach(l, k, client).value)
    ensures ValidLoader(Detach(l, k, client))
  {
    if k in l.allocations && client != "" {
      assert AllocOk(l.allocations, k);
      AttachKeepsValid(l.allocations[k], client);
      EntryKeepsValid(l, k, AttachAlloc(l.allocations[k], client), Attach(l, k, client).value);
      DetachKeepsValid(l.allocations[k], client);
      EntryKeepsValid(l, k, DetachAlloc(l.allocations[k], client), Detach(l, k, client));
    }
  }

  lemma UnloadKeepsValid(l: Loader, k: Key, f: FreeCodes, c: ShutCodes)
    requires ValidLoader(l)
    ensures ValidLoader(Unload(l, k, f, c).0)
  {
    var l' := Unload(l, k, f, c).0;
    forall j: Key ensures AllocOk(l'.allocations, j) { assert AllocOk(l.allocations, j); }
  }

  /** The driver is shut down: no context in the table, closed unless that fails, and with
      working lookups all retains given back that came from the table. */
  ghost predicate ShutDown(before: Driver, after: Driver, c: ShutCodes) {
    && after.table == [] && (c.closeErr == 0 ==> !after.open)
    && (c.lookupFails == {} && Balanced(before) ==> after.retains == multiset{})
  }

  /** Nothing needs the driver any more. */
  predicate NothingLeft(refs: map<int, nat>, allocations: map<Key, Alloc>) {
    refs == map[] && allocations == map[]
  }

  lemma IdleIsShutDown(l: Loader, c: ShutCodes)
    ensures NothingLeft(l.refs, l.allocations) ==> ShutDown(l.driver, ShutdownIfIdle(l, c).driver, c)
    ensures Sum(l.refs) > 0 || l.allocations != map[] ==> ShutdownIfIdle(l, c) == l
  {
    if c.lookupFails == {} && Balanced(l.driver) { ShutdownUndoesActivations(l.driver, c); }
  }

  /** An unload that leaves nothing behind shuts the driver down. */
  lemma LastUnloadShutsDown(l: Loader, k: Key, f: FreeCodes, c: ShutCodes)
    ensures var (l', r) := Unload(l, k, f, c);
      r.Freed? && NothingLeft(l'.refs, l'.allocations) ==> ShutDown(l.driver, l'.driver, c)
  {
    if k in l.allocations {
      var a := l.allocations[k];
      var d := FreeBuffer(l.driver, k.device, a.ptr, f).0;
      IdleIsShutDown(l.(driver := d, allocations := l.allocations - {k}), c);
      if Balanced(l.driver) { FreeKeepsBalance(l.driver, k.device, a.ptr, f); }
    }
  }

  /** The last session to end, with no buffer left, shuts the driver down. */
  lemma LastEndShutsDown(l: Loader, device: int, c: ShutCodes)
    ensures var l' := EndSession(l, device, c);
      NothingLeft(l'.refs, l'.allocations) ==> ShutDown(l.driver, l'.driver, c)
  {
    IdleIsShutDown(l.(refs := DropRef(l.refs, device)), c);
  }

  /** An activation that fails where nothing else needs the driver shuts it down again. */
  lemma FailedBeginShutsDown(l: Loader, device: int, c: SessionCodes)
    ensures var (l', rc) := BeginSession(l, device, c);
      rc != 0 && c.cuInit == 0 && (l.driver.open || c.openErr == 0) && NothingLeft(l.refs, l.allocations) ==>
        ShutDown(l.driver, l'.driver, c.shut)
  {
    var d1 := InitDriver(l.driver, c.cuInit, c.openErr).0;
    var d2 := ActivateDevice(d1, device, c.device).0;
    IdleIsShutDown(l.(driver := d2), c.shut);
    if Balanced(l.driver) { ActivateKeepsBalance(d1, device, c.device); }
  }

  lemma ShutdownLeavesBuffers(l: Loader, c: ShutCodes)
    ensures ShutdownIfIdle(l, c).allocations == l.allocations
    ensures ShutdownIfIdle(l, c).driver.buffers == l.driver.buffers
  {
  }

  /** Sessions come and go without touching entries or device memory. */
  lemma BeginLeavesBuffers(l: Loader, device: int, c: SessionCodes)
    ensures BeginSession(l, device, c).0.allocations == l.allocations
    ensures BeginSession(l, device, c).0.driver.buffers == l.driver.buffers
  {
    var d1 := InitDriver(l.driver, c.cuInit, c.openErr).0;
    OpeningLeavesBuffers(l.driver, device, c.cuInit, c.openErr, c.device);
    ShutdownLeavesBuffers(l.(driver := ActivateDevice(d1, device, c.device).0), c.shut);
  }

  lemma EndLeavesBuffers(l: Loader, device: int, c: ShutCodes)
    ensures EndSession(l, device, c).allocations == l.allocations
    ensures EndSession(l, device, c).driver.buffers == l.driver.buffers
  {
    ShutdownLeavesBuffers(l.(refs := DropRef(l.refs, device)), c);
  }

  /** What an unload leaves of the entries and of device memory, outcome by outcome. */
  lemma UnloadEffect(l: Loader, k: Key, f: FreeCodes, c: ShutCodes)
    ensures var (l', r) := Unload(l, k, f, c);
      && (r.Freed? ==> k in l.allocations && l'.allocations == l.allocations - {k})
      && (r.Freed? && l.allocations[k].ptr != 0 ==>
            l'.driver.buffers == l.driver.buffers - {l.allocations[k].ptr})
      && (!r.Freed? ==> l'.driver.buffers == l.driver.buffers)
      && (!r.Freed? ==> l'.allocations.Keys == l.allocations.Keys)
      && (!r.Freed? ==> forall j :: j in l.allocations ==> l'.allocations[j].ptr == l.allocations[j].ptr)
  {
  }

  /** Everything outside the loader's control in one UnloadPersistent call. */
  datatype UnloadCodes = UnloadCodes(cancelled: bool, free: FreeCodes, shut: ShutCodes)

  /** Everything outside the loader's control in one LoadPersistent call. */
  datatype LoadCodes = LoadCodes(cancelled: bool, statOk: bool, size: int, begin: SessionCodes,
                                 device: DeviceCodes, outcome: LoadOutcome, free: FreeCodes, shut: ShutCodes)

  /** LoadPersistent when no other call runs in between. */
  ghost function LoadPersistent(l: Loader, k: Key, c: LoadCodes): (r: (Loader, bool)) {
    if c.cancelled || !c.statOk then (l, false)
    else if k in l.allocations then (AddLoad(l, k), true)
    else
      var (l1, rc) := BeginSession(l, k.device, c.begin);
      if rc != 0 then (l1, false)
      else
        var (l2, ok) := LoadInSession(l1, k, c);
        (EndSession(l2, k.device, c.shut), ok)
  }

  ghost function LoadInSession(l: Loader, k: Key, c: LoadCodes): (r: (Loader, bool)) {
    var (d, o) := LoadBuffer(l.driver, k.device, c.device, c.outcome);
    var l' := l.(driver := d);
    if o.LoadFailed? then (l', false)
    else if o.total != c.size then
      (l'.(driver := FreeBuffer(d, k.device, o.ptr, c.free).0), false)
    else
      var settled := Settle(l', k, o.ptr, o.total, o.direct);
      if k in l.allocations
      then (settled.(driver := FreeBuffer(d, k.device, o.ptr, c.free).0), true)
      else (settled, true)
  }

  lemma LoadInSessionKeepsValid(l: Loader, k: Key, c: LoadCodes)
    requires ValidLoader(l)
    ensures ValidLoader(LoadInSession(l, k, c).0)
  {
    var (d, o) := LoadBuffer(l.driver, k.device, c.device, c.outcome);
    DriverChangeKeepsValid(l, d);
    if o.LoadDone? { LoadsKeepValid(l.(driver := d), k, o.ptr, o.total, o.direct); }
  }

  lemma LoadKeepsValid(l: Loader, k: Key, c: LoadCodes)
    requires ValidLoader(l)
    ensures ValidLoader(LoadPersistent(l, k, c).0)
  {
    if k in l.allocations {
      LoadsKeepValid(l, k, 0, 0, false);
    } else {
      var l1 := BeginSession(l, k.device, c.begin).0;
      SessionsKeepValid(l, k.device, c.begin, c.shut);
      LoadInSessionKeepsValid(l1, k, c);
      SessionsKeepValid(LoadInSession(l1, k, c).0, k.device, c.begin, c.shut);
    }
  }
}
