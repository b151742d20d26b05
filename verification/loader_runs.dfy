/** Every interleaving of the calls that touch the loader's shared state: LoadPersistent,
    UnloadPersistent, AttachPersistent, DetachPersistent, sessions around a benchmark read,
    Probe and ListDevices, and the bare device activations of ExportPersistent and of a LoadFile
    that found a session and lost it. Each critical section and each driver call is one step,
    so other calls may run between the check, the read and the re-check of LoadPersistent
    (internal/gpu/gds_linux.go:292-398). ListPersistent only reads. */
module LoaderRuns {
  import opened Prelude
  import opened CudaBridge
  import opened LoaderState
  import opened DriverUse

  /** Where a call stands between two steps. */
  datatype Call =
    | Idle
    | Missed(key: Key)                            // checked: not resident, session not begun
    | Reading(key: Key)                           // session held, device read running
    | Holding(key: Key, ptr: int, total: int, direct: bool)
    | Discarding(key: Key, ptr: int)              // must free its own buffer
    | Ending(device: int)                         // only the deferred end of session is left
    | Benchmark(device: int)

  /** leaked: buffers whose own call tried to free them and failed.
      loads, unloads: successful calls so far, per key. */
  datatype Sys = Sys(loader: Loader, calls: map<nat, Call>, leaked: set<int>,
                     loads: map<Key, nat>, unloads: map<Key, nat>)

  datatype Action =
    | StartLoad(t: nat, key: Key)
    | BeginLoad(t: nat, begin: SessionCodes)
    | FinishRead(t: nat, codes: DeviceCodes, outcome: LoadOutcome, sizeMatches: bool)
    | Recheck(t: nat)
    | FreeOwn(t: nat, free: FreeCodes)
    | EndLoad(t: nat, shut: ShutCodes)
    | StartBenchmark(t: nat, device: int, begin: SessionCodes)
    | EndBenchmark(t: nat, shut: ShutCodes)
    | UnloadKey(key: Key, free: FreeCodes, shut: ShutCodes)
    | AttachKey(key: Key, client: string)
    | DetachKey(key: Key, client: string)
    | Probe(cuInit: nat, openErr: nat)            // gds_init, also from ListDevices
    | ActivateOnly(device: int, codes: DeviceCodes)

  ghost predicate Initial(s: Sys) {
    && s.loader == EMPTY
    && (forall t :: t in s.calls ==> s.calls[t] == Idle)
    && s.leaked == {} && s.loads == map[] && s.unloads == map[]
  }

  predicate Enabled(s: Sys, a: Action) {
    match a
    case StartLoad(t, _) => t in s.calls && s.calls[t].Idle?
    case BeginLoad(t, _) => t in s.calls && s.calls[t].Missed?
    case FinishRead(t, _, o, _) =>
      && t in s.calls && s.calls[t].Reading?
      && (o.LoadDone? ==> o.ptr != 0 && o.ptr !in s.loader.driver.buffers)
    case Recheck(t) => t in s.calls && s.calls[t].Holding?
    case FreeOwn(t, _) => t in s.calls && s.calls[t].Discarding?
    case EndLoad(t, _) => t in s.calls && s.calls[t].Ending?
    case StartBenchmark(t, _, _) => t in s.calls && s.calls[t].Idle?
    case EndBenchmark(t, _) => t in s.calls && s.calls[t].Benchmark?
    case _ => true
  }

  function Bump(m: map<Key, nat>, k: Key): map<Key, nat> {
    m[k := GetOr(m, k, 0) + 1]
  }

  ghost function Next(s: Sys, a: Action): Sys
    requires Enabled(s, a)
  {
    match a
    case StartLoad(t, k) =>
      if k in s.loader.allocations
      then s.(loader := AddLoad(s.loader, k), loads := Bump(s.loads, k))
      else s.(calls := s.calls[t := Missed(k)])
    case BeginLoad(t, c) =>
      var k := s.calls[t].key;
      var (l, rc) := BeginSession(s.loader, k.device, c);
      s.(loader := l, calls := s.calls[t := if rc == 0 then Reading(k) else Idle])
    case FinishRead(t, c, outcome, sizeMatches) =>
      var k := s.calls[t].key;
      var (d, o) := LoadBuffer(s.loader.driver, k.device, c, outcome);
      var call := if o.LoadFailed? then Ending(k.device)
                  else if sizeMatches then Holding(k, o.ptr, o.total, o.direct)
                  else Discarding(k, o.ptr);
      s.(loader := s.loader.(driver := d), calls := s.calls[t := call])
    case Recheck(t) =>
      var h := s.calls[t];
      var call := if h.key in s.loader.allocations then Discarding(h.key, h.ptr) else Ending(h.key.device);
      s.(loader := Settle(s.loader, h.key, h.ptr, h.total, h.direct),
         calls := s.calls[t := call], loads := Bump(s.loads, h.key))
    case FreeOwn(t, f) =>
      var h := s.calls[t];
      var (d, rc) := FreeBuffer(s.loader.driver, h.key.device, h.ptr, f);
      s.(loader := s.loader.(driver := d), calls := s.calls[t := Ending(h.key.device)],
         leaked := if rc == 0 then s.leaked else s.leaked + {h.ptr})
    case EndLoad(t, c) =>
      s.(loader := EndSession(s.loader, s.calls[t].device, c), calls := s.calls[t := Idle])
    case StartBenchmark(t, device, c) =>
      var (l, rc) := BeginSession(s.loader, device, c);
      s.(loader := l, calls := s.calls[t := if rc == 0 then Benchmark(device) else Idle])
    case EndBenchmark(t, c) =>
      s.(loader := EndSession(s.loader, s.calls[t].device, c), calls := s.calls[t := Idle])
    case UnloadKey(k, f, c) =>
      var (l, r) := Unload(s.loader, k, f, c);
      s.(loader := l, unloads := if r.Retained? || r.Freed? then Bump(s.unloads, k) else s.unloads)
    case AttachKey(k, client) =>
      var l := Attach(s.loader, k, client);
      if l.Some? then s.(loader := l.value) else s
    case DetachKey(k, client) => s.(loader := Detach(s.loader, k, client))
    case Probe(i, o) => s.(loader := s.loader.(driver := InitDriver(s.loader.driver, i, o).0))
    case ActivateOnly(d, c) => s.(loader := s.loader.(driver := ActivateDevice(s.loader.driver, d, c).0))
  }

  /** A run: every action is enabled where it happens. */
  ghost predicate Run(s: Sys, actions: seq<Action>, s': Sys)
    decreases |actions|
  {
    if actions == [] then s == s'
    else Enabled(s, actions[0]) && Run(Next(s, actions[0]), actions[1..], s')
  }

  ghost predicate Reachable(s: Sys) {
    exists s0, actions :: Initial(s0) && Run(s0, actions, s)
  }

  // ---- Sessions and the driver -------------------------------------------------------

  predicate HoldsSession(c: Call, device: int) {
    match c
    case Reading(k) => k.device == device
    case Holding(k, _, _, _) => k.device == device
    case Discarding(k, _) => k.device == device
    case Ending(d) => d == device
    case Benchmark(d) => d == device
    case _ => false
  }

  function Holders(calls: map<nat, Call>, device: int): set<nat> {
    set t | t in calls && HoldsSession(calls[t], device)
  }

  predicate RefCounted(refs: map<int, nat>, calls: map<nat, Call>, d: int) {
    GetOr(refs, d, 0) == |Holders(calls, d)|
  }

  ghost predicate RefsCountHolders(s: Sys) {
    forall d: int :: RefCounted(s.loader.refs, s.calls, d)
  }

  ghost predicate SessionsOk(s: Sys) {
    ValidLoader(s.loader) && RefsCountHolders(s) && NeededDevicesUp(s.loader)
  }

  /** How much call c adds to the holders of a device. */
  function Held(c: Call, d: int): nat {
    if HoldsSession(c, d) then 1 else 0
  }

  lemma SizeWithout(m: set<nat>, t: nat)
    ensures |m| == |m - {t}| + if t in m then 1 else 0
  {
    if t in m { assert m == m - {t} + {t}; } else { assert m == m - {t}; }
  }

  lemma HoldersUpdate(calls: map<nat, Call>, t: nat, c: Call, d: int)
    requires t in calls
    ensures |Holders(calls[t := c], d)| + Held(calls[t], d) == |Holders(calls, d)| + Held(c, d)
  {
    var before, after := Holders(calls, d), Holders(calls[t := c], d);
    assert after - {t} == before - {t};
    SizeWithout(before, t);
    SizeWithout(after, t);
  }

  /** A call that holds a session finds its device up. */
  lemma HolderDeviceUp(s: Sys, t: nat, d: int)
    requires SessionsOk(s) && t in s.calls && HoldsSession(s.calls[t], d)
    ensures d in s.loader.refs && s.loader.refs[d] > 0 && DeviceUp(s.loader, d)
  {
    assert RefCounted(s.loader.refs, s.calls, d);
    assert t in Holders(s.calls, d);
    assert RefUp(s.loader.refs, s.loader.driver, d);
  }

  lemma BeginRefs(l: Loader, device: int, c: SessionCodes, d: int)
    ensures var (l', rc) := BeginSession(l, device, c);
      GetOr(l'.refs, d, 0) == GetOr(l.refs, d, 0) + if rc == 0 && d == device then 1 else 0
  {
  }

  lemma EndRefs(l: Loader, device: int, c: ShutCodes, d: int)
    requires GetOr(l.refs, device, 0) > 0
    ensures GetOr(EndSession(l, device, c).refs, d, 0) + (if d == device then 1 else 0) == GetOr(l.refs, d, 0)
  {
  }

  predicate SessionStep(a: Action) {
    a.BeginLoad? || a.StartBenchmark? || a.EndLoad? || a.EndBenchmark?
  }

  /** A session begins or ends. */
  lemma SessionKeepsRefCounts(s: Sys, a: Action, d: int)
    requires SessionsOk(s) && Enabled(s, a) && SessionStep(a)
    ensures RefCounted(Next(s, a).loader.refs, Next(s, a).calls, d)
  {
    assert RefCounted(s.loader.refs, s.calls, d);
    HoldersUpdate(s.calls, a.t, Next(s, a).calls[a.t], d);
    match a
    case BeginLoad(t, c) => BeginRefs(s.loader, s.calls[t].key.device, c, d);
    case StartBenchmark(t, device, c) => BeginRefs(s.loader, device, c, d);
    case EndLoad(t, c) =>
      HolderDeviceUp(s, t, s.calls[t].device);
      EndRefs(s.loader, s.calls[t].device, c, d);
    case EndBenchmark(t, c) =>
      HolderDeviceUp(s, t, s.calls[t].device);
      EndRefs(s.loader, s.calls[t].device, c, d);
  }

  /** The session stays with its call. */
  lemma CallKeepsRefCounts(s: Sys, a: Action, d: int)
    requires RefCounted(s.loader.refs, s.calls, d) && Enabled(s, a) && !SessionStep(a)
    ensures RefCounted(Next(s, a).loader.refs, Next(s, a).calls, d)
  {
    match a
    case StartLoad(t, _) => HoldersUpdate(s.calls, t, Next(s, a).calls[t], d);
    case FinishRead(t, _, _, _) => HoldersUpdate(s.calls, t, Next(s, a).calls[t], d);
    case Recheck(t) => HoldersUpdate(s.calls, t, Next(s, a).calls[t], d);
    case FreeOwn(t, _) => HoldersUpdate(s.calls, t, Next(s, a).calls[t], d);
    case _ =>
  }

  /** The counts of session holders follow the refs map through one step. */
  lemma StepKeepsRefCounts(s: Sys, a: Action)
    requires SessionsOk(s) && Enabled(s, a)
    ensures RefsCountHolders(Next(s, a))
  {
    var s' := Next(s, a);
    forall d: int ensures RefCounted(s'.loader.refs, s'.calls, d) {
      if SessionStep(a) {
        SessionKeepsRefCounts(s, a, d);
      } else {
        assert RefCounted(s.loader.refs, s.calls, d);
        CallKeepsRefCounts(s, a, d);
      }
    }
  }

  lemma StepKeepsLoaderValid(s: Sys, a: Action)
    requires ValidLoader(s.loader) && Enabled(s, a)
    ensures ValidLoader(Next(s, a).loader)
  {
    match a
    case AttachKey(k, client) => ImportsKeepValid(s.loader, k, client);
    case DetachKey(k, client) => ImportsKeepValid(s.loader, k, client);
    case UnloadKey(k, f, c) => UnloadKeepsValid(s.loader, k, f, c);
    case StartLoad(t, k) => LoadsKeepValid(s.loader, k, 0, 0, false);
    case Recheck(t) =>
      var h := s.calls[t];
      LoadsKeepValid(s.loader, h.key, h.ptr, h.total, h.direct);
    case BeginLoad(t, c) => SessionsKeepValid(s.loader, s.calls[t].key.device, c, c.shut);
    case StartBenchmark(t, d, c) => SessionsKeepValid(s.loader, d, c, c.shut);
    case EndLoad(t, c) => SessionsKeepValid(s.loader, s.calls[t].device, SessionCodes(0, 0, DeviceCodes(0, 0), c), c);
    case EndBenchmark(t, c) =>
      SessionsKeepValid(s.loader, s.calls[t].device, SessionCodes(0, 0, DeviceCodes(0, 0), c), c);
    case _ => DriverChangeKeepsValid(s.loader, Next(s, a).loader.driver);
  }

  lemma StepKeepsNeeded(s: Sys, a: Action)
    requires SessionsOk(s) && Enabled(s, a)
    ensures NeededDevicesUp(Next(s, a).loader)
  {
    match a
    case BeginLoad(t, c) => BeginKeepsNeeded(s.loader, s.calls[t].key.device, c);
    case StartBenchmark(t, d, c) => BeginKeepsNeeded(s.loader, d, c);
    case EndLoad(t, c) => EndKeepsNeeded(s.loader, s.calls[t].device, c);
    case EndBenchmark(t, c) => EndKeepsNeeded(s.loader, s.calls[t].device, c);
    case UnloadKey(k, f, c) => UnloadKeepsNeeded(s.loader, k, f, c);
    case Recheck(t) =>
      var h := s.calls[t];
      HolderDeviceUp(s, t, h.key.device);
      AddEntryKeepsNeeded(s.loader, h.key, Settle(s.loader, h.key, h.ptr, h.total, h.direct).allocations[h.key]);
    case FinishRead(_, _, _, _) => DriverStepKeepsNeeded(s, a);
    case FreeOwn(_, _) => DriverStepKeepsNeeded(s, a);
    case Probe(_, _) => DriverStepKeepsNeeded(s, a);
    case ActivateOnly(_, _) => DriverStepKeepsNeeded(s, a);
    case _ => FewerNeeds(s.loader, Next(s, a).loader);
  }

  lemma DriverStepKeepsNeeded(s: Sys, a: Action)
    requires NeededDevicesUp(s.loader) && Enabled(s, a)
    requires a.FinishRead? || a.FreeOwn? || a.Probe? || a.ActivateOnly?
    ensures NeededDevicesUp(Next(s, a).loader)
  {
    match a {
      case FinishRead(t, c, o, _) =>
        OnlyShutdownTakesAway(s.loader.driver, s.calls[t].key.device, 0, 0, 0, FreeCodes(c, 0, 0, 0), o);
      case FreeOwn(t, f) =>
        OnlyShutdownTakesAway(s.loader.driver, s.calls[t].key.device, s.calls[t].ptr, 0, 0, f, LoadFailed(0));
      case Probe(i, o) =>
        OnlyShutdownTakesAway(s.loader.driver, 0, 0, i, o, FreeCodes(DeviceCodes(0, 0), 0, 0, 0), LoadFailed(0));
      case ActivateOnly(d, c) =>
        OnlyShutdownTakesAway(s.loader.driver, d, 0, 0, 0, FreeCodes(c, 0, 0, 0), LoadFailed(0));
    }
    CoverKeepsNeeded(s.loader, Next(s, a).loader.driver);
  }

  lemma StepKeepsSessions(s: Sys, a: Action)
    requires SessionsOk(s) && Enabled(s, a)
    ensures SessionsOk(Next(s, a))
  {
    StepKeepsLoaderValid(s, a);
    StepKeepsRefCounts(s, a);
    StepKeepsNeeded(s, a);
  }

  // ---- Buffers ----------------------------------------------------------------------

  /** The device buffer a call itself still owns. */
  function OwnPtr(c: Call): Option<int> {
    match c
    case Holding(_, p, _, _) => Some(p)
    case Discarding(_, p) => Some(p)
    case _ => None
  }

  predicate Owns(s: Sys, t: nat, p: int) {
    t in s.calls && OwnPtr(s.calls[t]) == Some(p)
  }

  predicate Backs(s: Sys, k: Key, p: int) {
    k in s.loader.allocations && s.loader.allocations[k].ptr == p
  }

  /** Every outstanding buffer has exactly one owner: a map entry, a call in flight, or
      the set of buffers whose free failed. */
  ghost predicate BuffersOwned(s: Sys) {
    && 0 !in s.loader.driver.buffers
    && s.leaked <= s.loader.driver.buffers
    && (forall k, p :: Backs(s, k, p) ==> p in s.loader.driver.buffers && p !in s.leaked)
    && (forall t, p :: Owns(s, t, p) ==> p in s.loader.driver.buffers && p !in s.leaked)
    && (forall k, t, p :: Backs(s, k, p) ==> !Owns(s, t, p))
    && (forall k, j, p :: Backs(s, k, p) && Backs(s, j, p) ==> k == j)
    && (forall t, u, p :: Owns(s, t, p) && Owns(s, u, p) ==> t == u)
    && (forall p :: p in s.loader.driver.buffers && p !in s.leaked ==>
                      (exists k :: Backs(s, k, p)) || exists t :: Owns(s, t, p))
  }

  /** Steps that neither allocate nor free device memory, nor change who owns it. */
  lemma SameBuffersStayOwned(s: Sys, s': Sys)
    requires BuffersOwned(s)
    requires s'.loader.driver.buffers == s.loader.driver.buffers && s'.leaked == s.leaked
    requires forall k, p :: Backs(s', k, p) <==> Backs(s, k, p)
    requires forall t, p :: Owns(s', t, p) <==> Owns(s, t, p)
    ensures BuffersOwned(s')
  {
  }

  lemma ReadStepOwnsBuffers(s: Sys, a: Action)
    requires BuffersOwned(s) && Enabled(s, a) && a.FinishRead?
    ensures BuffersOwned(Next(s, a))
  {
    var s' := Next(s, a);
    var k := s.calls[a.t].key;
    var (d, o) := LoadBuffer(s.loader.driver, k.device, a.codes, a.outcome);
    if o.LoadFailed? {
      SameBuffersStayOwned(s, s');
    } else {
      assert forall t, p :: Owns(s', t, p) <==> Owns(s, t, p) || (t == a.t && p == o.ptr);
      assert forall k, p :: Backs(s', k, p) <==> Backs(s, k, p);
      assert Owns(s', a.t, o.ptr);
    }
  }

  lemma RecheckStepOwnsBuffers(s: Sys, a: Action)
    requires BuffersOwned(s) && Enabled(s, a) && a.Recheck?
    ensures BuffersOwned(Next(s, a))
  {
    var s' := Next(s, a);
    var h := s.calls[a.t];
    if h.key in s.loader.allocations {
      SameBuffersStayOwned(s, s');
    } else {
      assert Owns(s, a.t, h.ptr) && Backs(s', h.key, h.ptr);
      assert forall t, p :: Owns(s', t, p) <==> Owns(s, t, p) && t != a.t;
      assert forall k, p :: Backs(s', k, p) <==> Backs(s, k, p) || (k == h.key && p == h.ptr);
    }
  }

  lemma FreeStepOwnsBuffers(s: Sys, a: Action)
    requires BuffersOwned(s) && Enabled(s, a) && a.FreeOwn?
    ensures BuffersOwned(Next(s, a))
  {
    var s' := Next(s, a);
    var h := s.calls[a.t];
    assert Owns(s, a.t, h.ptr);
    assert forall t, p :: Owns(s', t, p) <==> Owns(s, t, p) && t != a.t;
    assert forall k, p :: Backs(s', k, p) <==> Backs(s, k, p);
  }

  /** Who owns what after an unload. */
  lemma UnloadOwners(s: Sys, a: Action)
    requires Enabled(s, a) && a.UnloadKey?
    ensures var s', freed := Next(s, a), Unload(s.loader, a.key, a.free, a.shut).1.Freed?;
      && (freed ==> a.key in s.loader.allocations)
      && (forall k, p :: Backs(s', k, p) <==> Backs(s, k, p) && !(freed && k == a.key))
      && (forall t, p :: Owns(s', t, p) <==> Owns(s, t, p))
  {
    UnloadEffect(s.loader, a.key, a.free, a.shut);
  }

  lemma UnloadStepOwnsBuffers(s: Sys, a: Action)
    requires BuffersOwned(s) && Enabled(s, a) && a.UnloadKey?
    ensures BuffersOwned(Next(s, a))
  {
    UnloadOwners(s, a);
    UnloadEffect(s.loader, a.key, a.free, a.shut);
    if Unload(s.loader, a.key, a.free, a.shut).1.Freed? {
      BackingFreed(s, Next(s, a), a.key, s.loader.allocations[a.key].ptr);
    } else {
      SameBuffersStayOwned(s, Next(s, a));
    }
  }

  /** One entry goes, and its buffer with it. */
  lemma BackingFreed(s: Sys, s': Sys, k0: Key, p0: int)
    requires BuffersOwned(s) && Backs(s, k0, p0)
    requires s'.loader.driver.buffers == s.loader.driver.buffers - {p0} && s'.leaked == s.leaked
    requires forall k, p :: Backs(s', k, p) <==> Backs(s, k, p) && k != k0
    requires forall t, p :: Owns(s', t, p) <==> Owns(s, t, p)
    ensures BuffersOwned(s')
  {
  }

  lemma StepKeepsBuffers(s: Sys, a: Action)
    requires BuffersOwned(s) && Enabled(s, a)
    ensures BuffersOwned(Next(s, a))
  {
    match a
    case FinishRead(_, _, _, _) => ReadStepOwnsBuffers(s, a);
    case Recheck(_) => RecheckStepOwnsBuffers(s, a);
    case FreeOwn(_, _) => FreeStepOwnsBuffers(s, a);
    case UnloadKey(_, _, _) => UnloadStepOwnsBuffers(s, a);
    case _ => OtherStepOwnsBuffers(s, a);
  }

  lemma OtherStepOwnsBuffers(s: Sys, a: Action)
    requires BuffersOwned(s) && Enabled(s, a)
    requires !a.FinishRead? && !a.Recheck? && !a.FreeOwn? && !a.UnloadKey?
    ensures BuffersOwned(Next(s, a))
  {
    var s' := Next(s, a);
    OtherStepSamePtrs(s, a);
    assert forall t, p :: Owns(s', t, p) <==> Owns(s, t, p);
    SameBuffersStayOwned(s, s');
  }

  lemma OtherStepSamePtrs(s: Sys, a: Action)
    requires Enabled(s, a)
    requires !a.FinishRead? && !a.Recheck? && !a.FreeOwn? && !a.UnloadKey?
    ensures Next(s, a).loader.driver.buffers == s.loader.driver.buffers
    ensures forall k, p :: Backs(Next(s, a), k, p) <==> Backs(s, k, p)
  {
    match a
    case BeginLoad(t, c) => BeginLeavesBuffers(s.loader, s.calls[t].key.device, c);
    case StartBenchmark(t, d, c) => BeginLeavesBuffers(s.loader, d, c);
    case EndLoad(t, c) => EndLeavesBuffers(s.loader, s.calls[t].device, c);
    case EndBenchmark(t, c) => EndLeavesBuffers(s.loader, s.calls[t].device, c);
    case _ =>
  }

  // ---- Load counts ------------------------------------------------------------------

  /** An entry's load count is the number of successful loads minus the number of
      successful unloads; an absent entry means they balance. */
  ghost predicate CountsBalance(s: Sys) {
    forall k: Key :: CountBalances(s, k)
  }

  predicate CountBalances(s: Sys, k: Key) {
    GetOr(s.loads, k, 0) == GetOr(s.unloads, k, 0) + LoadRefs(s.loader, k)
  }

  lemma UnloadRefs(l: Loader, k: Key, f: FreeCodes, c: ShutCodes, j: Key)
    requires ValidLoader(l)
    ensures var (l', r) := Unload(l, k, f, c);
      LoadRefs(l', j) + (if j == k && (r.Retained? || r.Freed?) then 1 else 0) == LoadRefs(l, j)
  {
    assert AllocOk(l.allocations, k);
  }

  lemma LoadKeepsCount(s: Sys, a: Action, k: Key)
    requires CountBalances(s, k) && Enabled(s, a) && (a.StartLoad? || a.Recheck?)
    ensures CountBalances(Next(s, a), k)
  {
  }

  lemma ImportKeepsCount(s: Sys, a: Action, k: Key)
    requires CountBalances(s, k) && Enabled(s, a) && (a.AttachKey? || a.DetachKey?)
    ensures CountBalances(Next(s, a), k)
  {
  }

  lemma StepKeepsCount(s: Sys, a: Action, k: Key)
    requires CountBalances(s, k) && ValidLoader(s.loader) && Enabled(s, a)
    ensures CountBalances(Next(s, a), k)
  {
    match a
    case UnloadKey(j, f, c) => UnloadRefs(s.loader, j, f, c, k);
    case AttachKey(_, _) => ImportKeepsCount(s, a, k);
    case DetachKey(_, _) => ImportKeepsCount(s, a, k);
    case StartLoad(_, _) => LoadKeepsCount(s, a, k);
    case Recheck(_) => LoadKeepsCount(s, a, k);
    case _ => OtherStepSameEntries(s, a);
  }

  lemma StepKeepsCounts(s: Sys, a: Action)
    requires CountsBalance(s) && ValidLoader(s.loader) && Enabled(s, a)
    ensures CountsBalance(Next(s, a))
  {
    var s' := Next(s, a);
    forall k: Key ensures CountBalances(s', k) {
      assert CountBalances(s, k);
      StepKeepsCount(s, a, k);
    }
  }

  lemma OtherStepSameEntries(s: Sys, a: Action)
    requires Enabled(s, a)
    requires !a.UnloadKey? && !a.AttachKey? && !a.DetachKey? && !a.StartLoad? && !a.Recheck?
    ensures Next(s, a).loader.allocations == s.loader.allocations
    ensures Next(s, a).loads == s.loads && Next(s, a).unloads == s.unloads
  {
    match a
    case BeginLoad(t, c) => BeginLeavesBuffers(s.loader, s.calls[t].key.device, c);
    case StartBenchmark(t, d, c) => BeginLeavesBuffers(s.loader, d, c);
    case EndLoad(t, c) => EndLeavesBuffers(s.loader, s.calls[t].device, c);
    case EndBenchmark(t, c) => EndLeavesBuffers(s.loader, s.calls[t].device, c);
    case _ =>
  }

  // ---- The context table --------------------------------------------------------------

  lemma StepKeepsTable(s: Sys, a: Action)
    requires ValidDriver(s.loader.driver) && Enabled(s, a)
    ensures ValidDriver(Next(s, a).loader.driver)
  {
    match a
    case BeginLoad(t, c) => BeginKeepsTable(s.loader, s.calls[t].key.device, c);
    case StartBenchmark(t, d, c) => BeginKeepsTable(s.loader, d, c);
    case EndLoad(t, c) => EndKeepsTable(s.loader, s.calls[t].device, c);
    case EndBenchmark(t, c) => EndKeepsTable(s.loader, s.calls[t].device, c);
    case UnloadKey(k, f, c) => UnloadKeepsTable(s.loader, k, f, c);
    case FinishRead(t, c, o, _) =>
      FreeAndLoadKeepValid(s.loader.driver, s.calls[t].key.device, 0, FreeCodes(c, 0, 0, 0), o);
    case FreeOwn(t, f) =>
      FreeAndLoadKeepValid(s.loader.driver, s.calls[t].key.device, s.calls[t].ptr, f, LoadFailed(0));
    case Probe(i, o) => InitKeepsValid(s.loader.driver, i, o);
    case ActivateOnly(d, c) => ActivateKeepsValid(s.loader.driver, d, c);
    case _ =>
  }

  // ---- Whole runs -------------------------------------------------------------------

  ghost predicate Inv(s: Sys) {
    SessionsOk(s) && BuffersOwned(s) && CountsBalance(s) && ValidDriver(s.loader.driver)
  }

  lemma InitialInv(s: Sys)
    requires Initial(s)
    ensures Inv(s)
  {
    forall d: int ensures RefCounted(s.loader.refs, s.calls, d) {
      assert Holders(s.calls, d) == {};
    }
  }

  lemma StepKeepsInv(s: Sys, a: Action)
    requires Inv(s) && Enabled(s, a)
    ensures Inv(Next(s, a))
  {
    StepKeepsSessions(s, a);
    StepKeepsBuffers(s, a);
    StepKeepsCounts(s, a);
    StepKeepsTable(s, a);
  }

  lemma {:induction false} RunKeepsInv(s: Sys, actions: seq<Action>, s': Sys)
    requires Inv(s) && Run(s, actions, s')
    ensures Inv(s')
    decreases |actions|
  {
    if actions != [] {
      StepKeepsInv(s, actions[0]);
      RunKeepsInv(Next(s, actions[0]), actions[1..], s');
    }
  }

  lemma ReachableInv(s: Sys)
    requires Reachable(s)
    ensures Inv(s)
  {
    var s0, actions :| Initial(s0) && Run(s0, actions, s);
    InitialInv(s0);
    RunKeepsInv(s0, actions, s);
  }

  function Owners(calls: map<nat, Call>): set<nat> {
    set t | t in calls && OwnPtr(calls[t]).Some?
  }

  ghost function EntryPtrs(l: Loader): set<int> {
    Image(l.allocations.Keys, k requires k in l.allocations => l.allocations[k].ptr)
  }

  ghost function InFlightPtrs(calls: map<nat, Call>): set<int> {
    Image(Owners(calls), t requires t in Owners(calls) => OwnPtr(calls[t]).value)
  }

  lemma EntriesCounted(s: Sys)
    requires BuffersOwned(s)
    ensures |EntryPtrs(s.loader)| == |s.loader.allocations|
    ensures forall p :: p in EntryPtrs(s.loader) <==> exists k :: Backs(s, k, p)
  {
    assert forall k :: k in s.loader.allocations ==> Backs(s, k, s.loader.allocations[k].ptr);
    ImageSize(s.loader.allocations.Keys, k requires k in s.loader.allocations => s.loader.allocations[k].ptr);
  }

  lemma OwnersCounted(s: Sys)
    requires BuffersOwned(s)
    ensures |InFlightPtrs(s.calls)| == |Owners(s.calls)|
    ensures forall p :: p in InFlightPtrs(s.calls) <==> exists t :: Owns(s, t, p)
  {
    assert forall t :: t in Owners(s.calls) ==> Owns(s, t, OwnPtr(s.calls[t]).value);
    ImageSize(Owners(s.calls), t requires t in Owners(s.calls) => OwnPtr(s.calls[t]).value);
    forall t, p | Owns(s, t, p) ensures p in InFlightPtrs(s.calls) {
      assert t in Owners(s.calls);
    }
  }

  /** In every reachable state, outstanding device buffers are the map entries, plus the
      loads in flight, plus the buffers whose free failed; each of them once. */
  lemma BuffersAreEntriesPlusInFlight(s: Sys)
    requires Reachable(s)
    ensures |s.loader.driver.buffers| == |s.loader.allocations| + |Owners(s.calls)| + |s.leaked|
  {
    ReachableInv(s);
    var entries, flying := EntryPtrs(s.loader), InFlightPtrs(s.calls);
    EntriesCounted(s);
    OwnersCounted(s);
    OwnedApart(s);
    assert |entries + flying + s.leaked| == |entries + flying| + |s.leaked|;
  }

  lemma OwnedApart(s: Sys)
    requires BuffersOwned(s)
    ensures EntryPtrs(s.loader) !! InFlightPtrs(s.calls)
    ensures (EntryPtrs(s.loader) + InFlightPtrs(s.calls)) !! s.leaked
    ensures EntryPtrs(s.loader) + InFlightPtrs(s.calls) + s.leaked == s.loader.driver.buffers
  {
    EntriesCounted(s);
    OwnersCounted(s);
    EntriesAreBuffers(s);
    OwnedAreBuffers(s);
    forall p | p in s.loader.driver.buffers
      ensures p in EntryPtrs(s.loader) + InFlightPtrs(s.calls) + s.leaked
    {
    }
  }

  lemma EntriesAreBuffers(s: Sys)
    requires BuffersOwned(s)
    ensures EntryPtrs(s.loader) <= s.loader.driver.buffers && EntryPtrs(s.loader) !! s.leaked
  {
    EntriesCounted(s);
    forall p | p in EntryPtrs(s.loader) ensures p in s.loader.driver.buffers && p !in s.leaked {
      var k :| Backs(s, k, p);
    }
  }

  lemma OwnedAreBuffers(s: Sys)
    requires BuffersOwned(s)
    ensures InFlightPtrs(s.calls) <= s.loader.driver.buffers && InFlightPtrs(s.calls) !! s.leaked
  {
    OwnersCounted(s);
    forall p | p in InFlightPtrs(s.calls) ensures p in s.loader.driver.buffers && p !in s.leaked {
      var t :| Owns(s, t, p);
    }
  }

  /** While a call holds a session, or a buffer is resident, the driver is open and its
      device's context retained, so the call's own read and free, and the free of an
      unload, find both in place and leave the driver table as it is. */
  lemma CallsFindDriverOpen(s: Sys, t: nat, k: Key, c: DeviceCodes)
    requires Reachable(s)
    requires (t in s.calls && HoldsSession(s.calls[t], k.device)) || k in s.loader.allocations
    ensures DeviceUp(s.loader, k.device)
    ensures ActivateDevice(s.loader.driver, k.device, c) == (s.loader.driver, 0)
  {
    ReachableInv(s);
    if t in s.calls && HoldsSession(s.calls[t], k.device) {
      HolderDeviceUp(s, t, k.device);
    } else {
      assert BufferUp(s.loader.allocations, s.loader.driver, k);
    }
  }

  /** The driver is never closed, and no context given back, under a session or a buffer. */
  lemma NoShutdownUnderUse(s: Sys, a: Action, device: int)
    requires Reachable(s) && Enabled(s, a)
    requires DeviceUp(s.loader, device) && !DeviceUp(Next(s, a).loader, device)
    ensures Holders(Next(s, a).calls, device) == {}
    ensures forall k :: k in Next(s, a).loader.allocations ==> k.device != device
  {
    ReachableInv(s);
    StepKeepsSessions(s, a);
    var s' := Next(s, a);
    assert RefCounted(s'.loader.refs, s'.calls, device);
    assert RefUp(s'.loader.refs, s'.loader.driver, device);
    forall k | k in s'.loader.allocations ensures k.device != device {
      assert BufferUp(s'.loader.allocations, s'.loader.driver, k);
    }
  }

  // ---- A call with no other in between ----------------------------------------------------

  lemma {:induction false} RunThrough(s: Sys, first: seq<Action>, s': Sys, rest: seq<Action>, s'': Sys)
    requires Run(s, first, s') && Run(s', rest, s'')
    ensures Run(s, first + rest, s'')
    decreases |first|
  {
    if first == [] {
      assert first + rest == rest;
    } else {
      RunThrough(Next(s, first[0]), first[1..], s', rest, s'');
      assert (first + rest)[0] == first[0] && (first + rest)[1..] == first[1..] + rest;
    }
  }

  lemma OneStep(s: Sys, a: Action)
    requires Enabled(s, a)
    ensures Run(s, [a], Next(s, a))
  {
    assert Run(Next(s, a), [], Next(s, a));
    assert [a][1..] == [];
  }

  /** What a load does to the system in one go. */
  ghost predicate LoadedInOneGo(s: Sys, s': Sys, k: Key, c: LoadCodes) {
    && s'.calls == s.calls && s'.unloads == s.unloads
    && (s'.loader, s'.loads) == (LoadPersistent(s.loader, k, c).0,
                                 if LoadPersistent(s.loader, k, c).1 then Bump(s.loads, k) else s.loads)
  }

  /** Without other calls in between, the steps of a load come to what the method does in one go:
      the machine of all interleavings and the loader's code agree on it. */
  lemma LoadAlone(s: Sys, t: nat, k: Key, c: LoadCodes) returns (actions: seq<Action>, s': Sys)
    requires t in s.calls && s.calls[t].Idle? && !c.cancelled && c.statOk
    requires c.outcome.LoadDone? ==> c.outcome.ptr != 0 && c.outcome.ptr !in s.loader.driver.buffers
    ensures Run(s, actions, s') && LoadedInOneGo(s, s', k, c)
  {
    var start := StartLoad(t, k);
    var s1 := Next(s, start);
    OneStep(s, start);
    if k in s.loader.allocations {
      return [start], s1;
    }
    var begin := BeginLoad(t, c.begin);
    var s2 := Next(s1, begin);
    OneStep(s1, begin);
    RunThrough(s, [start], s1, [begin], s2);
    BeginLeavesBuffers(s.loader, k.device, c.begin);
    if BeginSession(s.loader, k.device, c.begin).1 != 0 {
      assert s2.calls == s.calls;
      return [start] + [begin], s2;
    }
    var rest;
    rest, s' := ReadAlone(s2, t, k, c);
    assert s'.calls == s.calls;
    RunThrough(s, [start] + [begin], s2, rest, s');
    actions := [start] + [begin] + rest;
  }

  /** From the read to the end of the session. */
  lemma ReadAlone(s: Sys, t: nat, k: Key, c: LoadCodes) returns (actions: seq<Action>, s': Sys)
    requires t in s.calls && s.calls[t] == Reading(k) && k !in s.loader.allocations
    requires c.outcome.LoadDone? ==> c.outcome.ptr != 0 && c.outcome.ptr !in s.loader.driver.buffers
    ensures Run(s, actions, s') && s'.calls == s.calls[t := Idle] && s'.unloads == s.unloads
    ensures var (l, ok) := LoadInSession(s.loader, k, c);
      s'.loader == EndSession(l, k.device, c.shut) && s'.loads == if ok then Bump(s.loads, k) else s.loads
  {
    var read := FinishRead(t, c.device, c.outcome, c.outcome.LoadDone? && c.outcome.total == c.size);
    var s1 := Next(s, read);
    OneStep(s, read);
    var middle := if s1.calls[t].Holding? then [Recheck(t)]
                  else if s1.calls[t].Discarding? then [FreeOwn(t, c.free)] else [];
    var s2 := if s1.calls[t].Holding? then Next(s1, Recheck(t))
              else if s1.calls[t].Discarding? then Next(s1, FreeOwn(t, c.free)) else s1;
    if middle != [] { OneStep(s1, middle[0]); }
    assert s2.calls[t] == Ending(k.device);
    var end := EndLoad(t, c.shut);
    s' := Next(s2, end);
    OneStep(s2, end);
    RunThrough(s1, middle, s2, [end], s');
    RunThrough(s, [read], s1, middle + [end], s');
    actions := [read] + (middle + [end]);
    assert s'.calls == s.calls[t := Idle];
  }

  lemma NoHoldersNoRefs(s: Sys)
    requires SessionsOk(s) && forall d: int :: Holders(s.calls, d) == {}
    ensures s.loader.refs == map[]
  {
    forall d: int ensures d !in s.loader.refs {
      assert RefCounted(s.loader.refs, s.calls, d) && RefPositive(s.loader.refs, d);
    }
  }

  /** The last session that ends with no buffer resident, and the unload that frees the last
      buffer with no session left, close the driver and give every context back. */
  lemma LastUseShutsDown(s: Sys, a: Action)
    requires Reachable(s) && Enabled(s, a) && (a.EndLoad? || a.EndBenchmark? || a.UnloadKey?)
    requires a.UnloadKey? ==> s.loader.allocations != map[]
    requires Next(s, a).loader.allocations == map[] && forall d: int :: Holders(Next(s, a).calls, d) == {}
    ensures var driver := Next(s, a).loader.driver;
      driver.table == [] && (a.shut.closeErr == 0 ==> !driver.open)
    ensures forall device: int :: !DeviceUp(Next(s, a).loader, device)
  {
    ReachableInv(s);
    StepKeepsSessions(s, a);
    NoHoldersNoRefs(Next(s, a));
    match a
    case EndLoad(t, c) => LastEndShutsDown(s.loader, s.calls[t].device, c);
    case EndBenchmark(t, c) => LastEndShutsDown(s.loader, s.calls[t].device, c);
    case UnloadKey(k, f, c) => LastUnloadShutsDown(s.loader, k, f, c); UnloadEffect(s.loader, k, f, c);
  }

  /** The load count of an entry, from the calls that returned. */
  lemma LoadCountIsLoadsMinusUnloads(s: Sys, k: Key)
    requires Reachable(s)
    ensures GetOr(s.loads, k, 0) == GetOr(s.unloads, k, 0) + LoadRefs(s.loader, k)
    ensures k in s.loader.allocations <==> GetOr(s.loads, k, 0) > GetOr(s.unloads, k, 0)
  {
    ReachableInv(s);
    assert AllocOk(s.loader.allocations, k) && CountBalances(s, k);
  }

  /** Nothing leaks as long as each call's free of its own buffer succeeds. */
  lemma {:induction false} NoLeakWhenFreesSucceed(s: Sys, actions: seq<Action>, s': Sys)
    requires Inv(s) && Run(s, actions, s') && s.leaked == {}
    requires forall i :: 0 <= i < |actions| && actions[i].FreeOwn? ==>
                           actions[i].free.push == 0 && actions[i].free.setDevice == 0 && actions[i].free.free == 0
    ensures s'.leaked == {}
    decreases |actions|
  {
    if actions != [] {
      var a := actions[0];
      if a.FreeOwn? {
        HolderDeviceUp(s, a.t, s.calls[a.t].key.device);
      }
      StepKeepsInv(s, a);
      NoLeakWhenFreesSucceed(Next(s, a), actions[1..], s');
    }
  }

  /** In every reachable state the context table is within its bound, lists no device twice, and
      every device in it is retained. */
  lemma TableNeverBreaks(s: Sys)
    requires Reachable(s)
    ensures |s.loader.driver.table| <= TABLE_SIZE
    ensures forall i, j :: 0 <= i < j < |s.loader.driver.table| ==> s.loader.driver.table[i] != s.loader.driver.table[j]
    ensures forall d :: d in s.loader.driver.table ==> d in s.loader.driver.retains
  {
    ReachableInv(s);
    var driver := s.loader.driver;
    forall i, j | 0 <= i < j < |driver.table| ensures driver.table[i] != driver.table[j] {
      assert TableApart(driver.table, i, j);
    }
    forall d | d in driver.table ensures d in driver.retains {
      var i: nat :| i < |driver.table| && driver.table[i] == d;
      assert TableRetained(driver, i);
    }
  }

  // ---- Every retain is given back -------------------------------------------------------

  /** The device lookups of a shutdown in this step work. */
  predicate LookupsWork(a: Action) {
    match a
    case BeginLoad(_, c) => c.shut.lookupFails == {}
    case StartBenchmark(_, _, c) => c.shut.lookupFails == {}
    case EndLoad(_, c) => c.lookupFails == {}
    case EndBenchmark(_, c) => c.lookupFails == {}
    case UnloadKey(_, _, c) => c.lookupFails == {}
    case _ => true
  }

  lemma StepKeepsBalance(s: Sys, a: Action)
    requires Enabled(s, a) && LookupsWork(a) && Balanced(s.loader.driver)
    ensures Balanced(Next(s, a).loader.driver)
  {
    match a
    case BeginLoad(t, c) => BeginKeepsBalance(s.loader, s.calls[t].key.device, c);
    case StartBenchmark(t, d, c) => BeginKeepsBalance(s.loader, d, c);
    case EndLoad(t, c) => EndKeepsBalance(s.loader, s.calls[t].device, c);
    case EndBenchmark(t, c) => EndKeepsBalance(s.loader, s.calls[t].device, c);
    case UnloadKey(k, f, c) => UnloadKeepsBalance(s.loader, k, f, c);
    case FinishRead(t, c, o, _) => ActivateKeepsBalance(s.loader.driver, s.calls[t].key.device, c);
    case FreeOwn(t, f) => ActivateKeepsBalance(s.loader.driver, s.calls[t].key.device, f.device);
    case ActivateOnly(d, c) => ActivateKeepsBalance(s.loader.driver, d, c);
    case _ =>
  }

  /** As long as the lookups of every shutdown work, the retains that are not yet given back
      are exactly one for each device in the table: none is lost, none given back twice. */
  lemma {:induction false} RetainsAreTable(s: Sys, actions: seq<Action>, s': Sys)
    requires Run(s, actions, s') && Balanced(s.loader.driver)
    requires forall i :: 0 <= i < |actions| ==> LookupsWork(actions[i])
    ensures s'.loader.driver.retains == multiset(s'.loader.driver.table)
    decreases |actions|
  {
    if actions != [] {
      StepKeepsBalance(s, actions[0]);
      RetainsAreTable(Next(s, actions[0]), actions[1..], s');
    }
  }
}
