/** The C bridge's global driver state (internal/gpu/gds_linux_bridge.c): whether the
    cuFile driver is open, and the table of retained device contexts. CUDA result codes
    are parameters; 0 is success. */
module CudaBridge {
  const TABLE_SIZE := 128

  /** table: the devices whose primary context is held, in table order.
      retains: primary-context retains not yet released.
      buffers: device memory allocated and not yet freed. */
  datatype Driver = Driver(open: bool, table: seq<int>, retains: multiset<int>, buffers: set<int>)

  const CLOSED := Driver(false, [], multiset{}, {})

  datatype ShutCodes = ShutCodes(lookupFails: set<int>, closeErr: nat)
  datatype DeviceCodes = DeviceCodes(cuGet: nat, cuRetain: nat)
  datatype FreeCodes = FreeCodes(device: DeviceCodes, push: nat, setDevice: nat, free: nat)
  datatype LoadOutcome = LoadFailed(code: int) | LoadDone(ptr: int, total: int, direct: bool)

  ghost predicate ValidDriver(d: Driver) {
    && |d.table| <= TABLE_SIZE
    && (forall i: nat, j: nat :: TableApart(d.table, i, j))
    && (forall i: nat :: TableRetained(d, i))
    && 0 !in d.buffers
  }

  predicate TableApart(table: seq<int>, i: nat, j: nat) {
    i < j < |table| ==> table[i] != table[j]
  }

  predicate TableRetained(d: Driver, i: nat) {
    i < |d.table| ==> d.table[i] in d.retains
  }

  function InitDriver(d: Driver, cuInit: nat, openErr: nat): (Driver, int) {
    if cuInit != 0 then (d, 1000 + cuInit)
    else if d.open then (d, 0)
    else if openErr != 0 then (d, 2000 + openErr)
    else (d.(open := true), 0)
  }

  function ActivateDevice(d: Driver, device: int, c: DeviceCodes): (Driver, int) {
    if !d.open then (d, 2001)
    else if device in d.table then (d, 0)
    else if |d.table| >= TABLE_SIZE then (d, 3011)
    else if c.cuGet != 0 then (d, 1000 + c.cuGet)
    else if c.cuRetain != 0 then (d, 1000 + c.cuRetain)
    else (d.(table := d.table + [device], retains := d.retains + multiset{device}), 0)
  }

  /** Giving back the context of one device needs a lookup of that device. */
  function GivenBack(retains: multiset<int>, device: int, fails: set<int>): multiset<int> {
    if device in fails then retains else retains - multiset{device}
  }

  /** The retains left after giving back, in table order, the first n contexts. */
  function Released(retains: multiset<int>, table: seq<int>, n: nat, fails: set<int>): multiset<int>
    requires n <= |table|
  {
    if n == 0 then retains else GivenBack(Released(retains, table, n - 1, fails), table[n - 1], fails)
  }

  function ShutdownDriver(d: Driver, c: ShutCodes): (Driver, int) {
    var released := d.(table := [], retains := Released(d.retains, d.table, |d.table|, c.lookupFails));
    if d.open && c.closeErr != 0 then (released, 2000 + c.closeErr)
    else (released.(open := false), 0)
  }

  function FreeBuffer(d: Driver, device: int, ptr: int, c: FreeCodes): (Driver, int) {
    if ptr == 0 then (d, 0)
    else
      var (d', rc) := ActivateDevice(d, device, c.device);
      if rc != 0 then (d', rc)
      else if c.push != 0 then (d', 1000 + c.push)
      else if c.setDevice != 0 then (d', 5000 + c.setDevice)
      else if c.free != 0 then (d', 5000 + c.free)
      else (d'.(buffers := d'.buffers - {ptr}), 0)
  }

  /** What gds_load_persistent does to the driver state: it activates the device, and on
      success one new buffer is outstanding. */
  function LoadBuffer(d: Driver, device: int, c: DeviceCodes, o: LoadOutcome): (Driver, LoadOutcome) {
    var (d', rc) := ActivateDevice(d, device, c);
    if rc != 0 then (d', LoadFailed(rc))
    else if o.LoadFailed? then (d', o)
    else (d'.(buffers := d'.buffers + {o.ptr}), o)
  }

  /** One retain for each device of the table from position n on. */
  function RetainsFrom(table: seq<int>, n: nat): multiset<int>
    requires n <= |table|
    decreases |table| - n
  {
    if n == |table| then multiset{} else RetainsFrom(table, n + 1) + multiset{table[n]}
  }

  lemma {:induction false} RetainsOfRest(table: seq<int>, n: nat)
    requires n <= |table|
    ensures RetainsFrom(table, n) == multiset(table[n..])
    decreases |table| - n
  {
    if n < |table| {
      RetainsOfRest(table, n + 1);
      assert table[n..] == [table[n]] + table[n + 1..];
    }
  }

  lemma RetainsOfAll(table: seq<int>)
    ensures RetainsFrom(table, 0) == multiset(table)
  {
    RetainsOfRest(table, 0);
    assert table[0..] == table;
  }

  lemma GiveOne(rest: multiset<int>, device: int)
    ensures GivenBack(rest + multiset{device}, device, {}) == rest
  {
  }

  /** When every retain came from the table, what is left is that of the rest of the table. */
  lemma {:induction false} ReleasedRest(retains: multiset<int>, table: seq<int>, n: nat)
    requires n <= |table| && retains == RetainsFrom(table, 0)
    ensures Released(retains, table, n, {}) == RetainsFrom(table, n)
  {
    if n > 0 {
      ReleasedRest(retains, table, n - 1);
      GiveOne(RetainsFrom(table, n), table[n - 1]);
    }
  }

  /** No operation breaks the table: it never overflows, never holds a device twice, and
      every device in it is retained. */
  lemma ActivateKeepsValid(d: Driver, device: int, c: DeviceCodes)
    requires ValidDriver(d)
    ensures ValidDriver(ActivateDevice(d, device, c).0)
  {
    var d' := ActivateDevice(d, device, c).0;
    forall i: nat, j: nat ensures TableApart(d'.table, i, j) { assert TableApart(d.table, i, j); }
    forall i: nat ensures TableRetained(d', i) { assert TableRetained(d, i); }
  }

  lemma InitKeepsValid(d: Driver, i: nat, o: nat)
    requires ValidDriver(d)
    ensures ValidDriver(InitDriver(d, i, o).0)
  {
    var d' := InitDriver(d, i, o).0;
    forall n: nat ensures TableRetained(d', n) { assert TableRetained(d, n); }
  }

  lemma ShutdownKeepsValid(d: Driver, s: ShutCodes)
    requires ValidDriver(d)
    ensures ValidDriver(ShutdownDriver(d, s).0)
  {
  }

  lemma BuffersKeepValid(d: Driver, buffers: set<int>)
    requires ValidDriver(d) && 0 !in buffers
    ensures ValidDriver(d.(buffers := buffers))
  {
    var d' := d.(buffers := buffers);
    forall i: nat ensures TableRetained(d', i) { assert TableRetained(d, i); }
  }

  lemma FreeAndLoadKeepValid(d: Driver, device: int, ptr: int, f: FreeCodes, l: LoadOutcome)
    requires ValidDriver(d)
    ensures ValidDriver(FreeBuffer(d, device, ptr, f).0)
    ensures (l.LoadDone? ==> l.ptr != 0) ==> ValidDriver(LoadBuffer(d, device, f.device, l).0)
  {
    ActivateKeepsValid(d, device, f.device);
    var d' := ActivateDevice(d, device, f.device).0;
    BuffersKeepValid(d', d'.buffers - {ptr});
    if l.LoadDone? && l.ptr != 0 { BuffersKeepValid(d', d'.buffers + {l.ptr}); }
  }

  /** d' still has everything d has: an open driver stays open, a retained context stays. */
  ghost predicate Covers(d: Driver, d': Driver) {
    && (d.open ==> d'.open)
    && forall device :: device in d.table ==> device in d'.table
  }

  /** Only shutdown takes contexts away or closes the driver. */
  lemma OnlyShutdownTakesAway(d: Driver, device: int, ptr: int, i: nat, o: nat, f: FreeCodes, l: LoadOutcome)
    ensures Covers(d, InitDriver(d, i, o).0)
    ensures Covers(d, ActivateDevice(d, device, f.device).0)
    ensures Covers(d, FreeBuffer(d, device, ptr, f).0)
    ensures Covers(d, LoadBuffer(d, device, f.device, l).0)
  {
    var d' := ActivateDevice(d, device, f.device).0;
    assert Covers(d, d');
  }

  lemma OpeningLeavesBuffers(d: Driver, device: int, i: nat, o: nat, c: DeviceCodes)
    ensures InitDriver(d, i, o).0.buffers == d.buffers
    ensures ActivateDevice(InitDriver(d, i, o).0, device, c).0.buffers == d.buffers
  {
  }

  /** A successful activation leaves the driver open and the device retained. */
  lemma ActivationRetains(d: Driver, device: int, c: DeviceCodes)
    requires ActivateDevice(d, device, c).1 == 0
    ensures ActivateDevice(d, device, c).0.open && device in ActivateDevice(d, device, c).0.table
  {
  }

  /** When every retain came from the table and all lookups work, shutdown gives back
      exactly what activation took. */
  lemma ShutdownUndoesActivations(d: Driver, c: ShutCodes)
    requires d.retains == multiset(d.table) && c.lookupFails == {}
    ensures ShutdownDriver(d, c).0.retains == multiset{}
    ensures ShutdownDriver(d, c).0.table == []
  {
    RetainsOfAll(d.table);
    ReleasedRest(d.retains, d.table, |d.table|);
  }

  /** One retain for every device in the table. */
  ghost predicate Balanced(d: Driver) {
    d.retains == multiset(d.table)
  }

  lemma ActivateKeepsBalance(d: Driver, device: int, c: DeviceCodes)
    requires Balanced(d)
    ensures Balanced(ActivateDevice(d, device, c).0)
  {
    var d' := ActivateDevice(d, device, c).0;
    if d'.table != d.table {
      assert multiset(d'.table) == multiset(d.table) + multiset{device};
    }
  }

  lemma FreeKeepsBalance(d: Driver, device: int, ptr: int, f: FreeCodes)
    requires Balanced(d)
    ensures Balanced(FreeBuffer(d, device, ptr, f).0)
  {
    ActivateKeepsBalance(d, device, f.device);
  }

  lemma ShutdownKeepsBalance(d: Driver, c: ShutCodes)
    requires Balanced(d) && c.lookupFails == {}
    ensures Balanced(ShutdownDriver(d, c).0)
  {
    ShutdownUndoesActivations(d, c);
  }

  /** Of each device in the table one retain goes, unless its lookup fails; no other moves. */
  predicate GivenBackOnce(before: Driver, after: Driver, fails: set<int>, device: int) {
    after.retains[device] ==
    if device in before.table && device !in fails && before.retains[device] > 0 then before.retains[device] - 1
    else before.retains[device]
  }

  function GivenCount(count: nat, device: int, front: seq<int>, fails: set<int>): nat {
    if device in front && device !in fails && count > 0 then count - 1 else count
  }

  lemma FrontStep(table: seq<int>, m: nat, device: int)
    requires m < |table| && forall i: nat, j: nat :: TableApart(table, i, j)
    ensures device in table[..m + 1] <==> device in table[..m] || device == table[m]
    ensures table[m] !in table[..m]
  {
    forall i | 0 <= i < m ensures table[i] != table[m] { assert TableApart(table, i, m); }
    assert table[..m + 1] == table[..m] + [table[m]];
  }

  lemma GivenBackCount(retains: multiset<int>, given: int, device: int, fails: set<int>)
    ensures GivenBack(retains, given, fails)[device] == GivenCount(retains[device], device, [given], fails)
  {
  }

  lemma {:induction false} ReleasedCount(retains: multiset<int>, table: seq<int>, n: nat, fails: set<int>, device: int)
    requires n <= |table| && forall i: nat, j: nat :: TableApart(table, i, j)
    ensures Released(retains, table, n, fails)[device] == GivenCount(retains[device], device, table[..n], fails)
  {
    if n > 0 {
      var m := n - 1;
      ReleasedCount(retains, table, m, fails, device);
      FrontStep(table, m, device);
      GivenBackCount(Released(retains, table, m, fails), table[m], device, fails);
    }
  }

  /** Shutting down gives back each retained context once, those whose lookup fails excepted. */
  lemma ShutdownGivesBack(d: Driver, c: ShutCodes, device: int)
    requires ValidDriver(d)
    ensures GivenBackOnce(d, ShutdownDriver(d, c).0, c.lookupFails, device)
  {
    ReleasedCount(d.retains, d.table, |d.table|, c.lookupFails, device);
    assert d.table[..|d.table|] == d.table;
  }

  /** The file-scope variables of the bridge and the functions over them. */
  class Bridge {
    const ids: array<int>
    const ctxs: array<int>
    var count: nat
    var open: bool
    ghost var retains: multiset<int>
    ghost var buffers: set<int>

    ghost predicate Valid()
      reads this, ids, ctxs
    {
      && ids != ctxs
      && ids.Length == TABLE_SIZE && ctxs.Length == TABLE_SIZE && count <= TABLE_SIZE
      && (forall i :: 0 <= i < count ==> ctxs[i] != 0)
    }

    ghost function View(): Driver
      requires count <= ids.Length
      reads this, ids
    {
      Driver(open, ids[..count], retains, buffers)
    }

    constructor ()
      ensures Valid() && fresh(ids) && fresh(ctxs)
      ensures View() == CLOSED
    {
      ids := new int[TABLE_SIZE];
      ctxs := new int[TABLE_SIZE];
      count, open, retains, buffers := 0, false, multiset{}, {};
    }

    method FindCtx(device: int) returns (idx: int)
      requires Valid()
      ensures -1 <= idx < count
      ensures idx >= 0 ==> ids[idx] == device
      ensures idx < 0 <==> device !in View().table
    {
      var i := 0;
      while i < count
        invariant 0 <= i <= count
        invariant forall j :: 0 <= j < i ==> ids[j] != device
      {
        if ids[i] == device {
          assert View().table[i] == device;
          return i;
        }
        i := i + 1;
      }
      idx := -1;
    }

    method Init(cuInit: nat, openErr: nat) returns (rc: int)
      requires Valid()
      modifies this
      ensures Valid()
      ensures (View(), rc) == InitDriver(old(View()), cuInit, openErr)
      ensures rc == 0 <==> cuInit == 0 && (old(open) || openErr == 0)
      ensures View() == old(View()).(open := old(open) || rc == 0)
      ensures rc == if cuInit != 0 then 1000 + cuInit else if old(open) || openErr == 0 then 0 else 2000 + openErr
    {
      if cuInit != 0 { return 1000 + cuInit; }
      if !open {
        if openErr != 0 { return 2000 + openErr; }
        open := true;
      }
      return 0;
    }

    method Activate(device: int, c: DeviceCodes, handle: int) returns (rc: int, ctx: int)
      requires Valid() && handle != 0
      modifies this, ids, ctxs
      ensures Valid()
      ensures (View(), rc) == ActivateDevice(old(View()), device, c)
      ensures rc == 0 ==> ctx != 0 && device in View().table
      ensures rc == 0 <==>
                old(open) && (device in old(View().table) ||
                              (|old(View().table)| < 128 && c.cuGet == 0 && c.cuRetain == 0))
      ensures rc == 0 && device !in old(View().table) ==>
                View() == old(View()).(table := old(View().table) + [device],
                                       retains := old(retains) + multiset{device})
      ensures rc != 0 || device in old(View().table) ==> View() == old(View())
      ensures !old(open) ==> rc == 2001
      ensures old(open) && device !in old(View().table) && |old(View().table)| == 128 ==> rc == 3011
    {
      ctx := 0;
      if !open { return 2001, 0; }
      var idx := FindCtx(device);
      if idx >= 0 {
        return 0, ctxs[idx];
      }
      if count >= TABLE_SIZE { return 3011, 0; }
      if c.cuGet != 0 { return 1000 + c.cuGet, 0; }
      if c.cuRetain != 0 { return 1000 + c.cuRetain, 0; }
      ghost var before := View();
      ids[count] := device;
      ctxs[count] := handle;
      count := count + 1;
      retains := retains + multiset{device};
      assert View() == ActivateDevice(before, device, c).0 by {
        assert ids[..count] == before.table + [device];
      }
      return 0, handle;
    }

    /** From position i on, the table is as it was and every context is there. */
    ghost predicate Kept(table: seq<int>, i: nat)
      reads ids, ctxs
    {
      && i <= |table| <= ids.Length && |table| <= ctxs.Length
      && forall j :: i <= j < |table| ==> ids[j] == table[j] && ctxs[j] != 0
    }

    /** The loop of gds_shutdown: give back every context in the table. */
    method ReleaseContexts(fails: set<int>)
      requires Valid()
      modifies this`retains, ids, ctxs
      ensures retains == Released(old(retains), old(View().table), count, fails)
    {
      ghost var table := ids[..count];
      for i := 0 to count
        invariant Kept(table, i)
        invariant retains == Released(old(retains), table, i, fails)
      {
        if ctxs[i] != 0 {
          ReleaseContext(i, fails, table);
        }
      }
    }

    /** One round of that loop. */
    method ReleaseContext(i: nat, fails: set<int>, ghost table: seq<int>)
      requires ids != ctxs && i < |table| && Kept(table, i)
      modifies this`retains, ids, ctxs
      ensures Kept(table, i + 1)
      ensures retains == GivenBack(old(retains), table[i], fails)
    {
      if ids[i] !in fails {
        retains := retains - multiset{ids[i]};
      }
      ctxs[i] := 0;
      ids[i] := -1;
    }

    method Shutdown(c: ShutCodes) returns (rc: int)
      requires Valid()
      modifies this, ids, ctxs
      ensures Valid()
      ensures (View(), rc) == ShutdownDriver(old(View()), c)
      ensures View().table == [] && (open <==> old(open) && c.closeErr != 0) && buffers == old(buffers)
      ensures rc == if open then 2000 + c.closeErr else 0
    {
      ReleaseContexts(c.lookupFails);
      count := 0;
      rc := 0;
      if open {
        if c.closeErr != 0 { return 2000 + c.closeErr; }
        open := false;
      }
    }

    method Free(device: int, ptr: int, c: FreeCodes, handle: int) returns (rc: int)
      requires Valid() && handle != 0
      modifies this, ids, ctxs
      ensures Valid()
      ensures (View(), rc) == FreeBuffer(old(View()), device, ptr, c)
      ensures buffers == if rc == 0 && ptr != 0 then old(buffers) - {ptr} else old(buffers)
      ensures old(open) && device in old(View().table) ==>
                (rc == 0 <==> ptr == 0 || (c.push == 0 && c.setDevice == 0 && c.free == 0))
    {
      if ptr == 0 { return 0; }
      var ctx;
      rc, ctx := Activate(device, c.device, handle);
      if rc != 0 { return; }
      if c.push != 0 { return 1000 + c.push; }
      if c.setDevice != 0 { return 5000 + c.setDevice; }
      if c.free != 0 { return 5000 + c.free; }
      buffers := buffers - {ptr};
    }

    method Load(device: int, c: DeviceCodes, o: LoadOutcome, handle: int) returns (r: LoadOutcome)
      requires Valid() && handle != 0
      requires o.LoadDone? ==> o.ptr != 0 && o.ptr !in View().buffers
      modifies this, ids, ctxs
      ensures Valid()
      ensures (View(), r) == LoadBuffer(old(View()), device, c, o)
      ensures buffers == if r.LoadDone? then old(buffers) + {o.ptr} else old(buffers)
      ensures r.LoadDone? ==> r == o
      ensures old(open) && device in old(View().table) ==> r == o
    {
      var rc, ctx := Activate(device, c, handle);
      if rc != 0 { return LoadFailed(rc); }
      if o.LoadDone? {
        buffers := buffers + {o.ptr};
      }
      return o;
    }
  }
}
