/** Any number of GPUAttach calls racing with the GPUUnload of the last allocation
    (internal/app/gpu.go:867-953 and 1050-1151), interleaved at single loader calls. Both
    walk the weight shards in the same order, and that is what decides the race. */
module AttachRace {
  import opened CudaBridge
  import opened LoaderState

  datatype AttachPc = Resolving | At(next: nat) | Undo(left: nat) | Attached | Rejected

  /** One GPUAttach call; it attaches the first `limit` shards. */
  datatype Attacher = Attacher(client: string, limit: nat, pc: AttachPc)

  datatype UnloadPc = Checking | Freeing(next: nat) | Unloaded | Refused(freed: nat)

  /** recorded: the allocation record is still in the store.
      sessions: calls whose session entry is in the attachment map. */
  datatype Race = Race(device: int, shards: seq<string>, loader: Loader, recorded: bool,
                       sessions: set<nat>, unload: UnloadPc, attachers: map<nat, Attacher>)

  datatype Action =
    | Resolve(t: nat)
    | AttachNext(t: nat)
    | UndoNext(t: nat)
    | OpenSession(t: nat)
    | CheckSessions
    | UnloadNext(free: FreeCodes, shut: ShutCodes)
    | FinishUnload

  function ShardKey(s: Race, i: nat): Key
    requires i < |s.shards|
  {
    Key(s.device, s.shards[i])
  }

  ghost predicate WellFormed(s: Race) {
    && |s.shards| > 0
    && (forall i: nat, j: nat :: NamesApart(s.shards, i, j))
    && (forall t: nat :: AttacherOk(s, t))
  }

  predicate NamesApart(shards: seq<string>, i: nat, j: nat) {
    i < |shards| && j < |shards| && i != j ==> shards[i] != shards[j]
  }

  predicate AttacherOk(s: Race, t: nat) {
    t in s.attachers ==> s.attachers[t].client != "" && 1 <= s.attachers[t].limit <= |s.shards|
  }

  /** Every shard is resident, loaded once, and nobody imports it. */
  ghost predicate Initial(s: Race) {
    && WellFormed(s) && s.recorded && s.sessions == {} && s.unload == Checking
    && (forall t :: t in s.attachers ==> s.attachers[t].pc == Resolving)
    && (forall i: nat :: i < |s.shards| ==> Resident(s, i) && Imports(s, i) == 0)
  }

  predicate Resident(s: Race, i: nat)
    requires i < |s.shards|
  {
    ShardKey(s, i) in s.loader.allocations && s.loader.allocations[ShardKey(s, i)].loadRefs == 1
  }

  predicate Gone(s: Race, i: nat)
    requires i < |s.shards|
  {
    ShardKey(s, i) !in s.loader.allocations
  }

  function Imports(s: Race, i: nat): int
    requires i < |s.shards|
  {
    if ShardKey(s, i) in s.loader.allocations then s.loader.allocations[ShardKey(s, i)].importerRefs else 0
  }

  predicate Enabled(s: Race, a: Action) {
    match a
    case Resolve(t) => t in s.attachers && s.attachers[t].pc.Resolving?
    case AttachNext(t) =>
      t in s.attachers && s.attachers[t].pc.At? && s.attachers[t].pc.next < s.attachers[t].limit <= |s.shards|
    case UndoNext(t) => t in s.attachers && s.attachers[t].pc.Undo? && s.attachers[t].pc.left <= |s.shards|
    case OpenSession(t) => t in s.attachers && s.attachers[t].pc.At? && s.attachers[t].pc.next == s.attachers[t].limit
    case CheckSessions => s.unload.Checking?
    case UnloadNext(_, _) => s.unload.Freeing? && s.unload.next < |s.shards|
    case FinishUnload => s.unload.Freeing? && s.unload.next == |s.shards|
  }

  function Moved(s: Race, t: nat, pc: AttachPc): map<nat, Attacher>
    requires t in s.attachers
  {
    s.attachers[t := s.attachers[t].(pc := pc)]
  }

  ghost function Next(s: Race, a: Action): Race
    requires Enabled(s, a)
  {
    match a
    case Resolve(t) => s.(attachers := Moved(s, t, if s.recorded then At(0) else Rejected))
    case AttachNext(t) =>
      var i := s.attachers[t].pc.next;
      var l := Attach(s.loader, ShardKey(s, i), s.attachers[t].client);
      if l.Some? then s.(loader := l.value, attachers := Moved(s, t, At(i + 1)))
      else s.(attachers := Moved(s, t, Undo(i)))
    case UndoNext(t) =>
      var i := s.attachers[t].pc.left;
      if i == 0 then s.(attachers := Moved(s, t, Rejected))
      else s.(loader := Detach(s.loader, ShardKey(s, i - 1), s.attachers[t].client),
              attachers := Moved(s, t, Undo(i - 1)))
    case OpenSession(t) => s.(sessions := s.sessions + {t}, attachers := Moved(s, t, Attached))
    case CheckSessions => s.(unload := if s.sessions == {} then Freeing(0) else Refused(0))
    case UnloadNext(f, c) =>
      var i := s.unload.next;
      var (l, r) := Unload(s.loader, ShardKey(s, i), f, c);
      s.(loader := l, unload := if r.Freed? || r.Retained? then Freeing(i + 1) else Refused(i))
    case FinishUnload => s.(unload := Unloaded, recorded := false)
  }

  ghost predicate Run(s: Race, actions: seq<Action>, s': Race)
    decreases |actions|
  {
    if actions == [] then s == s'
    else Enabled(s, actions[0]) && Run(Next(s, actions[0]), actions[1..], s')
  }

  predicate Started(p: Attacher) {
    p.pc.Attached? || (p.pc.At? && p.pc.next > 0)
  }

  /** No shard has been freed. Whoever has attached anything imports the first shard, so
      the unload cannot get past it. */
  ghost predicate NothingFreed(s: Race) {
    && s.recorded && s.unload in {Checking, Freeing(0), Refused(0)}
    && (forall i: nat :: Whole(s, i))
    && (forall t: nat :: Ahead(s, t))
    && (forall t: nat :: SessionAttached(s, t))
  }

  predicate Whole(s: Race, i: nat) {
    i < |s.shards| ==> Resident(s, i) && Imports(s, i) >= 0 && (Imports(s, i) > 0 ==> Imports(s, 0) > 0)
  }

  predicate Ahead(s: Race, t: nat) {
    t in s.attachers && |s.shards| > 0 ==>
      && !s.attachers[t].pc.Undo? && !s.attachers[t].pc.Rejected?
      && (Started(s.attachers[t]) ==> Imports(s, 0) > 0)
  }

  predicate SessionAttached(s: Race, t: nat) {
    t in s.sessions ==> t in s.attachers && s.attachers[t].pc.Attached?
  }

  function FreedCount(s: Race): nat {
    match s.unload
    case Checking => 0
    case Freeing(i) => i
    case Unloaded => |s.shards|
    case Refused(i) => i
  }

  /** The unload has freed the first shard: nobody has attached anything, nor ever will. */
  ghost predicate UnloadAhead(s: Race) {
    && 1 <= FreedCount(s) <= |s.shards|
    && (s.unload.Unloaded? ==> !s.recorded)
    && s.sessions == {}
    && (forall i: nat :: FreedSoFar(s, i, FreedCount(s)))
    && (forall t: nat :: Behind(s, t))
  }

  /** The first n shards are gone, the others are there and nobody imports them. */
  predicate FreedSoFar(s: Race, i: nat, n: nat) {
    i < |s.shards| ==> if i < n then Gone(s, i) else Resident(s, i) && Imports(s, i) == 0
  }

  predicate Behind(s: Race, t: nat) {
    t in s.attachers ==> s.attachers[t].pc in {Resolving, At(0), Undo(0), Rejected}
  }

  ghost predicate Inv(s: Race) {
    WellFormed(s) && (NothingFreed(s) || UnloadAhead(s))
  }

  // ---- Frames of a step ------------------------------------------------------------------

  lemma StepFrame(s: Race, a: Action)
    requires Enabled(s, a)
    ensures Next(s, a).shards == s.shards && Next(s, a).device == s.device
    ensures Next(s, a).attachers.Keys == s.attachers.Keys
  {
  }

  lemma StepKeepsAttacher(s: Race, a: Action, t: nat)
    requires Enabled(s, a) && t in s.attachers
    ensures t in Next(s, a).attachers
    ensures Next(s, a).attachers[t].client == s.attachers[t].client
    ensures Next(s, a).attachers[t].limit == s.attachers[t].limit
  {
  }

  lemma StepKeepsForm(s: Race, a: Action)
    requires WellFormed(s) && Enabled(s, a)
    ensures WellFormed(Next(s, a))
  {
    StepFrame(s, a);
    forall t: nat ensures AttacherOk(Next(s, a), t) {
      assert AttacherOk(s, t);
      if t in s.attachers { StepKeepsAttacher(s, a, t); }
    }
  }

  predicate SameBuffers(s: Race, s': Race) {
    s'.loader == s.loader && s'.shards == s.shards && s'.device == s.device
  }

  lemma BuffersStayWhole(s: Race, s': Race)
    requires NothingFreed(s) && SameBuffers(s, s')
    ensures forall i: nat :: Whole(s', i)
  {
    forall i: nat ensures Whole(s', i) { assert Whole(s, i); }
  }

  lemma BuffersStayFreed(s: Race, s': Race)
    requires UnloadAhead(s) && SameBuffers(s, s')
    ensures forall i: nat :: FreedSoFar(s', i, FreedCount(s))
  {
    forall i: nat ensures FreedSoFar(s', i, FreedCount(s)) { assert FreedSoFar(s, i, FreedCount(s)); }
  }

  // ---- One step --------------------------------------------------------------------------

  predicate OwnStep(a: Action) {
    a.Resolve? || a.UndoNext? || a.OpenSession?
  }

  lemma AttacherStepAhead(s: Race, a: Action)
    requires WellFormed(s) && NothingFreed(s) && Enabled(s, a) && OwnStep(a)
    ensures NothingFreed(Next(s, a))
  {
    var s' := Next(s, a);
    assert Ahead(s, a.t) && AttacherOk(s, a.t);
    BuffersStayWhole(s, s');
    forall t: nat ensures Ahead(s', t) { assert Ahead(s, t); }
    forall t: nat ensures SessionAttached(s', t) { assert SessionAttached(s, t); }
  }

  lemma AttacherStepBehind(s: Race, a: Action)
    requires WellFormed(s) && UnloadAhead(s) && Enabled(s, a) && OwnStep(a)
    ensures UnloadAhead(Next(s, a))
  {
    var s' := Next(s, a);
    assert Behind(s, a.t) && AttacherOk(s, a.t);
    BuffersStayFreed(s, s');
    forall t: nat ensures Behind(s', t) { assert Behind(s, t); }
  }

  lemma AttacherStepKeepsInv(s: Race, a: Action)
    requires Inv(s) && Enabled(s, a) && OwnStep(a)
    ensures Inv(Next(s, a))
  {
    StepKeepsForm(s, a);
    if NothingFreed(s) { AttacherStepAhead(s, a); } else { AttacherStepBehind(s, a); }
  }

  /** An attach adds one import of shard i and leaves the other shards as they are. */
  lemma AttachImports(s: Race, a: Action, j: nat)
    requires WellFormed(s) && Enabled(s, a) && a.AttachNext? && j < |s.shards|
    requires Resident(s, s.attachers[a.t].pc.next)
    ensures var s', i := Next(s, a), s.attachers[a.t].pc.next;
      && s'.shards == s.shards && s'.attachers[a.t].pc == At(i + 1)
      && (Resident(s', j) <==> Resident(s, j))
      && Imports(s', j) == Imports(s, j) + if i == j then 1 else 0
  {
    assert AttacherOk(s, a.t) && NamesApart(s.shards, s.attachers[a.t].pc.next, j);
  }

  lemma AttachStepAhead(s: Race, a: Action)
    requires WellFormed(s) && NothingFreed(s) && Enabled(s, a) && a.AttachNext?
    ensures NothingFreed(Next(s, a))
  {
    var s' := Next(s, a);
    assert Whole(s, s.attachers[a.t].pc.next) && Whole(s, 0) && Ahead(s, a.t);
    AttachImports(s, a, 0);
    forall j: nat ensures Whole(s', j) {
      assert Whole(s, j);
      if j < |s.shards| { AttachImports(s, a, j); }
    }
    forall t: nat ensures Ahead(s', t) { assert Ahead(s, t); }
    forall t: nat ensures SessionAttached(s', t) { assert SessionAttached(s, t); }
  }

  lemma AttachStepBehind(s: Race, a: Action)
    requires WellFormed(s) && UnloadAhead(s) && Enabled(s, a) && a.AttachNext?
    ensures UnloadAhead(Next(s, a))
  {
    var s' := Next(s, a);
    assert Behind(s, a.t) && FreedSoFar(s, 0, FreedCount(s));
    BuffersStayFreed(s, s');
    forall t: nat ensures Behind(s', t) { assert Behind(s, t); }
  }

  lemma AttachStepKeepsInv(s: Race, a: Action)
    requires Inv(s) && Enabled(s, a) && a.AttachNext?
    ensures Inv(Next(s, a))
  {
    StepKeepsForm(s, a);
    if NothingFreed(s) { AttachStepAhead(s, a); } else { AttachStepBehind(s, a); }
  }

  /** An unload of a shard that is loaded once frees it, or leaves it as it is. */
  lemma UnloadShard(s: Race, a: Action, j: nat)
    requires WellFormed(s) && Enabled(s, a) && a.UnloadNext? && j < |s.shards|
    requires Resident(s, s.unload.next)
    ensures var s', i, r := Next(s, a), s.unload.next,
                            Unload(s.loader, ShardKey(s, s.unload.next), a.free, a.shut).1;
      && s'.shards == s.shards && (r.Freed? ==> Imports(s, i) <= 0) && !r.Retained?
      && if r.Freed? && i == j then Gone(s', j)
         else (Resident(s', j) <==> Resident(s, j)) && (Gone(s', j) <==> Gone(s, j)) && Imports(s', j) == Imports(s, j)
  {
    assert NamesApart(s.shards, s.unload.next, j);
  }

  lemma UnloadStepFrees(s: Race, a: Action)
    requires Inv(s) && Enabled(s, a) && a.UnloadNext?
    requires Unload(s.loader, ShardKey(s, s.unload.next), a.free, a.shut).1.Freed?
    ensures UnloadAhead(Next(s, a))
  {
    var s', i := Next(s, a), s.unload.next;
    if NothingFreed(s) { NobodyImports(s, a); }
    assert NothingFreed(s) || FreedSoFar(s, i, i);
    UnloadShard(s, a, i);
    var n := i + 1;
    forall j: nat ensures FreedSoFar(s', j, n) {
      if NothingFreed(s) { assert Whole(s, j); } else { assert FreedSoFar(s, j, i); }
      if j < |s.shards| { UnloadShard(s, a, j); }
    }
    forall t: nat ensures Behind(s', t) {
      if UnloadAhead(s) { assert Behind(s, t); } else { assert Ahead(s, t); }
    }
  }

  /** When the first shard goes, nobody imported it: so nobody imports any, and no session is
      open. */
  lemma NobodyImports(s: Race, a: Action)
    requires WellFormed(s) && NothingFreed(s) && Enabled(s, a) && a.UnloadNext?
    requires Unload(s.loader, ShardKey(s, s.unload.next), a.free, a.shut).1.Freed?
    ensures s.unload == Freeing(0) && Resident(s, 0) && Imports(s, 0) == 0 && s.sessions == {}
    ensures forall t :: t in s.attachers ==> !Started(s.attachers[t])
  {
    assert Whole(s, 0);
    UnloadShard(s, a, 0);
    forall t | t in s.attachers ensures !Started(s.attachers[t]) { assert Ahead(s, t); }
    forall t: nat ensures t !in s.sessions { assert SessionAttached(s, t) && Ahead(s, t); }
  }

  lemma UnloadStepStays(s: Race, a: Action)
    requires Inv(s) && Enabled(s, a) && a.UnloadNext?
    requires !Unload(s.loader, ShardKey(s, s.unload.next), a.free, a.shut).1.Freed?
    ensures NothingFreed(s) ==> NothingFreed(Next(s, a))
    ensures UnloadAhead(s) ==> UnloadAhead(Next(s, a))
  {
    var s', i := Next(s, a), s.unload.next;
    if NothingFreed(s) {
      assert Whole(s, i) && Whole(s, 0);
      UnloadShard(s, a, 0);
      forall j: nat ensures Whole(s', j) {
        assert Whole(s, j);
        if j < |s.shards| { UnloadShard(s, a, j); }
      }
      forall t: nat ensures Ahead(s', t) { assert Ahead(s, t); }
      forall t: nat ensures SessionAttached(s', t) { assert SessionAttached(s, t); }
    }
    if UnloadAhead(s) {
      assert FreedSoFar(s, i, i);
      UnloadShard(s, a, i);
      forall j: nat ensures FreedSoFar(s', j, i) {
        assert FreedSoFar(s, j, i);
        if j < |s.shards| { UnloadShard(s, a, j); }
      }
      forall t: nat ensures Behind(s', t) { assert Behind(s, t); }
    }
  }

  lemma UnloadStepKeepsInv(s: Race, a: Action)
    requires Inv(s) && Enabled(s, a) && a.UnloadNext?
    ensures Inv(Next(s, a))
  {
    StepKeepsForm(s, a);
    if Unload(s.loader, ShardKey(s, s.unload.next), a.free, a.shut).1.Freed? {
      UnloadStepFrees(s, a);
    } else {
      UnloadStepStays(s, a);
    }
  }

  lemma StepKeepsInv(s: Race, a: Action)
    requires Inv(s) && Enabled(s, a)
    ensures Inv(Next(s, a))
  {
    match a
    case Resolve(_) => AttacherStepKeepsInv(s, a);
    case UndoNext(_) => AttacherStepKeepsInv(s, a);
    case OpenSession(_) => AttacherStepKeepsInv(s, a);
    case AttachNext(_) => AttachStepKeepsInv(s, a);
    case UnloadNext(_, _) => UnloadStepKeepsInv(s, a);
    case _ => UnloadEdgeKeepsInv(s, a);
  }

  lemma UnloadEdgeKeepsInv(s: Race, a: Action)
    requires Inv(s) && Enabled(s, a) && (a.CheckSessions? || a.FinishUnload?)
    ensures Inv(Next(s, a))
  {
    StepKeepsForm(s, a);
    var s' := Next(s, a);
    if NothingFreed(s) {
      BuffersStayWhole(s, s');
      forall t: nat ensures Ahead(s', t) { assert Ahead(s, t); }
      forall t: nat ensures SessionAttached(s', t) { assert SessionAttached(s, t); }
    } else {
      BuffersStayFreed(s, s');
      forall t: nat ensures Behind(s', t) { assert Behind(s, t); }
    }
  }

  lemma InitialInv(s: Race)
    requires Initial(s)
    ensures Inv(s) && NothingFreed(s)
  {
  }

  lemma {:induction false} RunKeepsInv(s: Race, actions: seq<Action>, s': Race)
    requires Inv(s) && Run(s, actions, s')
    ensures Inv(s')
    decreases |actions|
  {
    if actions != [] {
      StepKeepsInv(s, actions[0]);
      RunKeepsInv(Next(s, actions[0]), actions[1..], s');
    }
  }

  /** The race is over the same shards and calls from start to end. */
  lemma {:induction false} RunFrame(s: Race, actions: seq<Action>, s': Race)
    requires Run(s, actions, s')
    ensures s'.shards == s.shards && s'.device == s.device && s'.attachers.Keys == s.attachers.Keys
    decreases |actions|
  {
    if actions != [] {
      StepFrame(s, actions[0]);
      RunFrame(Next(s, actions[0]), actions[1..], s');
    }
  }

  predicate Finished(s: Race) {
    && (s.unload.Unloaded? || s.unload.Refused?)
    && forall t :: t in s.attachers ==> s.attachers[t].pc.Attached? || s.attachers[t].pc.Rejected?
  }

  /** The attaches are all-or-nothing, and they win exactly when the unload frees nothing. */
  lemma AttachesAllOrNothing(s: Race, actions: seq<Action>, s': Race)
    requires Initial(s) && Run(s, actions, s') && Finished(s')
    ensures || (&& (forall t :: t in s'.attachers ==> s'.attachers[t].pc.Attached?)
                && s'.unload == Refused(0)
                && (forall i: nat :: i < |s'.shards| ==> Resident(s', i)))
            || (&& (forall t :: t in s'.attachers ==> s'.attachers[t].pc.Rejected?)
                && FreedCount(s') > 0)
  {
    InitialInv(s);
    RunKeepsInv(s, actions, s');
    if UnloadAhead(s') {
      forall t | t in s'.attachers ensures s'.attachers[t].pc.Rejected? { assert Behind(s', t); }
    } else {
      forall t | t in s'.attachers ensures s'.attachers[t].pc.Attached? { assert Ahead(s', t); }
      forall i: nat | i < |s'.shards| ensures Resident(s', i) { assert Whole(s', i); }
    }
  }

  /** Every free of the run works: an unload that is refused is refused for its importers. */
  ghost predicate FreesWork(s: Race, actions: seq<Action>)
    decreases |actions|
  {
    actions == [] ||
    (Enabled(s, actions[0]) &&
     (actions[0].UnloadNext? ==>
       !Unload(s.loader, ShardKey(s, s.unload.next), actions[0].free, actions[0].shut).1.FreeFailed?) &&
     FreesWork(Next(s, actions[0]), actions[1..]))
  }

  lemma StepNotPartial(s: Race, a: Action)
    requires Inv(s) && Enabled(s, a) && !(s.unload.Refused? && s.unload.freed > 0)
    requires a.UnloadNext? ==>
               !Unload(s.loader, ShardKey(s, s.unload.next), a.free, a.shut).1.FreeFailed?
    ensures !(Next(s, a).unload.Refused? && Next(s, a).unload.freed > 0)
  {
    if a.UnloadNext? {
      var i := s.unload.next;
      if UnloadAhead(s) { assert FreedSoFar(s, i, i); } else { assert Whole(s, i); }
    }
  }

  lemma {:induction false} NoPartialUnload(s: Race, actions: seq<Action>, s': Race)
    requires Inv(s) && Run(s, actions, s') && FreesWork(s, actions)
    requires !(s.unload.Refused? && s.unload.freed > 0)
    ensures !(s'.unload.Refused? && s'.unload.freed > 0)
    decreases |actions|
  {
    if actions != [] {
      StepNotPartial(s, actions[0]);
      StepKeepsInv(s, actions[0]);
      NoPartialUnload(Next(s, actions[0]), actions[1..], s');
    }
  }

  /** No client is about: shards from the unload's position on are resident and imported by
      nobody. */
  ghost predicate Deserted(s: Race) {
    && WellFormed(s) && s.attachers == map[] && s.sessions == {} && !s.unload.Refused?
    && (s.unload.Freeing? ==> s.unload.next <= |s.shards|)
    && forall i: nat :: LeftAlone(s, i)
  }

  predicate LeftAlone(s: Race, i: nat) {
    i < |s.shards| && (s.unload.Checking? || (s.unload.Freeing? && s.unload.next <= i)) ==>
      Resident(s, i) && Imports(s, i) == 0
  }

  lemma StepStaysDeserted(s: Race, a: Action)
    requires Deserted(s) && Enabled(s, a)
    requires a.UnloadNext? ==> !Unload(s.loader, ShardKey(s, s.unload.next), a.free, a.shut).1.FreeFailed?
    ensures Deserted(Next(s, a))
  {
    var s' := Next(s, a);
    if a.UnloadNext? { assert LeftAlone(s, s.unload.next); }
    forall i: nat ensures LeftAlone(s', i) {
      assert LeftAlone(s, i);
      if a.UnloadNext? && i < |s.shards| { assert NamesApart(s.shards, s.unload.next, i); }
    }
    forall t: nat ensures AttacherOk(s', t) { assert AttacherOk(s, t); }
  }

  lemma {:induction false} RunStaysDeserted(s: Race, actions: seq<Action>, s': Race)
    requires Deserted(s) && Run(s, actions, s') && FreesWork(s, actions)
    ensures Deserted(s')
    decreases |actions|
  {
    if actions != [] {
      StepStaysDeserted(s, actions[0]);
      RunStaysDeserted(Next(s, actions[0]), actions[1..], s');
    }
  }

  /** Without a client to stop it, and with frees that work, the unload succeeds. */
  lemma UnloadAloneWins(s: Race, actions: seq<Action>, s': Race)
    requires Initial(s) && s.attachers == map[] && Run(s, actions, s') && FreesWork(s, actions) && Finished(s')
    ensures s'.unload.Unloaded?
  {
    forall i: nat ensures LeftAlone(s, i) {}
    RunStaysDeserted(s, actions, s');
  }

  /** With frees that work, exactly one side wins: the unload succeeds and every attach
      fails, or every attach succeeds and the unload fails having freed nothing. */
  lemma OneSideWins(s: Race, actions: seq<Action>, s': Race)
    requires Initial(s) && Run(s, actions, s') && Finished(s') && FreesWork(s, actions)
    ensures || (s'.unload.Unloaded? && forall t :: t in s'.attachers ==> s'.attachers[t].pc.Rejected?)
            || (s'.unload == Refused(0) && (forall t :: t in s'.attachers ==> s'.attachers[t].pc.Attached?)
                && forall i: nat :: i < |s'.shards| ==> Resident(s', i))
    ensures s'.shards == s.shards && s'.attachers.Keys == s.attachers.Keys
  {
    InitialInv(s);
    RunFrame(s, actions, s');
    AttachesAllOrNothing(s, actions, s');
    NoPartialUnload(s, actions, s');
  }
}
