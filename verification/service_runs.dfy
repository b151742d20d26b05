/** Any number of Ensure, Release, GC, persistent-load and unload calls, with per-model file
    locks, crashes between any two steps, and Recover at start-up. */
module ServiceRuns {
  import opened Prelude
  import opened Records
  import opened Publish
  import opened ModelSteps
  import opened Recovery

  datatype Thread = Idle | Waiting(key: Key, op: Op) | Running(key: Key, local: Local)

  datatype LeaseEvent = Acquire(holder: string) | Drop(holder: string)

  /** locks: which thread holds a model's lock. log: the lease changes stored so far, per
      model, in the order of the locks they were made under. up: Recover has finished. */
  datatype Sys = Sys(models: Models, locks: map<Key, nat>, threads: map<nat, Thread>,
                     log: map<Key, seq<LeaseEvent>>, up: bool)

  datatype Action =
    | Request(t: nat, key: Key, op: Op)
    | Lock(t: nat)
    | GiveUp(t: nat)                    // the wait was cancelled, or GC does not wait
    | Act(t: nat, answer: Answer)
    | Unlock(t: nat)
    | Crash
    | RecoverTo(key: Key, i: nat, now: int)
    | Recovered

  const BLANK := Durable(None, {}, None)

  function At(s: Sys, k: Key): Durable {
    GetOr(s.models, k, BLANK)
  }

  ghost predicate Enabled(s: Sys, a: Action) {
    match a
    case Request(t, _, _) => s.up && t in s.threads && s.threads[t].Idle?
    case Lock(t) => t in s.threads && s.threads[t].Waiting? && s.threads[t].key !in s.locks
    case GiveUp(t) => t in s.threads && s.threads[t].Waiting?
    case Act(t, answer) =>
      && t in s.threads && s.threads[t].Running? && Fits(s.threads[t].local, answer)
      && Step(s.threads[t].local, At(s, s.threads[t].key), answer).Some?
    case Unlock(t) => t in s.threads && s.threads[t].Running? && s.threads[t].local.pc == Done
    case Crash => true
    case RecoverTo(k, i, now) => !s.up && k in s.models && i < |Trace(s.models[k], now)|
    case Recovered => !s.up
  }

  /** The lease change that a successful step stores. */
  function EventOf(l: Local, a: Answer): Option<LeaseEvent> {
    if !a.Ok? || l.op.GcOp? then None
    else match l.pc
      case PutReused => Some(Acquire(l.op.holder))
      case PutResolving => Some(Acquire(l.op.holder))
      case PutLoading => Some(Acquire(l.op.holder))
      case PutRolledBack => Some(Drop(l.op.holder))
      case PutUnloaded => Some(Drop(l.op.holder))
      case PutReleased => Some(Drop(l.op.holder))
      case _ => None
  }

  function Logged(log: map<Key, seq<LeaseEvent>>, k: Key, e: Option<LeaseEvent>): map<Key, seq<LeaseEvent>> {
    if e.Some? then log[k := GetOr(log, k, []) + [e.value]] else log
  }

  ghost function Next(s: Sys, a: Action): Sys
    requires Enabled(s, a)
  {
    match a
    case Request(t, k, op) => s.(threads := s.threads[t := Waiting(k, op)])
    case Lock(t) =>
      var w := s.threads[t];
      s.(locks := s.locks[w.key := t], threads := s.threads[t := Running(w.key, Start(w.op))])
    case GiveUp(t) => s.(threads := s.threads[t := Idle])
    case Act(t, answer) =>
      var k, l := s.threads[t].key, s.threads[t].local;
      var (l', d') := Step(l, At(s, k), answer).value;
      s.(models := s.models[k := d'], threads := s.threads[t := Running(k, l')],
         log := Logged(s.log, k, EventOf(l, answer)))
    case Unlock(t) => s.(locks := s.locks - {s.threads[t].key}, threads := s.threads[t := Idle])
    case Crash => s.(locks := map[], threads := map t | t in s.threads :: Idle, up := false)
    case RecoverTo(k, i, now) => s.(models := s.models[k := Trace(s.models[k], now)[i]])
    case Recovered => s.(up := true)
  }

  ghost predicate Run(s: Sys, actions: seq<Action>, s': Sys)
    decreases |actions|
  {
    if actions == [] then s == s'
    else Enabled(s, actions[0]) && Run(Next(s, actions[0]), actions[1..], s')
  }

  ghost predicate Initial(s: Sys) {
    s.models == map[] && s.locks == map[] && s.log == map[] && forall t :: t in s.threads ==> s.threads[t] == Idle
  }

  ghost predicate Reachable(s: Sys) {
    exists s0, actions :: Initial(s0) && Run(s0, actions, s)
  }

  // ---- Lease events -------------------------------------------------------------------------

  function HoldersOf(leases: seq<Lease>): seq<string> {
    if leases == [] then [] else HoldersOf(leases[..|leases| - 1]) + [leases[|leases| - 1].holder]
  }

  function Dropped(holders: seq<string>, holder: string): seq<string> {
    if holders == [] then []
    else
      var rest := Dropped(holders[..|holders| - 1], holder);
      if holders[|holders| - 1] == holder then rest else rest + [holders[|holders| - 1]]
  }

  /** The list of holders after one event: the meaning of acquire and release. */
  function Applied(holders: seq<string>, e: LeaseEvent): seq<string> {
    match e
    case Acquire(h) => if h == "" || h in holders then holders else holders + [h]
    case Drop(h) => if h == "" then holders else Dropped(holders, h)
  }

  function Fold(log: seq<LeaseEvent>): seq<string> {
    if log == [] then [] else Applied(Fold(log[..|log| - 1]), log[|log| - 1])
  }

  lemma {:induction false} HoldersMember(leases: seq<Lease>, h: string)
    ensures h in HoldersOf(leases) <==> HasHolder(leases, h)
  {
    if leases != [] {
      var n := |leases| - 1;
      HoldersMember(leases[..n], h);
      assert leases == leases[..n] + [leases[n]];
      HasHolderAppend(leases[..n], leases[n], h);
    }
  }

  lemma {:induction false} HoldersWithout(leases: seq<Lease>, h: string)
    ensures HoldersOf(Records.Without(leases, h)) == Dropped(HoldersOf(leases), h)
  {
    if leases != [] {
      var n := |leases| - 1;
      HoldersWithout(leases[..n], h);
      var rest := Records.Without(leases[..n], h);
      assert (rest + [leases[n]])[..|rest|] == rest;
      var holders := HoldersOf(leases[..n]);
      assert (holders + [leases[n].holder])[..|holders|] == holders;
    }
  }

  lemma AcquireIsApplied(r: Record, h: string, now: int)
    ensures HoldersOf(Acquired(r, h, now).leases) == Applied(HoldersOf(r.leases), Acquire(h))
  {
    HoldersMember(r.leases, h);
    assert (r.leases + [Lease(h, now)])[..|r.leases|] == r.leases;
  }

  lemma ReleaseIsApplied(r: Record, h: string)
    ensures HoldersOf(ReleasedBy(r, h).leases) == Applied(HoldersOf(r.leases), Drop(h))
  {
    HoldersWithout(r.leases, h);
  }

  // ---- What an operation knows while it holds the lock --------------------------------------

  ghost predicate LocalOk(l: Local, d: Durable) {
    InProgram(l.op, l.pc) && Grounded(l.staged) && LeasesKnown(l, d) && PublishKnown(l, d)
  }

  /** The copy of the record is in step with the store: it differs by exactly the lease event
      that the next put stores. */
  predicate LeasesKnown(l: Local, d: Durable)
    requires InProgram(l.op, l.pc)
  {
    match l.pc
    case Begin => true
    case Done => true
    case PutReused => HoldersOf(l.rec.leases) == Applied(HoldersOf(StoredLeases(d)), Acquire(l.op.holder))
    case PutResolving => HoldersOf(l.rec.leases) == Applied(HoldersOf(StoredLeases(d)), Acquire(l.op.holder))
    case PutLoading => HoldersOf(l.rec.leases) == Applied(HoldersOf(StoredLeases(d)), Acquire(l.op.holder))
    case RemoveForRelease => HoldersOf(l.rec.leases) == Applied(HoldersOf(StoredLeases(d)), Drop(l.op.holder))
    case PutReleased => HoldersOf(l.rec.leases) == Applied(HoldersOf(StoredLeases(d)), Drop(l.op.holder))
    case RemoveForGc => l.rec.leases == [] == StoredLeases(d)
    case PutCollected => l.rec.leases == [] == StoredLeases(d)
    case _ => l.rec.leases == StoredLeases(d)
  }

  /** Past the rename the tree is in place, and verifies if the staged one did. */
  ghost predicate PublishKnown(l: Local, d: Durable) {
    && (l.pc == PutDownloading || l.pc == Download ==> l.staged.metadata.Some? && l.staged.shardsDir)
    && (l.pc in {AppendWritten, AppendVerified, PutVerifying, PutPublishing, WriteMetadata, WriteReady, Pc.Publish} ==>
          l.staged.shardsDir)
    && (l.pc == AppendCommitted || l.pc == PutReady || (l.pc == DropJournal && l.op.EnsureOp?) ==>
          d.tree.Some? && (FullOk(l.staged) ==> FullOk(d.tree.value)))
  }

  ghost predicate TreeOk(d: Durable) {
    d.tree.Some? ==> Grounded(d.tree.value)
  }

  lemma BeginKeepsLocal(l: Local, d: Durable, a: Answer)
    requires LocalOk(l, d) && l.pc == Begin && BeginStep(l, d, a).Some?
    ensures BeginStep(l, d, a).value.1 == d
    ensures LocalOk(BeginStep(l, d, a).value.0, d)
  {
    var l' := BeginStep(l, d, a).value.0;
    assert l'.staged == l.staged && l'.op == l.op;
    if a.Ok? {
      BeginKnowsLeases(l, d, a);
    }
  }

  lemma BeginKnowsLeases(l: Local, d: Durable, a: Answer)
    requires l.pc == Begin && a.Ok?
    ensures var l' := BeginStep(l, d, a).value.0; InProgram(l'.op, l'.pc) && LeasesKnown(l', d)
  {
    match l.op
    case EnsureOp(_) => BeginEnsureKnows(l, d, a);
    case ReleaseOp(_, _) => BeginReleaseKnows(l, d, a);
    case LoadOp(_) => BeginLoadKnows(l, d, a);
    case UnloadOp(_) => BeginOtherKnows(l, d, a);
    case GcOp(_) => BeginOtherKnows(l, d, a);
  }

  lemma BeginReleaseKnows(l: Local, d: Durable, a: Answer)
    requires l.pc == Begin && a.Ok? && l.op.ReleaseOp?
    ensures var l' := BeginStep(l, d, a).value.0; InProgram(l'.op, l'.pc) && LeasesKnown(l', d)
  {
    if d.record.Some? {
      ReleaseIsApplied(d.record.value, l.op.holder);
      AfterReleaseLeases(d.record.value, l.op.holder, l.op.cleanup, a.now);
    }
  }

  lemma AfterReleaseLeases(r: Record, holder: string, cleanup: bool, now: int)
    ensures AfterRelease(r, holder, cleanup, now).leases == ReleasedBy(r, holder).leases
  {
  }

  lemma BeginLoadKnows(l: Local, d: Durable, a: Answer)
    requires l.pc == Begin && a.Ok? && l.op.LoadOp?
    ensures var l' := BeginStep(l, d, a).value.0; InProgram(l'.op, l'.pc) && LeasesKnown(l', d)
  {
    if d.record.Some? { AcquireIsApplied(d.record.value, l.op.holder, a.now); }
  }

  lemma BeginOtherKnows(l: Local, d: Durable, a: Answer)
    requires l.pc == Begin && a.Ok? && (l.op.UnloadOp? || l.op.GcOp?)
    ensures var l' := BeginStep(l, d, a).value.0; InProgram(l'.op, l'.pc) && LeasesKnown(l', d)
  {
  }

  lemma BeginEnsureKnows(l: Local, d: Durable, a: Answer)
    requires l.pc == Begin && a.Ok? && l.op.EnsureOp?
    ensures var l' := BeginStep(l, d, a).value.0; InProgram(l'.op, l'.pc) && LeasesKnown(l', d)
  {
    var h := l.op.holder;
    if IsPublished(d) {
      AcquireIsApplied(d.record.value, h, a.now);
      assert BeginStep(l, d, a).value.0.rec == Reused(d.record.value, h, a.now);
    } else {
      AcquireIsApplied(NO_RECORD.(leases := StoredLeases(d), updatedAt := a.now), h, a.now);
      assert BeginStep(l, d, a).value.0.rec == Resolved(d, h, a.now);
    }
  }

  /** Ensure's puts on the way to the rename. */
  lemma PutsKeepLocal(l: Local, d: Durable, a: Answer)
    requires LocalOk(l, d) && TreeOk(d) && EnsureStep(l, d, a).Some?
    requires l.pc in {PutReused, PutResolving, PutDownloading, PutVerifying, PutPublishing}
    ensures var (l', d') := EnsureStep(l, d, a).value; LocalOk(l', d') && TreeOk(d')
  {
  }

  /** The puts that end it. */
  lemma LastPutsKeepLocal(l: Local, d: Durable, a: Answer)
    requires LocalOk(l, d) && TreeOk(d) && EnsureStep(l, d, a).Some? && l.pc in {PutReady, PutFailed}
    ensures var (l', d') := EnsureStep(l, d, a).value; LocalOk(l', d') && TreeOk(d')
  {
  }

  /** Ensure's journal appends, with the two files it writes just before. */
  lemma AppendsKeepLocal(l: Local, d: Durable, a: Answer)
    requires LocalOk(l, d) && TreeOk(d) && EnsureStep(l, d, a).Some?
    requires l.pc in {AppendStarted, AppendWritten, AppendVerified, WriteMetadata, WriteReady, AppendCommitted}
    ensures var (l', d') := EnsureStep(l, d, a).value; LocalOk(l', d') && TreeOk(d')
  {
  }

  /** Staging, downloading and the rename. */
  lemma StagingKeepsLocal(l: Local, d: Durable, a: Answer)
    requires LocalOk(l, d) && TreeOk(d) && Fits(l, a) && EnsureStep(l, d, a).Some?
    requires l.pc in {Fetch, Download, Pc.Publish, DropJournal}
    ensures var (l', d') := EnsureStep(l, d, a).value; LocalOk(l', d') && TreeOk(d')
  {
  }

  lemma EnsureKeepsLocal(l: Local, d: Durable, a: Answer)
    requires LocalOk(l, d) && TreeOk(d) && Fits(l, a) && EnsureStep(l, d, a).Some?
    requires l.op.EnsureOp? || l.pc == DropJournal
    ensures var (l', d') := EnsureStep(l, d, a).value; LocalOk(l', d') && TreeOk(d')
  {
    if l.pc in {Fetch, Download, Pc.Publish, DropJournal} {
      StagingKeepsLocal(l, d, a);
    } else if l.pc in {AppendStarted, AppendWritten, AppendVerified, WriteMetadata, WriteReady, AppendCommitted} {
      AppendsKeepLocal(l, d, a);
    } else if l.pc in {PutReady, PutFailed} {
      LastPutsKeepLocal(l, d, a);
    } else {
      PutsKeepLocal(l, d, a);
    }
  }

  lemma RemovalKeepsLocal(l: Local, d: Durable, a: Answer)
    requires LocalOk(l, d) && TreeOk(d) && OtherStep(l, d, a).Some? && (l.pc == RemoveForRelease || l.pc == RemoveForGc)
    ensures var (l', d') := OtherStep(l, d, a).value; LocalOk(l', d') && TreeOk(d')
  {
    if a.Remove? { RemovalKeepsGrounded(d.tree.value, a.entry); }
  }

  /** The puts of Release and GC, and the shard loops in between. */
  lemma OtherPutKeepsLocal(l: Local, d: Durable, a: Answer)
    requires LocalOk(l, d) && TreeOk(d) && OtherStep(l, d, a).Some?
    requires l.pc in {PutReleased, PutCollected, PutLoading, LoadShards, UnloadShards}
    ensures var (l', d') := OtherStep(l, d, a).value; LocalOk(l', d') && TreeOk(d')
  {
  }

  /** The puts that give a lease back. */
  lemma LeasePutKeepsLocal(l: Local, d: Durable, a: Answer)
    requires LocalOk(l, d) && TreeOk(d) && OtherStep(l, d, a).Some? && l.pc in {PutRolledBack, PutUnloaded}
    ensures var (l', d') := OtherStep(l, d, a).value; LocalOk(l', d') && TreeOk(d')
  {
  }

  lemma OtherKeepsLocal(l: Local, d: Durable, a: Answer)
    requires LocalOk(l, d) && TreeOk(d) && OtherStep(l, d, a).Some? && !l.op.EnsureOp? && l.pc != DropJournal
    ensures var (l', d') := OtherStep(l, d, a).value; LocalOk(l', d') && TreeOk(d')
  {
    if l.pc == RemoveForRelease || l.pc == RemoveForGc {
      RemovalKeepsLocal(l, d, a);
    } else if l.pc == PutRolledBack || l.pc == PutUnloaded {
      LeasePutKeepsLocal(l, d, a);
    } else {
      OtherPutKeepsLocal(l, d, a);
    }
  }

  /** The stored holders follow the event of a step. */
  ghost predicate Logs(l: Local, d: Durable, a: Answer, d': Durable) {
    var before, e := HoldersOf(StoredLeases(d)), EventOf(l, a);
    HoldersOf(StoredLeases(d')) == if e.Some? then Applied(before, e.value) else before
  }

  lemma EnsureLogs(l: Local, d: Durable, a: Answer)
    requires LocalOk(l, d) && EnsureStep(l, d, a).Some? && (l.op.EnsureOp? || l.pc == DropJournal)
    ensures Logs(l, d, a, EnsureStep(l, d, a).value.1)
  {
    if l.pc in {PutReused, PutResolving, PutDownloading, PutVerifying, PutPublishing, PutReady, PutFailed} {
      EnsurePutLogs(l, d, a);
    } else {
      EnsureRestLogs(l, d, a);
    }
  }

  lemma EnsurePutLogs(l: Local, d: Durable, a: Answer)
    requires LocalOk(l, d) && EnsureStep(l, d, a).Some?
    requires l.pc in {PutReused, PutResolving, PutDownloading, PutVerifying, PutPublishing, PutReady, PutFailed}
    ensures Logs(l, d, a, EnsureStep(l, d, a).value.1)
  {
  }

  lemma EnsureRestLogs(l: Local, d: Durable, a: Answer)
    requires EnsureStep(l, d, a).Some? && InProgram(l.op, l.pc) && (l.op.EnsureOp? || l.pc == DropJournal)
    requires l.pc !in {PutReused, PutResolving, PutDownloading, PutVerifying, PutPublishing, PutReady, PutFailed}
    ensures Logs(l, d, a, EnsureStep(l, d, a).value.1)
  {
    assert EnsureStep(l, d, a).value.1.record == d.record;
    assert EventOf(l, a).None?;
  }

  lemma OtherLogs(l: Local, d: Durable, a: Answer)
    requires LocalOk(l, d) && OtherStep(l, d, a).Some? && !l.op.EnsureOp?
    ensures Logs(l, d, a, OtherStep(l, d, a).value.1)
  {
    if a.Ok? && (l.pc == PutRolledBack || l.pc == PutUnloaded) {
      ReleaseIsApplied(l.rec, l.op.holder);
    }
  }

  /** Storing and logging agree. */
  lemma StepFollowsEvent(l: Local, d: Durable, a: Answer)
    requires LocalOk(l, d) && Step(l, d, a).Some?
    ensures Logs(l, d, a, Step(l, d, a).value.1)
  {
    if l.pc == Begin {
      BeginKeepsLocal(l, d, a);
    } else if l.op.EnsureOp? || l.pc == DropJournal {
      EnsureLogs(l, d, a);
    } else {
      OtherLogs(l, d, a);
    }
  }

  // ---- The invariant ------------------------------------------------------------------------

  predicate Holds(s: Sys, t: nat, k: Key) {
    t in s.threads && s.threads[t].Running? && s.threads[t].key == k
  }

  /** A held lock belongs to a thread that runs an operation on the model. */
  ghost predicate LockOk(s: Sys, k: Key) {
    k in s.locks ==> Holds(s, s.locks[k], k)
  }

  /** A running thread holds its model's lock, after Recover has finished, and knows what it
      must about the durable state. */
  ghost predicate ThreadOk(s: Sys, t: nat) {
    && (t in s.threads && !s.threads[t].Idle? ==> s.up)
    && (t in s.threads && s.threads[t].Running? ==>
          var k := s.threads[t].key;
          k in s.locks && s.locks[k] == t && LocalOk(s.threads[t].local, At(s, k)))
  }

  ghost predicate ModelOk(s: Sys, k: Key) {
    TreeOk(At(s, k)) && HoldersOf(StoredLeases(At(s, k))) == Fold(GetOr(s.log, k, []))
  }

  ghost predicate Inv(s: Sys) {
    && (forall k: Key :: LockOk(s, k))
    && (forall t: nat :: ThreadOk(s, t))
    && (forall k: Key :: ModelOk(s, k))
  }

  lemma {:induction false} FoldStep(log: seq<LeaseEvent>, e: LeaseEvent)
    ensures Fold(log + [e]) == Applied(Fold(log), e)
  {
    assert (log + [e])[..|log|] == log;
  }

  /** What a step does to the model it works on. */
  lemma ActEffect(s: Sys, a: Action)
    requires Inv(s) && Enabled(s, a) && a.Act?
    ensures ModelOk(Next(s, a), s.threads[a.t].key) && ThreadOk(Next(s, a), a.t)
  {
    var k, l := s.threads[a.t].key, s.threads[a.t].local;
    var d := At(s, k);
    assert ThreadOk(s, a.t) && ModelOk(s, k);
    StepFollowsEvent(l, d, a.answer);
    if EventOf(l, a.answer).Some? { FoldStep(GetOr(s.log, k, []), EventOf(l, a.answer).value); }
    if l.pc == Begin {
      BeginKeepsLocal(l, d, a.answer);
    } else if l.op.EnsureOp? || l.pc == DropJournal {
      EnsureKeepsLocal(l, d, a.answer);
    } else {
      OtherKeepsLocal(l, d, a.answer);
    }
  }

  /** Other threads and models. */
  lemma ActElsewhere(s: Sys, a: Action, t: nat, k: Key)
    requires Inv(s) && Enabled(s, a) && a.Act?
    ensures LockOk(Next(s, a), k)
    ensures t != a.t ==> ThreadOk(Next(s, a), t)
    ensures k != s.threads[a.t].key ==> ModelOk(Next(s, a), k)
  {
    assert LockOk(s, k) && ModelOk(s, k) && ThreadOk(s, t) && ThreadOk(s, a.t);
  }

  lemma ActKeepsInv(s: Sys, a: Action)
    requires Inv(s) && Enabled(s, a) && a.Act?
    ensures Inv(Next(s, a))
  {
    ActEffect(s, a);
    forall k: Key ensures LockOk(Next(s, a), k) { ActElsewhere(s, a, a.t, k); }
    forall k: Key ensures ModelOk(Next(s, a), k) { ActElsewhere(s, a, a.t, k); }
    forall t: nat ensures ThreadOk(Next(s, a), t) { ActElsewhere(s, a, t, s.threads[a.t].key); }
  }

  /** Waiting, and giving up. */
  lemma WaitKeepsInv(s: Sys, a: Action)
    requires Inv(s) && Enabled(s, a) && (a.Request? || a.GiveUp?)
    ensures Inv(Next(s, a))
  {
    var s' := Next(s, a);
    forall k: Key ensures LockOk(s', k) { assert LockOk(s, k); }
    forall k: Key ensures ModelOk(s', k) { assert ModelOk(s, k); }
    forall t: nat ensures ThreadOk(s', t) { assert ThreadOk(s, t); }
  }

  /** A free lock is taken. */
  lemma LockKeepsInv(s: Sys, a: Action)
    requires Inv(s) && Enabled(s, a) && a.Lock?
    ensures Inv(Next(s, a))
  {
    var s' := Next(s, a);
    assert ThreadOk(s, a.t);
    forall k: Key ensures LockOk(s', k) { assert LockOk(s, k); }
    forall k: Key ensures ModelOk(s', k) { assert ModelOk(s, k); }
    forall t: nat ensures ThreadOk(s', t) { assert ThreadOk(s, t); }
  }

  /** A lock is given back. */
  lemma UnlockKeepsInv(s: Sys, a: Action)
    requires Inv(s) && Enabled(s, a) && a.Unlock?
    ensures Inv(Next(s, a))
  {
    var s' := Next(s, a);
    assert ThreadOk(s, a.t);
    forall k: Key ensures LockOk(s', k) { assert LockOk(s, k); }
    forall k: Key ensures ModelOk(s', k) { assert ModelOk(s, k); }
    forall t: nat ensures ThreadOk(s', t) { assert ThreadOk(s, t); }
  }

  /** A crash lets go of every lock; Recover runs before any operation is let in again. */
  lemma RestartKeepsInv(s: Sys, a: Action)
    requires Inv(s) && Enabled(s, a) && (a.Crash? || a.RecoverTo? || a.Recovered?)
    ensures Inv(Next(s, a))
  {
    var s' := Next(s, a);
    if a.RecoverTo? { RecoverKeepsLeases(s.models[a.key], a.i, a.now); }
    forall k: Key ensures LockOk(s', k) { assert LockOk(s, k); }
    forall k: Key ensures ModelOk(s', k) { assert ModelOk(s, k); }
    forall t: nat ensures ThreadOk(s', t) { assert ThreadOk(s, t); }
  }

  lemma StepKeepsInv(s: Sys, a: Action)
    requires Inv(s) && Enabled(s, a)
    ensures Inv(Next(s, a))
  {
    if a.Act? {
      ActKeepsInv(s, a);
    } else if a.Crash? || a.RecoverTo? || a.Recovered? {
      RestartKeepsInv(s, a);
    } else if a.Lock? {
      LockKeepsInv(s, a);
    } else if a.Unlock? {
      UnlockKeepsInv(s, a);
    } else {
      WaitKeepsInv(s, a);
    }
  }

  lemma {:induction false} RunKeepsInv(s: Sys, actions: seq<Action>, s': Sys)
    requires Inv(s) && Run(s, actions, s')
    ensures Inv(s')
    decreases |actions|
  {
    if actions != [] {
      StepKeepsInv(s, actions[0]);
      RunKeepsInv(Next(s, actions[0]), actions[1..], s');
    }
  }

  lemma ReachableInv(s: Sys)
    requires Reachable(s)
    ensures Inv(s)
  {
    var s0, actions :| Initial(s0) && Run(s0, actions, s);
    RunKeepsInv(s0, actions, s);
  }

  // ---- Results ------------------------------------------------------------------------------

  /** However calls interleave and wherever they crash, also midway through a removal, the
      size-only check and the full digest check agree on every final path. */
  lemma ChecksAgreeEverywhere(s: Sys, k: Key)
    requires Reachable(s) && At(s, k).tree.Some?
    ensures QuickOk(At(s, k).tree.value) <==> FullOk(At(s, k).tree.value)
  {
    ReachableInv(s);
    assert ModelOk(s, k);
    QuickIsFull(At(s, k).tree.value);
  }

  /** Two operations never run on one model at a time. */
  lemma MutualExclusion(s: Sys, t: nat, u: nat, k: Key)
    requires Reachable(s) && Holds(s, t, k) && Holds(s, u, k)
    ensures t == u
  {
    ReachableInv(s);
    assert ThreadOk(s, t) && ThreadOk(s, u);
  }

  /** No lease is lost: the stored holders of a model are the effect of its acquires and
      releases, in the order of the locks they were stored under. */
  lemma LeaseListIsEffect(s: Sys, k: Key)
    requires Reachable(s)
    ensures HoldersOf(StoredLeases(At(s, k))) == Fold(GetOr(s.log, k, []))
  {
    ReachableInv(s);
    assert ModelOk(s, k);
  }

  /** From the moment GC starts to remove a tree until it has stored RELEASED, the model has
      no lease. */
  lemma GcOnlyUnleased(s: Sys, t: nat, k: Key)
    requires Reachable(s) && Holds(s, t, k)
    requires s.threads[t].local.pc == RemoveForGc || s.threads[t].local.pc == PutCollected
    ensures StoredLeases(At(s, k)) == [] && Fold(GetOr(s.log, k, [])) == []
  {
    ReachableInv(s);
    assert ThreadOk(s, t) && ModelOk(s, k);
  }

  /** What one step may do to the tree: put the whole staged one in place, take one entry of
      it away, or take the bare directory. */
  ghost predicate TreeMoves(l: Local, d: Durable, d': Durable) {
    || d'.tree == d.tree
    || (l.op.EnsureOp? && l.pc == Pc.Publish && d.tree == None && d'.tree == Some(l.staged))
    || ((l.op.ReleaseOp? || l.op.GcOp?) && d.tree.Some? && Bare(d.tree.value) && d'.tree == None)
    || ((l.op.ReleaseOp? || l.op.GcOp?) && d.tree.Some? && d'.tree.Some? && Shrunk(d.tree.value, d'.tree.value))
  }

  predicate OneLess(t: Tree, t': Tree, e: Entry) {
    CanRemove(t, e) && t' == Publish.Without(t, e)
  }

  ghost predicate Shrunk(t: Tree, t': Tree) {
    exists e :: OneLess(t, t', e)
  }

  lemma EnsureMovesTree(l: Local, d: Durable, a: Answer)
    requires EnsureStep(l, d, a).Some? && (l.op.EnsureOp? || l.pc == DropJournal)
    requires InProgram(l.op, l.pc)
    ensures TreeMoves(l, d, EnsureStep(l, d, a).value.1)
  {
  }

  lemma OtherMovesTree(l: Local, d: Durable, a: Answer)
    requires InProgram(l.op, l.pc) && OtherStep(l, d, a).Some? && !l.op.EnsureOp?
    ensures TreeMoves(l, d, OtherStep(l, d, a).value.1)
  {
    if a.Remove? && (l.pc == RemoveForRelease || l.pc == RemoveForGc) {
      assert OneLess(d.tree.value, OtherStep(l, d, a).value.1.tree.value, a.entry);
    }
  }

  lemma StepMovesTree(l: Local, d: Durable, a: Answer)
    requires Step(l, d, a).Some?
    ensures TreeMoves(l, d, Step(l, d, a).value.1)
  {
    if l.pc == Begin {
      assert BeginStep(l, d, a).value.1 == d;
    } else if l.op.EnsureOp? || l.pc == DropJournal {
      EnsureMovesTree(l, d, a);
    } else {
      OtherMovesTree(l, d, a);
    }
  }

  /** A tree appears only whole, by the rename of a staged one; after that it only shrinks,
      under a lock, until it is gone. */
  lemma TreesOnlyShrink(s: Sys, a: Action, k: Key)
    requires Reachable(s) && Enabled(s, a) && At(Next(s, a), k).tree != At(s, k).tree
    ensures a.Act? && Holds(s, a.t, k) && k in s.locks && s.locks[k] == a.t
    ensures TreeMoves(s.threads[a.t].local, At(s, k), At(Next(s, a), k))
  {
    if a.RecoverTo? { RecoverKeepsLeases(s.models[a.key], a.i, a.now); }
    ReachableInv(s);
    assert ThreadOk(s, a.t);
    StepMovesTree(s.threads[a.t].local, At(s, k), a.answer);
  }

  /** Every step a method of the service class takes while it runs is one this machine takes:
      what holds of all runs here holds of that code, wherever it is interrupted. */
  lemma CodeStepsAreSteps(s: Sys, t: nat, k: Key, from: Stage, to: Stage)
    requires Holds(s, t, k) && s.threads[t].local == from.local && At(s, k) == from.durable && Follows(from, to)
    ensures exists answer :: Enabled(s, Act(t, answer)) && Moved(s, Next(s, Act(t, answer)), t, k, to)
  {
    var a :| Fits(from.local, a) && Step(from.local, from.durable, a) == Some((to.local, to.durable));
    assert Enabled(s, Act(t, a)) && Moved(s, Next(s, Act(t, a)), t, k, to);
  }

  ghost predicate Moved(s: Sys, s': Sys, t: nat, k: Key, to: Stage) {
    && Holds(s', t, k) && s'.threads[t].local == to.local && At(s', k) == to.durable
    && (forall j :: j != k ==> At(s', j) == At(s, j))
    && s'.locks == s.locks
    && (forall u :: u in s.threads && u != t ==> u in s'.threads && s'.threads[u] == s.threads[u])
  }

  lemma ReadyPut(l: Local, d: Durable, now: int)
    requires l.op.EnsureOp? && l.pc == PutReady
    ensures Step(l, d, Ok(now)).Some?
    ensures Step(l, d, Ok(now)).value.1 == Store(d, Published(l.rec, MetadataBytes(l.staged)), now)
  {
  }

  /** Ensure stores READY only over a tree in place, and if what it staged would verify, the
      tree at the final path does. */
  lemma EnsureStoresVerified(s: Sys, t: nat, k: Key, now: int)
    requires Reachable(s) && Holds(s, t, k) && s.threads[t].local.pc == PutReady
    requires FullOk(s.threads[t].local.staged)
    ensures Enabled(s, Act(t, Ok(now)))
    ensures IsPublished(At(Next(s, Act(t, Ok(now))), k))
  {
    ReachableInv(s);
    assert ThreadOk(s, t);
    ReadyPut(s.threads[t].local, At(s, k), now);
    assert PublishKnown(s.threads[t].local, At(s, k));
  }

  /** Start-up after a crash anywhere, also inside earlier recoveries: once Recover has got
      through, every READY record's tree passes the full digest verification, no marker is
      left, and every model has the leases that its acquires and releases left it. */
  lemma StartUpVerifies(s: Sys, runs: seq<Models>, k: Key)
    requires Reachable(s) && CrashingRuns(runs) && runs[0] == s.models && k in s.models
    ensures k in runs[|runs| - 1]
    ensures var d := runs[|runs| - 1][k];
      && (d.record.Some? ==> d.journal == {})
      && (d.record.Some? && d.record.value.status == Ready ==>
            d.record.value.hasPath && d.tree.Some? && FullOk(d.tree.value))
      && HoldersOf(StoredLeases(d)) == Fold(GetOr(s.log, k, []))
  {
    ReachableInv(s);
    assert ModelOk(s, k);
    RecoveredReadyIsVerified(runs, k);
    CrashesDoNotMatter(runs, k, 0);
  }
}
