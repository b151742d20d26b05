/** The attachment map of the service against the importer counts of the loader
    (internal/app/gpu.go:1050-1351), in every interleaving of attach, detach, expiry, load
    and unload at single loader calls. */
module Attachments {
  import opened Prelude
  import opened CudaBridge
  import opened LoaderState
  import opened Sessions

  /** One importer count of one client on one buffer. */
  datatype Import = Import(key: Key, client: string)

  datatype Worker =
    | Idle
    | Attaching(session: SessionKey, plan: seq<Import>, next: nat)
    | Undoing(plan: seq<Import>, left: nat)
    | Detaching(pending: seq<Import>)

  /** sessions: what each entry of the attachment map still has to give back.
      lost: counts that nobody will give back any more, because their session entry was
      overwritten or the detach that held them was cancelled. */
  datatype State = State(loader: Loader, sessions: map<SessionKey, seq<Import>>,
                         workers: map<nat, Worker>, lost: seq<Import>)

  datatype Action =
    | StartAttach(t: nat, session: SessionKey, paths: seq<string>)
    | AttachNext(t: nat)
    | FailAttach(t: nat)                     // an attach whose context was cancelled
    | UndoNext(t: nat)
    | OpenSession(t: nat)
    | Collect(t: nat, session: SessionKey)   // detach, or expiry, takes the entry out of the map
    | DetachNext(t: nat)
    | CancelDetach(t: nat)
    | Load(key: Key, ptr: int, bytes: int, direct: bool)
    | UnloadKey(key: Key, free: FreeCodes, shut: ShutCodes)

  function Plan(session: SessionKey, paths: seq<string>): seq<Import> {
    seq(|paths|, i requires 0 <= i < |paths| => Import(Key(session.device, paths[i]), session.client))
  }

  predicate Enabled(s: State, a: Action) {
    match a
    case StartAttach(t, k, _) => t in s.workers && s.workers[t].Idle? && k.client != ""
    case AttachNext(t) => t in s.workers && s.workers[t].Attaching? && s.workers[t].next < |s.workers[t].plan|
    case FailAttach(t) => t in s.workers && s.workers[t].Attaching? && s.workers[t].next < |s.workers[t].plan|
    case UndoNext(t) => t in s.workers && s.workers[t].Undoing? && s.workers[t].left <= |s.workers[t].plan|
    case OpenSession(t) => t in s.workers && s.workers[t].Attaching? && s.workers[t].next == |s.workers[t].plan|
    case Collect(t, k) => t in s.workers && k in s.sessions && (s.workers[t].Idle? || s.workers[t].Detaching?)
    case DetachNext(t) => t in s.workers && s.workers[t].Detaching?
    case CancelDetach(t) => t in s.workers && s.workers[t].Detaching?
    case _ => true
  }

  ghost function Next(s: State, a: Action): State
    requires Enabled(s, a)
  {
    match a
    case StartAttach(t, k, paths) => s.(workers := s.workers[t := Attaching(k, Plan(k, paths), 0)])
    case AttachNext(t) =>
      var w := s.workers[t];
      var l := Attach(s.loader, w.plan[w.next].key, w.plan[w.next].client);
      if l.Some? then s.(loader := l.value, workers := s.workers[t := w.(next := w.next + 1)])
      else s.(workers := s.workers[t := Undoing(w.plan, w.next)])
    case FailAttach(t) => s.(workers := s.workers[t := Undoing(s.workers[t].plan, s.workers[t].next)])
    case UndoNext(t) =>
      var w := s.workers[t];
      if w.left == 0 then s.(workers := s.workers[t := Idle])
      else
        var i := w.plan[w.left - 1];
        s.(loader := Detach(s.loader, i.key, i.client), workers := s.workers[t := w.(left := w.left - 1)])
    case OpenSession(t) =>
      var w := s.workers[t];
      s.(sessions := s.sessions[w.session := w.plan], workers := s.workers[t := Idle],
         lost := s.lost + GetOr(s.sessions, w.session, []))
    case Collect(t, k) =>
      var pending := if s.workers[t].Detaching? then s.workers[t].pending else [];
      s.(sessions := s.sessions - {k}, workers := s.workers[t := Detaching(pending + s.sessions[k])])
    case DetachNext(t) =>
      var w := s.workers[t];
      if w.pending == [] then s.(workers := s.workers[t := Idle])
      else s.(loader := Detach(s.loader, w.pending[0].key, w.pending[0].client),
              workers := s.workers[t := Detaching(w.pending[1..])])
    case CancelDetach(t) =>
      s.(workers := s.workers[t := Idle], lost := s.lost + s.workers[t].pending)
    case Load(k, ptr, bytes, direct) => s.(loader := Settle(s.loader, k, ptr, bytes, direct))
    case UnloadKey(k, f, c) => s.(loader := Unload(s.loader, k, f, c).0)
  }

  ghost predicate Run(s: State, actions: seq<Action>, s': State)
    decreases |actions|
  {
    if actions == [] then s == s'
    else Enabled(s, actions[0]) && Run(Next(s, actions[0]), actions[1..], s')
  }

  ghost predicate Initial(s: State) {
    && ValidLoader(s.loader)
    && (forall k, c :: ImporterCount(s.loader, k, c) == 0)
    && s.sessions == map[] && s.lost == []
    && forall t :: t in s.workers ==> s.workers[t].Idle?
  }

  // ---- Who answers for an importer count ----------------------------------------------

  /** The counts a worker has taken and not yet given back. */
  function Progress(w: Worker): seq<Import> {
    match w
    case Idle => []
    case Attaching(_, plan, next) => if next <= |plan| then plan[..next] else plan
    case Undoing(plan, left) => if left <= |plan| then plan[..left] else plan
    case Detaching(pending) => pending
  }

  ghost function SessionWeights(m: map<SessionKey, seq<Import>>, i: Import): map<SessionKey, nat> {
    map k | k in m :: Occurs(m[k], i)
  }

  ghost function WorkerWeights(m: map<nat, Worker>, i: Import): map<nat, nat> {
    map t | t in m :: Occurs(Progress(m[t]), i)
  }

  ghost function InSessions(m: map<SessionKey, seq<Import>>, i: Import): nat {
    Sum(SessionWeights(m, i))
  }

  ghost function InWorkers(m: map<nat, Worker>, i: Import): nat {
    Sum(WorkerWeights(m, i))
  }

  ghost function Claims(s: State, i: Import): nat {
    InSessions(s.sessions, i) + InWorkers(s.workers, i) + Occurs(s.lost, i)
  }

  ghost predicate CountAgrees(s: State, i: Import) {
    ImporterCount(s.loader, i.key, i.client) == Claims(s, i)
  }

  ghost predicate CountsAgree(s: State) {
    forall i: Import :: CountAgrees(s, i)
  }

  predicate WorkerNamedAt(s: State, t: nat) {
    t in s.workers ==> WorkerNamed(s.workers[t])
  }

  predicate SessionNamedAt(s: State, k: SessionKey) {
    k in s.sessions ==> Named(s.sessions[k])
  }

  ghost predicate PlansNamed(s: State) {
    && (forall t: nat :: WorkerNamedAt(s, t))
    && (forall k: SessionKey :: SessionNamedAt(s, k))
  }

  predicate WorkerNamed(w: Worker) {
    match w
    case Idle => true
    case Attaching(_, plan, next) => Named(plan) && next <= |plan|
    case Undoing(plan, left) => Named(plan) && left <= |plan|
    case Detaching(pending) => Named(pending)
  }

  predicate Named(s: seq<Import>) {
    forall j :: 0 <= j < |s| ==> s[j].client != ""
  }

  ghost predicate Inv(s: State) {
    ValidLoader(s.loader) && CountsAgree(s) && PlansNamed(s)
  }

  lemma WorkerUpdate(m: map<nat, Worker>, t: nat, w: Worker, i: Import)
    requires t in m
    ensures InWorkers(m[t := w], i) + Occurs(Progress(m[t]), i) == InWorkers(m, i) + Occurs(Progress(w), i)
  {
    assert WorkerWeights(m[t := w], i) == WorkerWeights(m, i)[t := Occurs(Progress(w), i)];
    SumUpdate(WorkerWeights(m, i), t, Occurs(Progress(w), i));
  }

  lemma SessionUpdate(m: map<SessionKey, seq<Import>>, k: SessionKey, plan: seq<Import>, i: Import)
    ensures InSessions(m[k := plan], i) + Occurs(GetOr(m, k, []), i) == InSessions(m, i) + Occurs(plan, i)
  {
    assert SessionWeights(m[k := plan], i) == SessionWeights(m, i)[k := Occurs(plan, i)];
    SumUpdate(SessionWeights(m, i), k, Occurs(plan, i));
  }

  lemma SessionRemove(m: map<SessionKey, seq<Import>>, k: SessionKey, i: Import)
    requires k in m
    ensures InSessions(m - {k}, i) + Occurs(m[k], i) == InSessions(m, i)
  {
    assert SessionWeights(m - {k}, i) == SessionWeights(m, i) - {k};
    SumRemove(SessionWeights(m, i), k);
  }

  lemma AttachCount(l: Loader, k: Key, client: string, i: Import)
    requires Attach(l, k, client).Some?
    ensures ImporterCount(Attach(l, k, client).value, i.key, i.client)
         == ImporterCount(l, i.key, i.client) + if i == Import(k, client) then 1 else 0
  {
  }

  /** A detach takes one count back, unless there is none to take. */
  lemma DetachCount(l: Loader, k: Key, client: string, i: Import)
    requires client != ""
    ensures var before := ImporterCount(l, i.key, i.client);
      ImporterCount(Detach(l, k, client), i.key, i.client)
      == if i == Import(k, client) && before > 0 then before - 1 else before
  {
  }

  /** Unloading only ever removes entries nobody imports. */
  lemma UnloadCount(l: Loader, k: Key, f: FreeCodes, c: ShutCodes, i: Import)
    requires ValidLoader(l)
    ensures ImporterCount(Unload(l, k, f, c).0, i.key, i.client) == ImporterCount(l, i.key, i.client)
  {
    UnloadEffect(l, k, f, c);
    if k in l.allocations && Unload(l, k, f, c).1.Freed? {
      assert AllocOk(l.allocations, k);
      SumZero(l.allocations[k].importers);
    }
  }

  lemma StepKeepsCount(s: State, a: Action, i: Import)
    requires Inv(s) && Enabled(s, a)
    ensures CountAgrees(Next(s, a), i)
  {
    assert CountAgrees(s, i);
    match a
    case AttachNext(t) => AttachStepCount(s, a, i);
    case UndoNext(t) => assert WorkerNamedAt(s, t); UndoStepCount(s, a, i);
    case DetachNext(t) => assert WorkerNamedAt(s, t); DetachStepCount(s, a, i);
    case UnloadKey(k, f, c) => UnloadCount(s.loader, k, f, c, i);
    case Load(_, _, _, _) =>
    case _ => HandOverKeepsClaims(s, a, i);
  }

  /** Opening a session, collecting one and cancelling a detach hand counts over from one
      owner to another. */
  lemma HandOverKeepsClaims(s: State, a: Action, i: Import)
    requires Enabled(s, a)
    requires a.StartAttach? || a.FailAttach? || a.OpenSession? || a.Collect? || a.CancelDetach?
    ensures Claims(Next(s, a), i) == Claims(s, i) && Next(s, a).loader == s.loader
  {
    if a.OpenSession? {
      OpenKeepsClaims(s, a, i);
    } else if a.Collect? {
      CollectKeepsClaims(s, a, i);
    } else {
      WorkerUpdate(s.workers, a.t, Next(s, a).workers[a.t], i);
      OccursAppend(s.lost, Progress(s.workers[a.t]), i);
    }
  }

  lemma OpenKeepsClaims(s: State, a: Action, i: Import)
    requires Enabled(s, a) && a.OpenSession?
    ensures Claims(Next(s, a), i) == Claims(s, i)
  {
    var w := s.workers[a.t];
    WorkerUpdate(s.workers, a.t, Idle, i);
    assert w.plan[..w.next] == w.plan;
    SessionUpdate(s.sessions, w.session, w.plan, i);
    OccursAppend(s.lost, GetOr(s.sessions, w.session, []), i);
  }

  lemma CollectKeepsClaims(s: State, a: Action, i: Import)
    requires Enabled(s, a) && a.Collect?
    ensures Claims(Next(s, a), i) == Claims(s, i)
  {
    WorkerUpdate(s.workers, a.t, Next(s, a).workers[a.t], i);
    SessionRemove(s.sessions, a.session, i);
    OccursAppend(Progress(s.workers[a.t]), s.sessions[a.session], i);
  }

  lemma AttachStepCount(s: State, a: Action, i: Import)
    requires CountAgrees(s, i) && Enabled(s, a) && a.AttachNext?
    ensures CountAgrees(Next(s, a), i)
  {
    var w := s.workers[a.t];
    WorkerUpdate(s.workers, a.t, Next(s, a).workers[a.t], i);
    if Attach(s.loader, w.plan[w.next].key, w.plan[w.next].client).Some? {
      OccursPrefix(w.plan, w.next, i);
      AttachCount(s.loader, w.plan[w.next].key, w.plan[w.next].client, i);
    }
  }

  lemma UndoStepCount(s: State, a: Action, i: Import)
    requires CountAgrees(s, i) && Enabled(s, a) && a.UndoNext? && WorkerNamed(s.workers[a.t])
    ensures CountAgrees(Next(s, a), i)
  {
    var w := s.workers[a.t];
    WorkerUpdate(s.workers, a.t, Next(s, a).workers[a.t], i);
    if w.left > 0 {
      DetachCount(s.loader, w.plan[w.left - 1].key, w.plan[w.left - 1].client, i);
      OccursPrefix(w.plan, w.left - 1, i);
    }
  }

  lemma DetachStepCount(s: State, a: Action, i: Import)
    requires CountAgrees(s, i) && Enabled(s, a) && a.DetachNext? && WorkerNamed(s.workers[a.t])
    ensures CountAgrees(Next(s, a), i)
  {
    var pending := s.workers[a.t].pending;
    WorkerUpdate(s.workers, a.t, Next(s, a).workers[a.t], i);
    if pending != [] {
      DetachCount(s.loader, pending[0].key, pending[0].client, i);
      OccursFirst(pending, i);
    }
  }

  lemma StepKeepsNamed(s: State, a: Action)
    requires PlansNamed(s) && Enabled(s, a)
    ensures PlansNamed(Next(s, a))
  {
    var s' := Next(s, a);
    if a.Collect? { assert SessionNamedAt(s, a.session); }
    if !a.Load? && !a.UnloadKey? { assert WorkerNamedAt(s, a.t); }
    forall t: nat ensures WorkerNamedAt(s', t) { assert WorkerNamedAt(s, t); }
    forall k: SessionKey ensures SessionNamedAt(s', k) { assert SessionNamedAt(s, k); }
  }

  lemma StepKeepsValid(s: State, a: Action)
    requires ValidLoader(s.loader) && Enabled(s, a)
    ensures ValidLoader(Next(s, a).loader)
  {
    match a
    case AttachNext(t) =>
      var i := s.workers[t].plan[s.workers[t].next];
      ImportsKeepValid(s.loader, i.key, i.client);
    case UndoNext(t) =>
      if s.workers[t].left > 0 {
        var i := s.workers[t].plan[s.workers[t].left - 1];
        ImportsKeepValid(s.loader, i.key, i.client);
      }
    case DetachNext(t) =>
      if s.workers[t].pending != [] {
        ImportsKeepValid(s.loader, s.workers[t].pending[0].key, s.workers[t].pending[0].client);
      }
    case Load(k, p, b, d) => LoadsKeepValid(s.loader, k, p, b, d);
    case UnloadKey(k, f, c) => UnloadKeepsValid(s.loader, k, f, c);
    case _ =>
  }

  lemma StepKeepsInv(s: State, a: Action)
    requires Inv(s) && Enabled(s, a)
    ensures Inv(Next(s, a))
  {
    StepKeepsValid(s, a);
    StepKeepsNamed(s, a);
    forall i: Import ensures CountAgrees(Next(s, a), i) { StepKeepsCount(s, a, i); }
  }

  lemma InitialInv(s: State)
    requires Initial(s)
    ensures Inv(s)
  {
    forall i: Import ensures CountAgrees(s, i) {
      SumZero(SessionWeights(s.sessions, i));
      SumZero(WorkerWeights(s.workers, i));
    }
  }

  lemma {:induction false} RunKeepsInv(s: State, actions: seq<Action>, s': State)
    requires Inv(s) && Run(s, actions, s')
    ensures Inv(s')
    decreases |actions|
  {
    if actions != [] {
      StepKeepsInv(s, actions[0]);
      RunKeepsInv(Next(s, actions[0]), actions[1..], s');
    }
  }

  /** After any run, the loader's count for a client on a shard is what its session entries
      hold, plus pending detaches and the progress of attaches in flight, plus what was
      lost; and importerRefs is the sum over all clients. */
  lemma ImporterCountsExplained(s: State, actions: seq<Action>, s': State, i: Import)
    requires Initial(s) && Run(s, actions, s')
    ensures ImporterCount(s'.loader, i.key, i.client)
         == InSessions(s'.sessions, i) + InWorkers(s'.workers, i) + Occurs(s'.lost, i)
    ensures i.key in s'.loader.allocations ==>
              s'.loader.allocations[i.key].importerRefs == Sum(s'.loader.allocations[i.key].importers)
  {
    InitialInv(s);
    RunKeepsInv(s, actions, s');
    assert CountAgrees(s', i);
    assert AllocOk(s'.loader.allocations, i.key);
  }

  // ---- Without re-attach and without cancelled detaches nothing is lost ----------------

  /** A client opens one session at a time, and its detaches run to the end. */
  predicate Disciplined(s: State, a: Action) {
    && (a.StartAttach? ==>
          a.session !in s.sessions &&
          forall t :: t in s.workers && s.workers[t].Attaching? ==> s.workers[t].session != a.session)
    && !a.CancelDetach?
  }

  ghost predicate DisciplinedRun(s: State, actions: seq<Action>)
    decreases |actions|
  {
    actions == [] ||
    (Enabled(s, actions[0]) && Disciplined(s, actions[0]) && DisciplinedRun(Next(s, actions[0]), actions[1..]))
  }

  predicate NotYetOpen(s: State, t: nat) {
    t in s.workers && s.workers[t].Attaching? ==> s.workers[t].session !in s.sessions
  }

  predicate ApartAttaches(s: State, t: nat, u: nat) {
    t in s.workers && u in s.workers && t != u && s.workers[t].Attaching? && s.workers[u].Attaching?
    ==> s.workers[t].session != s.workers[u].session
  }

  ghost predicate OneAttachEach(s: State) {
    && (forall t: nat :: NotYetOpen(s, t))
    && (forall t: nat, u: nat :: ApartAttaches(s, t, u))
  }

  lemma StepKeepsOneAttach(s: State, a: Action)
    requires OneAttachEach(s) && Enabled(s, a) && Disciplined(s, a)
    ensures OneAttachEach(Next(s, a))
  {
    var s' := Next(s, a);
    forall t: nat ensures NotYetOpen(s', t) {
      assert NotYetOpen(s, t);
      if a.OpenSession? { assert ApartAttaches(s, t, a.t); }
    }
    forall t: nat, u: nat ensures ApartAttaches(s', t, u) { assert ApartAttaches(s, t, u); }
  }

  lemma {:induction false} NothingLost(s: State, actions: seq<Action>, s': State)
    requires Run(s, actions, s') && DisciplinedRun(s, actions)
    requires OneAttachEach(s) && s.lost == []
    ensures s'.lost == []
    decreases |actions|
  {
    if actions != [] {
      if actions[0].OpenSession? { assert NotYetOpen(s, actions[0].t); }
      StepKeepsOneAttach(s, actions[0]);
      NothingLost(Next(s, actions[0]), actions[1..], s');
    }
  }

  /** A step after which some count will never be given back: a session entry that still holds
      imports is overwritten, or a detach is cancelled with imports pending. */
  predicate Loses(s: State, a: Action)
    requires Enabled(s, a)
  {
    || (a.OpenSession? && GetOr(s.sessions, s.workers[a.t].session, []) != [])
    || (a.CancelDetach? && s.workers[a.t].pending != [])
  }

  ghost predicate LosslessRun(s: State, actions: seq<Action>)
    decreases |actions|
  {
    actions == [] ||
    (Enabled(s, actions[0]) && !Loses(s, actions[0]) && LosslessRun(Next(s, actions[0]), actions[1..]))
  }

  lemma {:induction false} LostOnlyGrows(s: State, actions: seq<Action>, s': State)
    requires Run(s, actions, s')
    ensures s.lost <= s'.lost
    decreases |actions|
  {
    if actions != [] { LostOnlyGrows(Next(s, actions[0]), actions[1..], s'); }
  }

  lemma {:induction false} LostGrowsWhen(s: State, actions: seq<Action>, s': State)
    requires Run(s, actions, s')
    ensures s'.lost == s.lost <==> LosslessRun(s, actions)
    decreases |actions|
  {
    if actions != [] {
      var s1 := Next(s, actions[0]);
      LostOnlyGrows(s1, actions[1..], s');
      assert s.lost <= s1.lost;
      assert s1.lost == s.lost <==> !Loses(s, actions[0]);
      if Loses(s, actions[0]) {
        assert |s'.lost| > |s.lost|;
      } else {
        LostGrowsWhen(s1, actions[1..], s');
      }
    }
  }

  /** The loader's count is what the session entries hold, plus pending detaches and the
      progress of attaches in flight. */
  ghost predicate Answered(s: State, i: Import) {
    ImporterCount(s.loader, i.key, i.client) == InSessions(s.sessions, i) + InWorkers(s.workers, i)
  }

  /** After a run from the start every importer count is answered for exactly when no step of
      the run overwrote a session that held imports or cancelled a detach with some pending. */
  lemma LostExactlyWhen(s: State, actions: seq<Action>, s': State)
    requires Initial(s) && Run(s, actions, s')
    ensures (forall i: Import :: Answered(s', i)) <==> LosslessRun(s, actions)
  {
    LostGrowsWhen(s, actions, s');
    forall i: Import ensures Answered(s', i) <==> i !in s'.lost {
      ImporterCountsExplained(s, actions, s', i);
      OccursMember(s'.lost, i);
    }
    if s'.lost != [] {
      assert s'.lost[0] in s'.lost;
      assert !Answered(s', s'.lost[0]);
    }
  }

  /** A shard that a live session holds is never freed. */
  lemma NoFreeUnderSession(s: State, actions: seq<Action>, s': State, k: SessionKey, i: Import,
                           f: FreeCodes, c: ShutCodes)
    requires Initial(s) && Run(s, actions, s')
    requires k in s'.sessions && Occurs(s'.sessions[k], i) > 0
    ensures i.key in s'.loader.allocations
    ensures !Unload(s'.loader, i.key, f, c).1.Freed?
  {
    ImporterCountsExplained(s, actions, s', i);
    SumBounds(SessionWeights(s'.sessions, i), k);
    var a := s'.loader.allocations[i.key];
    SumBounds(a.importers, i.client);
  }

  // ---- A call with no other in between --------------------------------------------------------

  predicate CountGrew(s: State, s': State, more: seq<Import>, i: Import) {
    ImporterCount(s'.loader, i.key, i.client) == ImporterCount(s.loader, i.key, i.client) + Occurs(more, i)
  }

  ghost predicate CountsGrew(s: State, s': State, more: seq<Import>) {
    forall i: Import :: CountGrew(s, s', more, i)
  }

  predicate AllResident(l: Loader, plan: seq<Import>) {
    forall i :: i in plan ==> i.key in l.allocations && i.client != ""
  }

  lemma PlanResident(l: Loader, session: SessionKey, paths: seq<string>)
    requires session.client != "" && forall p :: p in paths ==> Key(session.device, p) in l.allocations
    ensures AllResident(l, Plan(session, paths))
  {
    forall i | i in Plan(session, paths) ensures i.key in l.allocations && i.client != "" {
      var n :| 0 <= n < |paths| && Plan(session, paths)[n] == i;
      assert paths[n] in paths;
    }
  }

  /** An attach of resident shards that nobody disturbs ends with its session open and one more
      count on each, and undoing it takes exactly those back. */
  lemma AttachAlone(s: State, t: nat, session: SessionKey, paths: seq<string>)
    returns (actions: seq<Action>, s': State)
    requires t in s.workers && s.workers[t] == Idle && session.client != ""
    requires forall p :: p in paths ==> Key(session.device, p) in s.loader.allocations
    ensures Run(s, actions, s') && s'.workers == s.workers
    ensures s'.sessions == s.sessions[session := Plan(session, paths)]
    ensures CountsGrew(s, s', Plan(session, paths))
  {
    var start := StartAttach(t, session, paths);
    var s1 := Next(s, start);
    PlanResident(s.loader, session, paths);
    var rest;
    rest, s' := AttachRest(s1, t);
    actions := [start] + rest;
    assert actions[1..] == rest;
    assert Plan(session, paths)[0..] == Plan(session, paths);
    assert s'.workers == s.workers;
    forall i: Import ensures CountGrew(s, s', Plan(session, paths), i) {
      assert CountGrew(s1, s', Plan(session, paths), i);
    }
  }

  lemma {:induction false} AttachRest(s: State, t: nat) returns (actions: seq<Action>, s': State)
    requires t in s.workers && s.workers[t].Attaching? && s.workers[t].next <= |s.workers[t].plan|
    requires AllResident(s.loader, s.workers[t].plan)
    ensures Run(s, actions, s') && s'.workers == s.workers[t := Idle]
    ensures s'.sessions == s.sessions[s.workers[t].session := s.workers[t].plan]
    ensures CountsGrew(s, s', s.workers[t].plan[s.workers[t].next..])
    decreases |s.workers[t].plan| - s.workers[t].next
  {
    var w := s.workers[t];
    if w.next == |w.plan| {
      var open := OpenSession(t);
      actions, s' := [open], Next(s, open);
      assert [open][1..] == [] && Run(s', [], s');
      assert w.plan[w.next..] == [];
      return;
    }
    var step := AttachNext(t);
    var s1 := Next(s, step);
    assert w.plan[w.next] in w.plan;
    var rest;
    rest, s' := AttachRest(s1, t);
    actions := [step] + rest;
    assert actions[1..] == rest;
    assert s'.workers == s.workers[t := Idle];
    forall i: Import ensures CountGrew(s, s', w.plan[w.next..], i) {
      assert CountGrew(s1, s', w.plan[w.next + 1..], i);
      AttachCount(s.loader, w.plan[w.next].key, w.plan[w.next].client, i);
      OccursFirst(w.plan[w.next..], i);
      assert w.plan[w.next..][1..] == w.plan[w.next + 1..];
    }
  }

  /** A detach that nobody disturbs ends with the session gone and one count less on each of its
      shards. */
  lemma DetachAlone(s: State, t: nat, session: SessionKey) returns (actions: seq<Action>, s': State)
    requires t in s.workers && s.workers[t] == Idle && session in s.sessions && Named(s.sessions[session])
    requires Covered(s, s.sessions[session])
    ensures Run(s, actions, s') && s'.workers == s.workers && s'.sessions == s.sessions - {session}
    ensures CountsGrew(s', s, s.sessions[session])
  {
    var collect := Collect(t, session);
    var s1 := Next(s, collect);
    assert [] + s.sessions[session] == s.sessions[session];
    forall i: Import ensures CoveredAt(s1, s.sessions[session], i) { assert CoveredAt(s, s.sessions[session], i); }
    var rest;
    rest, s' := DetachRest(s1, t);
    actions := [collect] + rest;
    assert actions[1..] == rest;
    assert s'.workers == s.workers;
    forall i: Import ensures CountGrew(s', s, s.sessions[session], i) {
      assert CountGrew(s', s1, s.sessions[session], i);
    }
  }

  predicate CoveredAt(s: State, plan: seq<Import>, i: Import) {
    ImporterCount(s.loader, i.key, i.client) >= Occurs(plan, i)
  }

  /** The loader counts what the session holds. */
  ghost predicate Covered(s: State, plan: seq<Import>) {
    forall i: Import :: CoveredAt(s, plan, i)
  }

  lemma {:induction false} DetachRest(s: State, t: nat) returns (actions: seq<Action>, s': State)
    requires t in s.workers && s.workers[t].Detaching? && Named(s.workers[t].pending)
    requires Covered(s, s.workers[t].pending)
    ensures Run(s, actions, s') && s'.workers == s.workers[t := Idle] && s'.sessions == s.sessions
    ensures CountsGrew(s', s, s.workers[t].pending)
    decreases |s.workers[t].pending|
  {
    var pending := s.workers[t].pending;
    var step := DetachNext(t);
    var s1 := Next(s, step);
    if pending == [] {
      actions, s' := [step], s1;
      assert [step][1..] == [] && Run(s1, [], s1);
      return;
    }
    forall i: Import ensures CoveredAt(s1, pending[1..], i) {
      assert CoveredAt(s, pending, i);
      DetachCount(s.loader, pending[0].key, pending[0].client, i);
      OccursFirst(pending, i);
    }
    var rest;
    rest, s' := DetachRest(s1, t);
    actions := [step] + rest;
    assert actions[1..] == rest;
    assert s'.workers == s.workers[t := Idle];
    forall i: Import ensures CountGrew(s', s, pending, i) {
      assert CountGrew(s', s1, pending[1..], i) && CoveredAt(s, pending, i);
      DetachCount(s.loader, pending[0].key, pending[0].client, i);
      OccursFirst(pending, i);
    }
  }
}
