/** What one operation does to the durable state while it holds its model's lock: Ensure,
    Release, the record part of a persistent load and unload, and the body of GC for one
    candidate (internal/app/service.go, internal/app/gpu.go). Each step touches the disk, the
    journal or the record store once, so a crash can fall between any two. */
module ModelSteps {
  import opened Prelude
  import opened Records
  import opened Publish

  datatype Marker = Started | BlobsWritten | BlobsVerified | MetadataWritten | ReadyWritten | Committed

  /** The durable state of one model: the tree at its final path, its journal (the markers
      read back from it), and its record. */
  datatype Durable = Durable(tree: Option<Tree>, journal: set<Marker>, record: Option<Record>)

  datatype Op =
    | EnsureOp(holder: string)
    | ReleaseOp(holder: string, cleanup: bool)
    | LoadOp(holder: string)
    | UnloadOp(holder: string)
    | GcOp(dryRun: bool)

  datatype Pc =
    | Begin
    | PutReused                                       // Ensure finds the model published
    | PutResolving | AppendStarted | Fetch | PutDownloading | Download
    | AppendWritten | AppendVerified | PutVerifying | PutPublishing
    | WriteMetadata | WriteReady | Publish | AppendCommitted | PutReady | DropJournal
    | PutFailed
    | RemoveForRelease | PutReleased                  // Release
    | PutLoading | LoadShards | PutRolledBack         // persistent load
    | UnloadShards | PutUnloaded                      // persistent unload
    | RemoveForGc | PutCollected                      // GC
    | Done

  /** The operation's own memory: its copy of the record, the tree it stages, and whether its
      holder already had a lease. */
  datatype Local = Local(op: Op, pc: Pc, rec: Record, staged: Tree, hadLease: bool)

  const NO_TREE := Tree(false, None, false, map[])
  const NO_RECORD := Record(Resolving, true, 0, [], false, None, NoReason, NoMessage, 0)

  function Start(op: Op): Local {
    Local(op, Begin, NO_RECORD, NO_TREE, false)
  }

  /** What the world answers to one step. Fail is the failure that Ensure reports by storing
      FAILED; Abort returns at once; FailAfter is a rename whose directory sync then fails. */
  datatype Answer =
    | Ok(now: int)
    | Fail(reason: Reason, message: Message)
    | Abort
    | FailAfter
    | Fetched(metadata: Metadata)
    | Downloaded(files: map<string, Bytes>)
    | Remove(entry: Entry)

  // ---- Record contents --------------------------------------------------------------------

  predicate ReadyMarker(d: Durable) {
    d.tree.Some? && d.tree.value.ready
  }

  /** A candidate GC may delete. */
  predicate Collectable(r: Record, d: Durable) {
    && r.leases == [] && r.hasPath
    && (r.status == Ready || r.status == Released || r.status == Failed)
    && (r.status == Failed || ReadyMarker(d))
  }

  /** READY in the store, and the full verification of its tree passes. */
  predicate IsPublished(d: Durable) {
    && d.record.Some? && d.record.value.status == Ready && d.record.value.hasPath
    && d.tree.Some? && FullOk(d.tree.value)
  }

  function StoredLeases(d: Durable): seq<Lease> {
    if d.record.Some? then d.record.value.leases else []
  }

  function Reused(r: Record, holder: string, now: int): Record {
    Acquired(r, holder, now).(lastError := NoReason, message := NoMessage)
  }

  function Resolved(d: Durable, holder: string, now: int): Record {
    Acquired(NO_RECORD.(leases := StoredLeases(d), updatedAt := now), holder, now)
  }

  function Loading(r: Record, holder: string, now: int): Record {
    Acquired(r, holder, now).(releasable := false, releasableAt := None, lastError := NoReason, message := NoMessage)
  }

  function Published(r: Record, bytes: int): Record {
    r.(status := Ready, hasPath := true, bytes := bytes, lastError := NoReason, message := NoMessage,
       releasable := false, releasableAt := None)
  }

  /** What Release makes of the record before it stores it. */
  function AfterRelease(r: Record, holder: string, cleanup: bool, now: int): Record {
    var r' := ReleasedBy(r, holder);
    if |r'.leases| > 0 then r'.(status := Ready, releasable := false, releasableAt := None)
    else if cleanup then
      r'.(status := Released, hasPath := false, bytes := 0, releasable := true, releasableAt := Some(now))
    else r'.(status := Ready, releasable := true, releasableAt := Some(now))
  }

  function Collected(r: Record, now: int): Record {
    r.(status := Released, hasPath := false, bytes := 0, releasable := true, releasableAt := Some(now))
  }

  function MetadataBytes(t: Tree): int {
    if t.metadata.Some? then t.metadata.value.bytes else 0
  }

  // ---- Steps --------------------------------------------------------------------------------

  function Store(d: Durable, r: Record, now: int): Durable {
    d.(record := Some(r.(updatedAt := now)))
  }

  function Mark(d: Durable, m: Marker): Durable {
    d.(journal := d.journal + {m})
  }

  /** One put: it succeeds and the operation goes on, or the operation ends. */
  function PutStep(l: Local, d: Durable, r: Record, next: Pc, a: Answer): Option<(Local, Durable)> {
    match a
    case Ok(now) => Some((l.(pc := next, rec := r), Store(d, r, now)))
    case Abort => Some((l.(pc := Done), d))
    case _ => None
  }

  /** One journal append; when it fails the operation ends without storing FAILED. */
  function AppendStep(l: Local, d: Durable, m: Marker, next: Pc, a: Answer): Option<(Local, Durable)> {
    match a
    case Ok(_) => Some((l.(pc := next), Mark(d, m)))
    case Abort => Some((l.(pc := Done), d))
    case _ => None
  }

  function Failing(l: Local, reason: Reason, message: Message): Local {
    l.(pc := PutFailed, rec := l.rec.(status := Failed, lastError := reason, message := message))
  }

  /** The local state after the rename, when the directory sync works and when it does not. */
  function Renamed(l: Local, syncs: bool): Local {
    if syncs then l.(pc := AppendCommitted)
    else Failing(l, FilesystemError, SyncText)
  }

  /** One step of a removal: an entry goes, or the bare directory does, or it fails. */
  function RemoveStep(l: Local, d: Durable, next: Pc, a: Answer): Option<(Local, Durable)> {
    match a
    case Remove(e) =>
      if d.tree.Some? && CanRemove(d.tree.value, e) then Some((l, d.(tree := Some(Publish.Without(d.tree.value, e)))))
      else None
    case Ok(_) =>
      if d.tree.None? || Bare(d.tree.value) then Some((l.(pc := next), d.(tree := None))) else None
    case Abort => Some((l.(pc := Done), d))
    case _ => None
  }

  function BeginStep(l: Local, d: Durable, a: Answer): Option<(Local, Durable)> {
    if a.Abort? then Some((l.(pc := Done), d))
    else if !a.Ok? then None
    else
      var next := match l.op
        case EnsureOp(holder) =>
          if IsPublished(d)
          then l.(pc := PutReused, rec := Reused(d.record.value, holder, a.now))
          else l.(pc := PutResolving, rec := Resolved(d, holder, a.now))
        case ReleaseOp(holder, cleanup) =>
          if d.record.None? then l.(pc := Done)
          else
            var r := AfterRelease(d.record.value, holder, cleanup, a.now);
            if r.leases == [] && cleanup && d.record.value.hasPath && d.tree.Some?
            then l.(pc := RemoveForRelease, rec := r)
            else l.(pc := PutReleased, rec := r)
        case LoadOp(holder) =>
          if d.record.None? || d.record.value.status != Ready then l.(pc := Done)
          else l.(pc := PutLoading, rec := Loading(d.record.value, holder, a.now),
                  hadLease := HasHolder(d.record.value.leases, holder))
        case UnloadOp(holder) =>
          if d.record.None? || !HasHolder(d.record.value.leases, holder) then l.(pc := Done)
          else l.(pc := UnloadShards, rec := d.record.value)
        case GcOp(dryRun) =>
          if d.record.None? || !Collectable(d.record.value, d) || dryRun then l.(pc := Done)
          else l.(pc := RemoveForGc, rec := d.record.value);
      Some((next, d))
  }

  function EnsureStep(l: Local, d: Durable, a: Answer): Option<(Local, Durable)> {
    match l.pc
    case PutReused => PutStep(l, d, l.rec, Done, a)
    case PutResolving => PutStep(l, d, l.rec, AppendStarted, a)
    case AppendStarted => AppendStep(l, d, Started, Fetch, a)
    case Fetch =>
      (match a
       case Fetched(m) =>
         Some((l.(pc := PutDownloading, staged := NO_TREE.(metadata := Some(m), shardsDir := true)), d))
       case Fail(r, m) => Some((Failing(l, r, m), d))
       case _ => None)
    case PutDownloading => PutStep(l, d, l.rec.(status := Downloading), Download, a)
    case Download =>
      (match a
       case Downloaded(files) => Some((l.(pc := AppendWritten, staged := l.staged.(shards := files)), d))
       case Fail(r, m) => Some((Failing(l, r, m), d))
       case _ => None)
    case AppendWritten => AppendStep(l, d, BlobsWritten, AppendVerified, a)
    case AppendVerified => AppendStep(l, d, BlobsVerified, PutVerifying, a)
    case PutVerifying => PutStep(l, d, l.rec.(status := Verifying), PutPublishing, a)
    case PutPublishing => PutStep(l, d, l.rec.(status := Publishing), WriteMetadata, a)
    case WriteMetadata =>
      if a.Fail? then Some((Failing(l, a.reason, a.message), d))
      else AppendStep(l, d, MetadataWritten, WriteReady, a)
    case WriteReady =>
      if a.Fail? then Some((Failing(l, a.reason, a.message), d))
      else AppendStep(l.(staged := l.staged.(ready := true)), d, ReadyWritten, Pc.Publish, a)
    case Publish =>
      if d.tree.Some? then
        if FullOk(d.tree.value) then (if a.Ok? then Some((l.(pc := AppendCommitted), d)) else None)
        else (if a.Fail? then Some((Failing(l, a.reason, a.message), d)) else None)
      else
        (match a
         case Ok(_) => Some((l.(pc := AppendCommitted), d.(tree := Some(l.staged))))
         case FailAfter => Some((Renamed(l, false), d.(tree := Some(l.staged))))
         case Fail(r, m) => Some((Failing(l, r, m), d))
         case _ => None)
    case AppendCommitted => AppendStep(l, d, Committed, PutReady, a)
    case PutReady => PutStep(l, d, Published(l.rec, MetadataBytes(l.staged)), DropJournal, a)
    case DropJournal => if a.Ok? then Some((l.(pc := Done), d.(journal := {}))) else None
    case PutFailed =>
      (match a
       case Ok(now) => Some((l.(pc := Done), Store(d, l.rec, now)))
       case Abort => Some((l.(pc := Done), d))
       case _ => None)
    case _ => None
  }

  function OtherStep(l: Local, d: Durable, a: Answer): Option<(Local, Durable)>
    requires InProgram(l.op, l.pc)
  {
    match l.pc
    case RemoveForRelease => RemoveStep(l, d, PutReleased, a)
    case PutReleased => PutStep(l, d, l.rec, Done, a)
    case PutLoading => PutStep(l, d, l.rec, LoadShards, a)
    case LoadShards =>
      (match a
       case Ok(_) => Some((l.(pc := Done), d))
       case Fail(_, _) => Some((l.(pc := if l.hadLease then Done else PutRolledBack), d))
       case _ => None)
    case PutRolledBack =>
      (match a
       case Ok(now) => PutStep(l, d, LeaseOnlyReleased(l.rec, l.op.holder, now), Done, a)
       case _ => PutStep(l, d, l.rec, Done, a))
    case UnloadShards =>
      (match a
       case Ok(_) => Some((l.(pc := PutUnloaded), d))
       case Fail(_, _) => Some((l.(pc := Done), d))
       case _ => None)
    case PutUnloaded =>
      (match a
       case Ok(now) => PutStep(l, d, LeaseOnlyReleased(l.rec, l.op.holder, now), Done, a)
       case _ => PutStep(l, d, l.rec, Done, a))
    case RemoveForGc => RemoveStep(l, d, PutCollected, a)
    case PutCollected =>
      (match a
       case Ok(now) => PutStep(l, d, Collected(l.rec, now), DropJournal, a)
       case _ => PutStep(l, d, l.rec, DropJournal, a))
    case _ => None
  }

  /** The operations that may stand at a program counter. */
  predicate InProgram(op: Op, pc: Pc) {
    match pc
    case Begin => true
    case Done => true
    case DropJournal => op.EnsureOp? || op.GcOp?
    case RemoveForRelease => op.ReleaseOp?
    case PutReleased => op.ReleaseOp?
    case PutLoading => op.LoadOp?
    case LoadShards => op.LoadOp?
    case PutRolledBack => op.LoadOp?
    case UnloadShards => op.UnloadOp?
    case PutUnloaded => op.UnloadOp?
    case RemoveForGc => op.GcOp?
    case PutCollected => op.GcOp?
    case _ => op.EnsureOp?
  }

  /** One step, or None where the answer does not fit. */
  function Step(l: Local, d: Durable, a: Answer): Option<(Local, Durable)> {
    if !InProgram(l.op, l.pc) then None
    else if l.pc == Begin then BeginStep(l, d, a)
    else if l.op.EnsureOp? || l.pc == DropJournal then EnsureStep(l, d, a)
    else OtherStep(l, d, a)
  }

  // ---- Runs of steps ------------------------------------------------------------------------

  /** What the registry client promises about a finished download. */
  ghost predicate Fits(l: Local, a: Answer) {
    a.Downloaded? ==> l.staged.metadata.Some? && GroundedFiles(l.staged.metadata.value.shards, a.files)
  }

  datatype Stage = Stage(local: Local, durable: Durable)

  ghost predicate Follows(s: Stage, s': Stage) {
    exists a :: Fits(s.local, a) && Step(s.local, s.durable, a) == Some((s'.local, s'.durable))
  }

  ghost predicate LinkedAt(trail: seq<Stage>, i: nat) {
    i + 1 < |trail| ==> Follows(trail[i], trail[i + 1])
  }

  /** Each stage is one step from the one before. */
  ghost predicate Linked(trail: seq<Stage>) {
    forall i: nat :: LinkedAt(trail, i)
  }

  lemma LinkedExtend(trail: seq<Stage>, a: Answer, s: Stage)
    requires |trail| > 0 && Linked(trail) && Fits(trail[|trail| - 1].local, a)
    requires Step(trail[|trail| - 1].local, trail[|trail| - 1].durable, a) == Some((s.local, s.durable))
    ensures Linked(trail + [s])
  {
    var longer := trail + [s];
    forall i: nat ensures LinkedAt(longer, i) {
      assert LinkedAt(trail, i);
      if i + 1 == |trail| { assert Follows(longer[i], longer[i + 1]); }
    }
  }

  /** The stages an operation has gone through so far. */
  type Trail = t: seq<Stage> | |t| > 0 && Linked(t) witness [Stage(Start(GcOp(true)), Durable(None, {}, None))]

  ghost function Longer(trail: Trail, a: Answer, s: Stage): (t: Trail)
    requires Fits(trail[|trail| - 1].local, a)
    requires Step(trail[|trail| - 1].local, trail[|trail| - 1].durable, a) == Some((s.local, s.durable))
    ensures t[0] == trail[0] && t[|t| - 1] == s && |t| == |trail| + 1
  {
    LinkedExtend(trail, a, s);
    trail + [s]
  }

  // ---- What stands at each program counter ----------------------------------------------------

  predicate PutPoint(l: Local, r: Record, now: int, next: Pc) {
    match l.pc
    case PutReused => l.op.EnsureOp? && r == l.rec && next == Done
    case PutResolving => l.op.EnsureOp? && r == l.rec && next == AppendStarted
    case PutDownloading => l.op.EnsureOp? && r == l.rec.(status := Downloading) && next == Download
    case PutVerifying => l.op.EnsureOp? && r == l.rec.(status := Verifying) && next == PutPublishing
    case PutPublishing => l.op.EnsureOp? && r == l.rec.(status := Publishing) && next == WriteMetadata
    case PutReady => l.op.EnsureOp? && r == Published(l.rec, MetadataBytes(l.staged)) && next == DropJournal
    case PutFailed => l.op.EnsureOp? && r == l.rec && next == Done
    case PutReleased => l.op.ReleaseOp? && r == l.rec && next == Done
    case PutCollected => l.op.GcOp? && r == Collected(l.rec, now) && next == DropJournal
    case _ => false
  }

  lemma PutPointStep(l: Local, d: Durable, r: Record, now: int, next: Pc)
    requires PutPoint(l, r, now, next)
    ensures Step(l, d, Ok(now)) == Some((l.(pc := next, rec := r), Store(d, r, now)))
    ensures Step(l, d, Abort) == Some((l.(pc := Done), d))
  {
  }

  function ReadyStaged(l: Local): Local {
    l.(staged := l.staged.(ready := true))
  }

  predicate AppendPoint(l: Local, m: Marker, marked: Local, stopped: Local) {
    l.op.EnsureOp? &&
    match m
    case Started => l.pc == AppendStarted && marked == l.(pc := Fetch) && stopped == l.(pc := Done)
    case BlobsWritten => l.pc == AppendWritten && marked == l.(pc := AppendVerified) && stopped == l.(pc := Done)
    case BlobsVerified => l.pc == AppendVerified && marked == l.(pc := PutVerifying) && stopped == l.(pc := Done)
    case MetadataWritten => l.pc == WriteMetadata && marked == l.(pc := WriteReady) && stopped == l.(pc := Done)
    case ReadyWritten =>
      l.pc == WriteReady && marked == ReadyStaged(l).(pc := Pc.Publish) && stopped == ReadyStaged(l).(pc := Done)
    case Committed => l.pc == AppendCommitted && marked == l.(pc := PutReady) && stopped == l.(pc := Done)
  }

  lemma AppendPointStep(l: Local, d: Durable, m: Marker, marked: Local, stopped: Local)
    requires AppendPoint(l, m, marked, stopped)
    ensures Step(l, d, Ok(0)) == Some((marked, Mark(d, m)))
    ensures Step(l, d, Abort) == Some((stopped, d))
  {
  }

  lemma RenameStep(l: Local, d: Durable, syncs: bool)
    requires l.op.EnsureOp? && l.pc == Pc.Publish && d.tree.None?
    ensures Step(l, d, if syncs then Ok(0) else FailAfter) == Some((Renamed(l, syncs), d.(tree := Some(l.staged))))
  {
    EnsureSteps(l, d, if syncs then Ok(0) else FailAfter);
  }

  lemma EnsureSteps(l: Local, d: Durable, a: Answer)
    requires l.op.EnsureOp? && InProgram(l.op, l.pc) && l.pc != Begin
    ensures Step(l, d, a) == EnsureStep(l, d, a)
  {
  }

  /** Where Ensure may give up with a FAILED record. */
  predicate FailPoint(l: Local, d: Durable) {
    && l.op.EnsureOp?
    && (l.pc == Fetch || l.pc == Download || l.pc == WriteMetadata || l.pc == WriteReady
        || (l.pc == Pc.Publish && (d.tree.Some? ==> !FullOk(d.tree.value))))
  }

  lemma FailPointStep(l: Local, d: Durable, reason: Reason, message: Message)
    requires FailPoint(l, d)
    ensures Step(l, d, Fail(reason, message)) == Some((Failing(l, reason, message), d))
  {
  }
}
