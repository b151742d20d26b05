/** What every put and every marker of every operation makes of a model's record and journal, in
    all interleavings with crashes: which status may follow which, at which step, what else of the
    record moves, and which markers stand in the journal by then. */
module RecordRuns {
  import opened Prelude
  import opened Records
  import opened Publish
  import opened ModelSteps
  import opened Recovery
  import opened ServiceRuns

  /** The same record, but for the time it was stored. */
  predicate SameBut(r: Record, r': Record) {
    r' == r.(updatedAt := r'.updatedAt)
  }

  /** What the store holds is the operation's copy, with this status. */
  predicate StoredAs(l: Local, d: Durable, status: ModelState) {
    d.record.Some? && SameBut(l.rec, d.record.value) && l.rec.status == status
  }

  /** A record at the start of a transaction. */
  predicate Blank(r: Record) {
    && r.status == Resolving && r.hasPath && r.bytes == 0 && !r.releasable && r.releasableAt == None
    && r.lastError == NoReason && r.message == NoMessage
  }

  /** r with the failure that r' has. */
  predicate FailureOf(r: Record, r': Record) {
    && r.status in {Resolving, Downloading, Publishing}
    && SameBut(r.(status := Failed, lastError := r'.lastError, message := r'.message), r')
  }

  /** r found published again, with r''s leases. */
  predicate ReuseOf(r: Record, r': Record) {
    && r.status == Ready && r.hasPath && r'.status == Ready && r'.hasPath && r'.bytes == r.bytes
    && r'.lastError == NoReason && r'.message == NoMessage
  }

  /** r released: RELEASED without its path when that was the last lease and the files went. */
  predicate ReleaseOf(r: Record, r': Record, cleanup: bool) {
    && r'.lastError == r.lastError && r'.message == r.message
    && (r'.releasable <==> r'.leases == []) && (r'.releasableAt.Some? <==> r'.leases == [])
    && if r'.leases == [] && cleanup then r'.status == Released && !r'.hasPath && r'.bytes == 0
       else r'.status == Ready && r'.hasPath == r.hasPath && r'.bytes == r.bytes
  }

  /** r with a load's lease. */
  predicate LoadOf(r: Record, r': Record) {
    && r.status == Ready
    && SameBut(r.(leases := r'.leases, releasable := false, releasableAt := None, lastError := NoReason,
                  message := NoMessage), r')
  }

  /** r with one holder's leases given back and nothing else: READY, whatever it was. */
  predicate GivenBackOf(r: Record, r': Record) {
    && SameBut(r.(status := Ready, leases := r'.leases, releasable := r'.leases == [],
                  releasableAt := r'.releasableAt), r')
    && (r'.releasableAt.Some? <==> r'.leases == [])
  }

  predicate Deletable(r: Record) {
    r.leases == [] && r.hasPath && r.status in {Ready, Released, Failed}
  }

  /** r deleted by GC. */
  predicate CollectionOf(r: Record, r': Record) {
    && Deletable(r) && r'.releasableAt.Some?
    && SameBut(r.(status := Released, hasPath := false, bytes := 0, releasable := true,
                  releasableAt := r'.releasableAt), r')
  }

  /** What the operation knows of the stored record while it holds the lock. */
  predicate RecordKnown(l: Local, d: Durable) {
    match l.pc
    case PutReused => d.record.Some? && ReuseOf(d.record.value, l.rec)
    case PutResolving => Blank(l.rec)
    case AppendStarted => StoredAs(l, d, Resolving) && Blank(l.rec)
    case Fetch => StoredAs(l, d, Resolving) && Blank(l.rec)
    case PutDownloading => StoredAs(l, d, Resolving) && Blank(l.rec)
    case Download => StoredAs(l, d, Downloading)
    case AppendWritten => StoredAs(l, d, Downloading)
    case AppendVerified => StoredAs(l, d, Downloading)
    case PutVerifying => StoredAs(l, d, Downloading)
    case PutPublishing => StoredAs(l, d, Verifying)
    case WriteMetadata => StoredAs(l, d, Publishing)
    case WriteReady => StoredAs(l, d, Publishing)
    case Publish => StoredAs(l, d, Publishing)
    case AppendCommitted => StoredAs(l, d, Publishing)
    case PutReady => StoredAs(l, d, Publishing)
    case PutFailed => d.record.Some? && FailureOf(d.record.value, l.rec)
    case RemoveForRelease => d.record.Some? && ReleaseOf(d.record.value, l.rec, l.op.ReleaseOp? && l.op.cleanup)
    case PutReleased => d.record.Some? && ReleaseOf(d.record.value, l.rec, l.op.ReleaseOp? && l.op.cleanup)
    case PutLoading => d.record.Some? && LoadOf(d.record.value, l.rec)
    case LoadShards => StoredAs(l, d, Ready)
    case PutRolledBack => StoredAs(l, d, Ready)
    case UnloadShards => d.record.Some? && SameBut(l.rec, d.record.value)
    case PutUnloaded => d.record.Some? && SameBut(l.rec, d.record.value)
    case RemoveForGc => d.record.Some? && SameBut(l.rec, d.record.value) && Deletable(l.rec)
    case PutCollected => d.record.Some? && SameBut(l.rec, d.record.value) && Deletable(l.rec)
    case _ => true
  }

  /** What the step at this point may make of the record r. */
  predicate RecordMove(l: Local, r: Option<Record>, r': Record) {
    match l.pc
    case PutReused => r.Some? && ReuseOf(r.value, r')
    case PutResolving => Blank(r')
    case PutDownloading => r.Some? && r.value.status == Resolving && SameBut(r.value.(status := Downloading), r')
    case PutVerifying => r.Some? && r.value.status == Downloading && SameBut(r.value.(status := Verifying), r')
    case PutPublishing => r.Some? && r.value.status == Verifying && SameBut(r.value.(status := Publishing), r')
    case PutReady =>
      && r.Some? && r.value.status == Publishing && l.staged.metadata.Some?
      && SameBut(r.value.(status := Ready, hasPath := true, bytes := l.staged.metadata.value.bytes,
                          lastError := NoReason, message := NoMessage, releasable := false, releasableAt := None), r')
    case PutFailed => r.Some? && FailureOf(r.value, r')
    case PutReleased => r.Some? && ReleaseOf(r.value, r', l.op.ReleaseOp? && l.op.cleanup)
    case PutLoading => r.Some? && LoadOf(r.value, r')
    case PutRolledBack => r.Some? && r.value.status == Ready && GivenBackOf(r.value, r')
    case PutUnloaded => r.Some? && GivenBackOf(r.value, r')
    case PutCollected => r.Some? && CollectionOf(r.value, r')
    case _ => false
  }

  /** The operation has fetched a profile from here on. */
  predicate ProfileKnown(l: Local) {
    PastFetch(l.pc) ==> l.staged.metadata.Some?
  }

  predicate PastFetch(pc: Pc) {
    pc in {PutDownloading, Download, AppendWritten, AppendVerified, PutVerifying, PutPublishing, WriteMetadata,
           WriteReady, Pc.Publish, AppendCommitted, PutReady}
  }

  ghost predicate Known(l: Local, d: Durable) {
    InProgram(l.op, l.pc) && RecordKnown(l, d) && ProfileKnown(l)
  }

  ghost predicate Moves(l: Local, d: Durable, d': Durable) {
    d'.record == d.record || (d'.record.Some? && RecordMove(l, d.record, d'.record.value))
  }

  lemma BeginKnows(l: Local, d: Durable, a: Answer)
    requires l.pc == Begin && BeginStep(l, d, a).Some?
    ensures Known(BeginStep(l, d, a).value.0, d) && BeginStep(l, d, a).value.1 == d
  {
    match l.op
    case EnsureOp(_) => BeginEnsureKnows(l, d, a);
    case ReleaseOp(_, _) => BeginReleaseKnows(l, d, a);
    case LoadOp(_) => BeginOtherKnows(l, d, a);
    case UnloadOp(_) => BeginOtherKnows(l, d, a);
    case GcOp(_) => BeginOtherKnows(l, d, a);
  }

  lemma BeginEnsureKnows(l: Local, d: Durable, a: Answer)
    requires l.pc == Begin && BeginStep(l, d, a).Some? && l.op.EnsureOp?
    ensures Known(BeginStep(l, d, a).value.0, d) && BeginStep(l, d, a).value.1 == d
  {
  }

  lemma BeginReleaseKnows(l: Local, d: Durable, a: Answer)
    requires l.pc == Begin && BeginStep(l, d, a).Some? && l.op.ReleaseOp?
    ensures Known(BeginStep(l, d, a).value.0, d) && BeginStep(l, d, a).value.1 == d
  {
  }

  lemma BeginOtherKnows(l: Local, d: Durable, a: Answer)
    requires l.pc == Begin && BeginStep(l, d, a).Some? && (l.op.LoadOp? || l.op.UnloadOp? || l.op.GcOp?)
    ensures Known(BeginStep(l, d, a).value.0, d) && BeginStep(l, d, a).value.1 == d
  {
  }

  lemma EnsurePutMoves(l: Local, d: Durable, a: Answer)
    requires Known(l, d) && EnsureStep(l, d, a).Some? && l.op.EnsureOp?
    requires l.pc in {PutReused, PutResolving, PutDownloading, PutVerifying, PutPublishing, PutReady, PutFailed}
    ensures var (l', d') := EnsureStep(l, d, a).value; Known(l', d') && Moves(l, d, d')
  {
  }

  lemma EnsureAppendMoves(l: Local, d: Durable, a: Answer)
    requires Known(l, d) && EnsureStep(l, d, a).Some? && l.op.EnsureOp?
    requires l.pc in {AppendStarted, AppendWritten, AppendVerified, WriteMetadata, WriteReady, AppendCommitted}
    ensures var (l', d') := EnsureStep(l, d, a).value; Known(l', d') && d'.record == d.record
  {
  }

  lemma EnsureStagingMoves(l: Local, d: Durable, a: Answer)
    requires Known(l, d) && EnsureStep(l, d, a).Some? && l.pc in {Fetch, Download, Pc.Publish, DropJournal}
    ensures var (l', d') := EnsureStep(l, d, a).value; Known(l', d') && d'.record == d.record
  {
  }

  lemma EnsureMoves(l: Local, d: Durable, a: Answer)
    requires Known(l, d) && EnsureStep(l, d, a).Some? && (l.op.EnsureOp? || l.pc == DropJournal)
    ensures var (l', d') := EnsureStep(l, d, a).value; Known(l', d') && Moves(l, d, d')
  {
    if l.pc in {PutReused, PutResolving, PutDownloading, PutVerifying, PutPublishing, PutReady, PutFailed} {
      EnsurePutMoves(l, d, a);
    } else if l.pc in {Fetch, Download, Pc.Publish, DropJournal} {
      EnsureStagingMoves(l, d, a);
    } else {
      EnsureAppendMoves(l, d, a);
    }
  }

  lemma OtherPutMoves(l: Local, d: Durable, a: Answer)
    requires Known(l, d) && OtherStep(l, d, a).Some? && !l.op.EnsureOp?
    requires l.pc in {PutReleased, PutLoading, PutRolledBack, PutUnloaded, PutCollected}
    ensures var (l', d') := OtherStep(l, d, a).value; Known(l', d') && Moves(l, d, d')
  {
  }

  lemma OtherRestMoves(l: Local, d: Durable, a: Answer)
    requires Known(l, d) && OtherStep(l, d, a).Some? && !l.op.EnsureOp?
    requires l.pc in {RemoveForRelease, RemoveForGc, LoadShards, UnloadShards}
    ensures var (l', d') := OtherStep(l, d, a).value; Known(l', d') && d'.record == d.record
  {
  }

  lemma StepMoves(l: Local, d: Durable, a: Answer)
    requires Known(l, d) && Step(l, d, a).Some?
    ensures var (l', d') := Step(l, d, a).value; Known(l', d') && Moves(l, d, d')
  {
    if l.pc == Begin {
      BeginKnows(l, d, a);
    } else if l.op.EnsureOp? || l.pc == DropJournal {
      EnsureMoves(l, d, a);
    } else if l.pc in {PutReleased, PutLoading, PutRolledBack, PutUnloaded, PutCollected} {
      OtherPutMoves(l, d, a);
    } else {
      OtherRestMoves(l, d, a);
    }
  }

  // ---- Markers --------------------------------------------------------------------------------

  /** What the journal holds by now, for the operation that has the lock. */
  predicate MarkersKnown(l: Local, d: Durable) {
    match l.pc
    case Fetch => {Started} <= d.journal
    case PutDownloading => {Started} <= d.journal
    case Download => {Started} <= d.journal
    case AppendWritten => {Started} <= d.journal
    case AppendVerified => {Started, BlobsWritten} <= d.journal
    case PutVerifying => {Started, BlobsWritten, BlobsVerified} <= d.journal
    case PutPublishing => {Started, BlobsWritten, BlobsVerified} <= d.journal
    case WriteMetadata => {Started, BlobsWritten, BlobsVerified} <= d.journal
    case WriteReady => {Started, BlobsWritten, BlobsVerified, MetadataWritten} <= d.journal
    case Publish => {Started, BlobsWritten, BlobsVerified, MetadataWritten, ReadyWritten} <= d.journal
    case AppendCommitted => {Started, BlobsWritten, BlobsVerified, MetadataWritten, ReadyWritten} <= d.journal
    case PutReady => {Started, BlobsWritten, BlobsVerified, MetadataWritten, ReadyWritten, Committed} <= d.journal
    case PutFailed =>
      && Started in d.journal
      && (d.record.Some? && d.record.value.status == Publishing ==> {BlobsWritten, BlobsVerified} <= d.journal)
    case DropJournal => d.record.Some? && d.record.value.status == if l.op.EnsureOp? then Ready else Released
    case _ => true
  }

  /** What the step at this point may make of the journal. */
  predicate JournalMove(l: Local, was: set<Marker>, now: set<Marker>) {
    match l.pc
    case AppendStarted => now == was + {Started}
    case AppendWritten => now == was + {BlobsWritten}
    case AppendVerified => now == was + {BlobsVerified}
    case WriteMetadata => now == was + {MetadataWritten}
    case WriteReady => now == was + {ReadyWritten}
    case AppendCommitted => now == was + {Committed}
    case DropJournal => now == {}
    case _ => false
  }

  ghost predicate Marks(l: Local, d: Durable, d': Durable) {
    d'.journal == d.journal || JournalMove(l, d.journal, d'.journal)
  }

  lemma EnsurePutMarks(l: Local, d: Durable, a: Answer)
    requires Known(l, d) && MarkersKnown(l, d) && EnsureStep(l, d, a).Some? && l.op.EnsureOp?
    requires l.pc in {PutReused, PutResolving, PutDownloading, PutVerifying, PutPublishing, PutReady, PutFailed}
    ensures var (l', d') := EnsureStep(l, d, a).value; MarkersKnown(l', d') && d'.journal == d.journal
  {
  }

  lemma EnsureAppendMarks(l: Local, d: Durable, a: Answer)
    requires Known(l, d) && MarkersKnown(l, d) && EnsureStep(l, d, a).Some? && l.op.EnsureOp?
    requires l.pc in {AppendStarted, AppendWritten, AppendVerified, WriteMetadata, WriteReady, AppendCommitted}
    ensures var (l', d') := EnsureStep(l, d, a).value; MarkersKnown(l', d') && Marks(l, d, d')
  {
  }

  lemma EnsureStagingMarks(l: Local, d: Durable, a: Answer)
    requires Known(l, d) && MarkersKnown(l, d) && EnsureStep(l, d, a).Some?
    requires l.pc in {Fetch, Download, Pc.Publish, DropJournal}
    ensures var (l', d') := EnsureStep(l, d, a).value; MarkersKnown(l', d') && Marks(l, d, d')
  {
  }

  lemma EnsureStepMarks(l: Local, d: Durable, a: Answer)
    requires Known(l, d) && MarkersKnown(l, d) && EnsureStep(l, d, a).Some? && (l.op.EnsureOp? || l.pc == DropJournal)
    ensures var (l', d') := EnsureStep(l, d, a).value; MarkersKnown(l', d') && Marks(l, d, d')
  {
    if l.pc in {PutReused, PutResolving, PutDownloading, PutVerifying, PutPublishing, PutReady, PutFailed} {
      EnsurePutMarks(l, d, a);
    } else if l.pc in {Fetch, Download, Pc.Publish, DropJournal} {
      EnsureStagingMarks(l, d, a);
    } else {
      EnsureAppendMarks(l, d, a);
    }
  }

  lemma OtherStepMarks(l: Local, d: Durable, a: Answer)
    requires InProgram(l.op, l.pc) && OtherStep(l, d, a).Some? && !l.op.EnsureOp?
    ensures var (l', d') := OtherStep(l, d, a).value; MarkersKnown(l', d') && d'.journal == d.journal
  {
  }

  lemma BeginStepMarks(l: Local, d: Durable, a: Answer)
    requires l.pc == Begin && BeginStep(l, d, a).Some?
    ensures var (l', d') := BeginStep(l, d, a).value; MarkersKnown(l', d') && d' == d
  {
  }

  lemma StepMarks(l: Local, d: Durable, a: Answer)
    requires Known(l, d) && MarkersKnown(l, d) && Step(l, d, a).Some?
    ensures var (l', d') := Step(l, d, a).value; MarkersKnown(l', d') && Marks(l, d, d')
  {
    if l.pc == Begin {
      BeginStepMarks(l, d, a);
    } else if l.op.EnsureOp? || l.pc == DropJournal {
      EnsureStepMarks(l, d, a);
    } else {
      OtherStepMarks(l, d, a);
    }
  }

  // ---- All runs -----------------------------------------------------------------------------

  ghost predicate AllIsKnown(l: Local, d: Durable) {
    Known(l, d) && MarkersKnown(l, d)
  }

  ghost predicate KnownAt(s: Sys, t: nat) {
    t in s.threads && s.threads[t].Running? ==> AllIsKnown(s.threads[t].local, At(s, s.threads[t].key))
  }

  ghost predicate AllKnown(s: Sys) {
    forall t: nat :: KnownAt(s, t)
  }

  lemma OwnActKeepsKnown(s: Sys, a: Action)
    requires Enabled(s, a) && a.Act? && KnownAt(s, a.t)
    ensures KnownAt(Next(s, a), a.t)
  {
    StepMoves(s.threads[a.t].local, At(s, s.threads[a.t].key), a.answer);
    StepMarks(s.threads[a.t].local, At(s, s.threads[a.t].key), a.answer);
  }

  lemma OtherActKeepsKnown(s: Sys, a: Action, t: nat)
    requires Enabled(s, a) && a.Act? && t != a.t && ThreadOk(s, t) && ThreadOk(s, a.t) && KnownAt(s, t)
    ensures KnownAt(Next(s, a), t)
  {
    var s' := Next(s, a);
    if t in s.threads && s.threads[t].Running? {
      assert s.threads[t].key != s.threads[a.t].key;
      assert s'.threads[t] == s.threads[t] && At(s', s.threads[t].key) == At(s, s.threads[t].key);
    }
  }

  lemma RestKeepsKnown(s: Sys, a: Action, t: nat)
    requires ThreadOk(s, t) && KnownAt(s, t) && Enabled(s, a) && !a.Act?
    ensures KnownAt(Next(s, a), t)
  {
  }

  lemma StepKeepsKnown(s: Sys, a: Action)
    requires Inv(s) && AllKnown(s) && Enabled(s, a)
    ensures AllKnown(Next(s, a))
  {
    var s' := Next(s, a);
    forall t: nat ensures KnownAt(s', t) {
      assert KnownAt(s, t) && ThreadOk(s, t);
      if !a.Act? {
        RestKeepsKnown(s, a, t);
      } else if t == a.t {
        OwnActKeepsKnown(s, a);
      } else {
        assert ThreadOk(s, a.t);
        OtherActKeepsKnown(s, a, t);
      }
    }
  }

  lemma {:induction false} RunKeepsKnown(s: Sys, actions: seq<Action>, s': Sys)
    requires Inv(s) && AllKnown(s) && Run(s, actions, s')
    ensures AllKnown(s')
    decreases |actions|
  {
    if actions != [] {
      StepKeepsKnown(s, actions[0]);
      StepKeepsInv(s, actions[0]);
      RunKeepsKnown(Next(s, actions[0]), actions[1..], s');
    }
  }

  lemma InitialKnown(s: Sys)
    requires Initial(s)
    ensures Inv(s) && AllKnown(s)
  {
    forall t: nat ensures KnownAt(s, t) && ThreadOk(s, t) {}
  }

  lemma ReachableKnown(s: Sys)
    requires Reachable(s)
    ensures AllKnown(s)
  {
    var s0, actions :| Initial(s0) && Run(s0, actions, s);
    InitialKnown(s0);
    RunKeepsKnown(s0, actions, s);
  }

  lemma RecoveryMoves(d: Durable, i: nat, now: int)
    requires i < |Trace(d, now)| && Trace(d, now)[i].record != d.record
    ensures d.record.Some? && Trace(d, now)[i].record.Some? && Decided(d, Trace(d, now)[i].record.value)
  {
    if d.record.Some? { InterruptedIsDecided(d, i, now); }
  }

  /** In every run a stored record changes only under its model's lock, at a put, from and to
      what that put is for; or before any operation is let in, by Recover. */
  lemma RecordsMoveAtPuts(s: Sys, a: Action, k: Key)
    requires Reachable(s) && Enabled(s, a) && At(Next(s, a), k).record != At(s, k).record
    ensures a.Act? || (a.RecoverTo? && a.key == k && !s.up)
    ensures a.Act? ==> Holds(s, a.t, k) && k in s.locks && s.locks[k] == a.t
    ensures a.Act? ==> At(Next(s, a), k).record.Some?
                       && RecordMove(s.threads[a.t].local, At(s, k).record, At(Next(s, a), k).record.value)
    ensures a.RecoverTo? ==> At(s, k).record.Some? && At(Next(s, a), k).record.Some?
                             && Decided(At(s, k), At(Next(s, a), k).record.value)
  {
    if a.RecoverTo? {
      RecoveryMoves(At(s, k), a.i, a.now);
    } else if a.Act? {
      ReachableInv(s);
      ReachableKnown(s);
      assert ThreadOk(s, a.t) && KnownAt(s, a.t);
      StepMoves(s.threads[a.t].local, At(s, k), a.answer);
    }
  }

  /** In every run a model's journal changes only under its lock: by one marker, all earlier ones
      being there already, or by being dropped once the record is READY after a transaction, or
      RELEASED after a deletion; or before any operation is let in, by Recover. */
  lemma JournalsMoveAtMarks(s: Sys, a: Action, k: Key)
    requires Reachable(s) && Enabled(s, a) && At(Next(s, a), k).journal != At(s, k).journal
    ensures a.Act? || (a.RecoverTo? && a.key == k && !s.up)
    ensures a.Act? ==> Holds(s, a.t, k) && var l := s.threads[a.t].local;
              MarkersKnown(l, At(s, k)) && JournalMove(l, At(s, k).journal, At(Next(s, a), k).journal)
  {
    if a.Act? {
      ReachableInv(s);
      ReachableKnown(s);
      assert ThreadOk(s, a.t) && KnownAt(s, a.t);
      StepMarks(s.threads[a.t].local, At(s, k), a.answer);
    }
  }

  /** A transaction that stores FAILED leaves its markers behind, the first one at least. */
  lemma FailureLeavesMarkers(s: Sys, a: Action, k: Key)
    requires Reachable(s) && Enabled(s, a) && a.Act? && Holds(s, a.t, k)
    requires s.threads[a.t].local.pc == PutFailed && At(Next(s, a), k).record != At(s, k).record
    ensures Started in At(Next(s, a), k).journal && At(Next(s, a), k).journal == At(s, k).journal
  {
    ReachableInv(s);
    ReachableKnown(s);
    assert ThreadOk(s, a.t) && KnownAt(s, a.t);
    StepMarks(s.threads[a.t].local, At(s, k), a.answer);
  }

  /** An Ensure turns a record READY only by the last put of a transaction whose tree is in
      place, and FAILED only out of a transaction it has begun. */
  lemma EnsureTurnsReady(s: Sys, a: Action, k: Key)
    requires Reachable(s) && Enabled(s, a) && a.Act? && Holds(s, a.t, k) && s.threads[a.t].local.op.EnsureOp?
    requires At(Next(s, a), k).record.Some? && At(Next(s, a), k).record != At(s, k).record
    ensures var l, r, r' := s.threads[a.t].local, At(s, k).record, At(Next(s, a), k).record.value;
      && (r'.status == Ready ==> r.Some?)
      && (r'.status == Ready && r.value.status != Ready ==> l.pc == PutReady && At(s, k).tree.Some?)
      && (r'.status == Failed ==>
            l.pc == PutFailed && r.Some? && r.value.status in {Resolving, Downloading, Publishing})
  {
    RecordsMoveAtPuts(s, a, k);
    ReachableInv(s);
    assert ThreadOk(s, a.t);
  }
}
