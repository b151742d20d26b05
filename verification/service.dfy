/** The service over its disk, journals and record store (internal/app/service.go). Every
    effect of an operation is one step of ModelSteps, so what is proved of all interleavings
    and crashes of those steps is about this code. Locks are taken around the calls, in
    ServiceRuns. Failures of the file system and the store are free choices; what the registry
    returns is an argument. */
module ModelService {
  import opened Prelude
  import opened Records
  import opened Publish
  import opened ModelSteps
  import opened Recovery

  /** What fetching and downloading a model comes to. */
  datatype Fetch = FetchFailed(reason: Reason) | Lacking(reason: Reason) | Profile(metadata: Metadata)
  datatype Download = DownloadFailed(reason: Reason) | Files(files: map<string, Bytes>)

  datatype Status = READY | FAILED | ERROR

  datatype ReleaseAnswer = Refused | Answered(status: ModelState, remaining: nat)

  datatype Collected = Skipped | Deleted(bytes: int) | GcFailed

  function Staged(metadata: Metadata, files: map<string, Bytes>): Tree {
    Tree(true, Some(metadata), true, files)
  }

  /** The download keeps to what its digest checks allow. */
  ghost predicate DownloadFits(fetch: Fetch, download: Download) {
    fetch.Profile? && download.Files? ==> GroundedFiles(fetch.metadata.shards, download.files)
  }

  class Service {
    var trees: map<Key, Tree>
    var journals: map<Key, set<Marker>>
    var records: map<Key, Record>
    /** How often the store, a journal or the disk has failed an operation. */
    ghost var faults: nat
    /** Whether the record store has refused an operation a put. */
    ghost var refused: bool

    // The operation under way, as ModelSteps sees it.
    ghost var key: Key
    ghost var op: Op
    ghost var from: Durable
    ghost var trail: Trail
    ghost var local: Local

    constructor ()
      ensures trees == map[] && journals == map[] && records == map[]
    {
      trees, journals, records, faults, refused := map[], map[], map[], 0, false;
    }

    ghost function At(k: Key): Durable
      reads this`trees, this`journals, this`records
    {
      Durable(if k in trees then Some(trees[k]) else None, GetOr(journals, k, {}),
              if k in records then Some(records[k]) else None)
    }

    /** Everything kept for the other models is as it was. */
    twostate predicate OthersStay(k: Key)
      reads this`trees, this`journals, this`records
    {
      && trees - {k} == old(trees) - {k} && journals - {k} == old(journals) - {k}
      && records - {k} == old(records) - {k}
    }

    ghost function Leases(k: Key): seq<Lease>
      reads this`records
    {
      if k in records then records[k].leases else []
    }

    ghost predicate NoMarkers(k: Key)
      reads this`journals
    {
      k in journals ==> journals[k] == {}
    }

    ghost predicate Holds(k: Key, r: Record)
      reads this`records
    {
      k in records && records[k] == r
    }

    /** The stored record is READY and names the final path. */
    ghost predicate ReadyAt(k: Key)
      reads this`records
    {
      k in records && records[k].status == Ready && records[k].hasPath
    }

    /** A transaction is under way, or was broken off. */
    ghost predicate InProgress(k: Key)
      reads this`records
    {
      k in records && records[k].status in {Resolving, Downloading, Verifying, Publishing}
    }

    /** The stored record is FAILED, for this reason and with this text. */
    ghost predicate FailedAs(k: Key, reason: Reason, message: Message)
      reads this`records
    {
      k in records && records[k].status == Failed && records[k].lastError == reason && records[k].message == message
    }

    /** The stored record is FAILED for what went wrong with this fetch and download, with the
        staging, or with the tree at the final path. */
    ghost predicate GaveUp(k: Key, was: map<Key, Tree>, fetch: Fetch, download: Download)
      reads this`records
    {
      if fetch.FetchFailed? then FailedAs(k, fetch.reason, FetchText)
      else if fetch.Lacking? then FailedAs(k, fetch.reason, RefusedText)
      else if download.DownloadFailed? then FailedAs(k, download.reason, DownloadText)
      else StagingFailed(k) || PublishFailed(k, was)
    }

    /** The record says why there was nothing to publish. */
    ghost predicate NothingFetched(k: Key, fetch: Fetch, download: Download)
      reads this`records
    {
      && (fetch.Profile? ==> download.DownloadFailed?)
      && GaveUp(k, map[], fetch, download)
    }

    /** READY over a tree at its path that passes the full verification. */
    ghost predicate PublishedAt(k: Key)
      reads this`records, this`trees
    {
      ReadyAt(k) && k in trees && FullOk(trees[k])
    }

    /** A published model found again: its record has no error. */
    ghost predicate ReusedAt(k: Key, bytes: int)
      reads this`records
    {
      ReadyAt(k) && records[k].bytes == bytes && records[k].lastError == NoReason && records[k].message == NoMessage
    }

    ghost predicate StagingFailed(k: Key)
      reads this`records
    {
      FailedAs(k, FilesystemError, MetadataText) || FailedAs(k, FilesystemError, ReadyText)
    }

    ghost predicate PublishFailed(k: Key, was: map<Key, Tree>)
      reads this`records
    {
      if k in was then
        k in records && FailedAs(k, records[k].lastError, OccupiedText) && RefutedBy(was[k], records[k].lastError)
      else FailedAs(k, RenameFailed, RenameText) || FailedAs(k, FilesystemError, SyncText)
    }

    /** The record of a model that has just been published. */
    ghost predicate FreshlyReady(k: Key, bytes: int)
      reads this`records
    {
      && k in records && records[k].status == Ready && records[k].hasPath && records[k].bytes == bytes
      && records[k].lastError == NoReason && records[k].message == NoMessage
      && !records[k].releasable && records[k].releasableAt == None
    }

    /** The tree at the final path is the one that was there, or the one this call staged where
        there was none. */
    ghost predicate TreeStays(k: Key, was: map<Key, Tree>, fetch: Fetch, download: Download)
      reads this`trees
    {
      trees == was ||
      (k !in was && fetch.Profile? && download.Files? && trees == was[k := Staged(fetch.metadata, download.files)])
    }

    ghost function Stored(): Models
      reads this`trees, this`journals, this`records
    {
      map k | k in records :: At(k)
    }

    /** The steps taken so far lead from where the operation began to where it stands. */
    ghost predicate OnTrack()
      reads this
    {
      trail[0] == Stage(Start(op), from) && trail[|trail| - 1] == Stage(local, At(key))
    }

    /** The operation on k that began with the durable state d is over. */
    ghost predicate Finished(k: Key, o: Op, d: Durable)
      reads this
    {
      OnTrack() && key == k && op == o && from == d && local.pc == Done
    }

    // ---- Single effects -----------------------------------------------------------------

    ghost method Enter(k: Key, o: Op)
      modifies this`key, this`op, this`from, this`trail, this`local
      ensures OnTrack() && key == k && op == o && from == At(k) && local == Start(o)
    {
      key, op, from, local := k, o, At(k), Start(o);
      trail := [Stage(local, from)];
    }

    /** A step that leaves nothing durable behind. */
    ghost method Advance(a: Answer, l: Local)
      requires OnTrack() && Fits(local, a) && Step(local, At(key), a) == Some((l, At(key)))
      modifies this`trail, this`local
      ensures OnTrack() && local == l
    {
      trail, local := Longer(trail, a, Stage(l, At(key))), l;
    }

    method Put(k: Key, r: Record, now: int, ghost next: Pc) returns (ok: bool)
      requires OnTrack() && k == key && PutPoint(local, r, now, next)
      modifies this`faults, this`refused, this`records, this`trail, this`local
      ensures OnTrack()
      ensures OthersStay(k)
      ensures records == if ok then old(records)[k := r.(updatedAt := now)] else old(records)
      ensures At(k) == if ok then Store(old(At(k)), r, now) else old(At(k))
      ensures local == if ok then old(local).(pc := next, rec := r) else old(local).(pc := Done)
      ensures faults == old(faults) + if ok then 0 else 1
      ensures refused == (old(refused) || !ok)
    {
      PutPointStep(local, At(k), r, now, next);
      ok := *;
      if ok {
        ghost var l, d := local.(pc := next, rec := r), Store(At(k), r, now);
        local, trail := l, Longer(trail, Ok(now), Stage(l, d));
        records := records[k := r.(updatedAt := now)];
      } else {
        Advance(Abort, local.(pc := Done));
        faults, refused := faults + 1, true;
      }
      assert records - {k} == old(records) - {k};
    }

    method Append(k: Key, m: Marker, ghost marked: Local, ghost stopped: Local) returns (ok: bool)
      requires OnTrack() && k == key && AppendPoint(local, m, marked, stopped)
      modifies this`faults, this`journals, this`trail, this`local
      ensures OnTrack()
      ensures OthersStay(k)
      ensures journals == if ok then old(journals)[k := GetOr(old(journals), k, {}) + {m}] else old(journals)
      ensures local == if ok then marked else stopped
      ensures faults == old(faults) + if ok then 0 else 1
    {
      AppendPointStep(local, At(k), m, marked, stopped);
      ok := *;
      if ok {
        ghost var d := Mark(At(k), m);
        local, trail := marked, Longer(trail, Ok(0), Stage(marked, d));
        journals := journals[k := GetOr(journals, k, {}) + {m}];
      } else {
        Advance(Abort, stopped);
        faults := faults + 1;
      }
      assert journals - {k} == old(journals) - {k};
    }

    method DropJournal(k: Key)
      requires OnTrack() && k == key && local.pc == Pc.DropJournal && InProgram(local.op, local.pc)
      modifies this`journals, this`trail, this`local
      ensures OnTrack() && OthersStay(k)
      ensures journals == old(journals) - {k} && At(k) == old(At(k)).(journal := {})
      ensures local == old(local).(pc := Done)
    {
      ghost var l, d := local.(pc := Done), At(k).(journal := {});
      local, trail := l, Longer(trail, Ok(0), Stage(l, d));
      journals := journals - {k};
      assert journals - {k} == old(journals) - {k};
    }

    /** os.Rename of the staging directory to a free final path. */
    method Rename(k: Key, t: Tree, syncs: bool)
      requires OnTrack() && k == key && k !in trees && local.op.EnsureOp? && local.pc == Pc.Publish && local.staged == t
      modifies this`trees, this`trail, this`local
      ensures OnTrack() && trees == old(trees)[k := t] && OthersStay(k)
      ensures local == Renamed(old(local), syncs)
    {
      RenameStep(local, At(k), syncs);
      ghost var l, d := Renamed(local, syncs), At(k).(tree := Some(t));
      local, trail := l, Longer(trail, if syncs then Ok(0) else FailAfter, Stage(l, d));
      trees := trees[k := t];
      assert trees - {k} == old(trees) - {k};
    }

    method RemoveEntry(k: Key, e: Entry)
      requires OnTrack() && k == key && InProgram(local.op, local.pc)
      requires local.pc == RemoveForRelease || local.pc == RemoveForGc
      requires k in trees && CanRemove(trees[k], e)
      modifies this`trees, this`trail
      ensures OnTrack() && OthersStay(k)
      ensures trees == old(trees)[k := Publish.Without(old(trees[k]), e)]
    {
      ghost var d := At(k).(tree := Some(Publish.Without(trees[k], e)));
      trail := Longer(trail, Remove(e), Stage(local, d));
      trees := trees[k := Publish.Without(trees[k], e)];
      assert trees - {k} == old(trees) - {k};
    }

    /** The operation is at its removal, and goes on at `next`. */
    ghost predicate Removing(next: Pc)
      reads this`local
    {
      && InProgram(local.op, local.pc)
      && ((local.pc == RemoveForRelease && next == PutReleased) || (local.pc == RemoveForGc && next == PutCollected))
    }

    method RemoveDirectory(k: Key, ghost next: Pc)
      requires OnTrack() && k == key && Removing(next)
      requires k in trees ==> Bare(trees[k])
      modifies this`trees, this`trail, this`local
      ensures OnTrack() && OthersStay(k)
      ensures trees == old(trees) - {k} && local == old(local).(pc := next)
    {
      ghost var l, d := local.(pc := next), At(k).(tree := None);
      local, trail := l, Longer(trail, Ok(0), Stage(l, d));
      trees := trees - {k};
      assert trees - {k} == old(trees) - {k};
    }

    ghost method StopRemoving()
      requires OnTrack() && InProgram(local.op, local.pc) && (local.pc == RemoveForRelease || local.pc == RemoveForGc)
      modifies this`trail, this`local
      ensures OnTrack() && local == old(local).(pc := Done)
    {
      Advance(Abort, local.(pc := Done));
    }

    /** How many entries the tree at k still has. */
    ghost function EntriesLeft(k: Key): nat
      reads this`trees
    {
      if k in trees then EntryCount(trees[k]) else 0
    }

    /** One round of the removal. */
    method RemoveNext(k: Key, ghost next: Pc)
      requires OnTrack() && k == key && Removing(next)
      requires k in trees && DirectoriesFit(trees[k]) && !Bare(trees[k])
      modifies this`trees, this`trail
      ensures OnTrack() && OthersStay(k)
      ensures k in trees && DirectoriesFit(trees[k]) && EntriesLeft(k) < old(EntriesLeft(k))
    {
      var e := PickEntry(trees[k]);
      RemovingCounts(trees[k], e);
      RemoveEntry(k, e);
    }

    /** The entries go one by one, in any order, and it can stop anywhere. */
    method RemoveEntries(k: Key, ghost next: Pc) returns (ok: bool)
      requires OnTrack() && k == key && Removing(next)
      requires k in trees ==> DirectoriesFit(trees[k])
      modifies this`faults, this`trees, this`trail
      ensures OnTrack() && OthersStay(k)
      ensures k in trees ==> DirectoriesFit(trees[k]) && (ok ==> Bare(trees[k]))
      ensures faults == old(faults) + if ok then 0 else 1
    {
      while k in trees && !Bare(trees[k])
        invariant OnTrack() && OthersStay(k)
        invariant k in trees ==> DirectoriesFit(trees[k])
        invariant faults == old(faults)
        decreases EntriesLeft(k)
      {
        var failed: bool := *;
        if failed {
          faults := faults + 1;
          return false;
        }
        RemoveNext(k, next);
      }
      return true;
    }

    /** os.RemoveAll: the entries, then the directory. */
    method RemoveAll(k: Key, ghost next: Pc) returns (ok: bool)
      requires OnTrack() && k == key && Removing(next)
      requires k in trees ==> DirectoriesFit(trees[k])
      modifies this`faults, this`trees, this`trail, this`local
      ensures OnTrack() && OthersStay(k)
      ensures if ok then k !in trees && local == old(local).(pc := next) else local == old(local).(pc := Done)
      ensures k in trees ==> DirectoriesFit(trees[k])
      ensures faults == old(faults) + if ok then 0 else 1
    {
      ok := RemoveEntries(k, next);
      if ok {
        RemoveDirectory(k, next);
      } else {
        StopRemoving();
      }
    }

    ghost method TakeFetched(m: Metadata)
      requires OnTrack() && local.op.EnsureOp? && local.pc == Pc.Fetch
      modifies this`trail, this`local
      ensures OnTrack()
      ensures local == old(local).(pc := PutDownloading, staged := NO_TREE.(metadata := Some(m), shardsDir := true))
    {
      Advance(Fetched(m), local.(pc := PutDownloading, staged := NO_TREE.(metadata := Some(m), shardsDir := true)));
    }

    ghost method TakeDownloaded(files: map<string, Bytes>)
      requires OnTrack() && local.op.EnsureOp? && local.pc == Pc.Download
      requires local.staged.metadata.Some? && GroundedFiles(local.staged.metadata.value.shards, files)
      modifies this`trail, this`local
      ensures OnTrack()
      ensures local == old(local).(pc := AppendWritten, staged := old(local).staged.(shards := files))
    {
      Advance(Downloaded(files), local.(pc := AppendWritten, staged := local.staged.(shards := files)));
    }

    ghost method TakeVerified()
      requires OnTrack() && local.op.EnsureOp? && local.pc == Pc.Publish
      requires At(key).tree.Some? && FullOk(At(key).tree.value)
      modifies this`trail, this`local
      ensures OnTrack() && local == old(local).(pc := AppendCommitted)
    {
      Advance(Ok(0), local.(pc := AppendCommitted));
    }

    ghost method TakeFailing(reason: Reason, message: Message)
      requires OnTrack() && FailPoint(local, At(key))
      modifies this`trail, this`local
      ensures OnTrack() && local == Failing(old(local), reason, message)
    {
      FailPointStep(local, At(key), reason, message);
      Advance(Answer.Fail(reason, message), Failing(local, reason, message));
    }

    // ---- Ensure -------------------------------------------------------------------------

    /** Ensure's fail: stores FAILED, if the store takes it. */
    method Fail(k: Key, rec: Record, reason: Reason, message: Message) returns (stored: bool)
      requires OnTrack() && k == key && local.op.EnsureOp? && local.rec == rec
      requires FailPoint(local, At(k))
      modifies this`faults, this`refused, this`records, this`trail, this`local
      ensures OnTrack() && local.pc == Done && local.op == old(local.op)
      ensures OthersStay(k)
      ensures stored ==> FailedAs(k, reason, message) && records[k].leases == rec.leases
      ensures !stored ==> records == old(records) && refused
      ensures faults == old(faults) + if stored then 0 else 1
    {
      TakeFailing(reason, message);
      stored := StoreFailed(k, rec.(status := Failed, lastError := reason, message := message));
    }

    method StoreFailed(k: Key, rec: Record) returns (stored: bool)
      requires OnTrack() && k == key && local.op.EnsureOp? && local.rec == rec && local.pc == PutFailed
      modifies this`faults, this`refused, this`records, this`trail, this`local
      ensures OnTrack() && local.pc == Done && local.op == old(local.op)
      ensures OthersStay(k)
      ensures stored ==> k in records && records[k] == rec.(updatedAt := records[k].updatedAt)
      ensures !stored ==> records == old(records) && refused
      ensures faults == old(faults) + if stored then 0 else 1
    {
      var now: int := *;
      stored := Put(k, rec, now, Done);
    }

    /** From the last marker to the return: the record turns READY and the journal goes. */
    method Commit(k: Key, rec: Record, bytes: int) returns (status: Status)
      requires OnTrack() && k == key && local.op.EnsureOp? && local.rec == rec && local.pc == AppendCommitted
      requires MetadataBytes(local.staged) == bytes && Leases(k) == rec.leases && k in trees
      modifies this`faults, this`refused, this`records, this`journals, this`trail, this`local
      ensures OnTrack() && local.pc == Done && local.op == old(local.op)
      ensures OthersStay(k)
      ensures Leases(k) == rec.leases
      ensures status == READY ==> FreshlyReady(k, bytes) && NoMarkers(k)
      ensures status == READY || (status == ERROR && records == old(records))
      ensures if status == READY then faults == old(faults) else faults > old(faults)
    {
      var marked := Append(k, Committed, local.(pc := PutReady), local.(pc := Done));
      if !marked { return ERROR; }
      var now: int := *;
      var stored := Put(k, Published(rec, bytes), now, Pc.DropJournal);
      if !stored { return ERROR; }
      DropJournal(k);
      return READY;
    }

    /** The rename and the sync of its directory; a sync that fails leaves the tree in place. */
    method RenameAndSync(k: Key, rec: Record, staged: Tree) returns (synced: bool)
      requires OnTrack() && k == key && local.op.EnsureOp? && local.rec == rec && local.pc == Pc.Publish
      requires local.staged == staged && Leases(k) == rec.leases && k !in trees
      modifies this`faults, this`refused, this`trees, this`records, this`trail, this`local
      ensures OnTrack() && local.op == old(local.op) && OthersStay(k)
      ensures trees == old(trees)[k := staged] && Leases(k) == rec.leases
      ensures if synced then local == old(local).(pc := AppendCommitted) else local.pc == Done
      ensures synced ==> records == old(records)
      ensures !synced ==> FailedAs(k, FilesystemError, SyncText) || (refused && records == old(records))
      ensures if synced then faults == old(faults) else faults > old(faults)
    {
      synced := *;
      Rename(k, staged, synced);
      if !synced {
        faults := faults + 1;
        var _ := StoreFailed(k, rec.(status := Failed, lastError := FilesystemError, message := SyncText));
      }
    }

    /** The rename to a free final path. */
    method Move(k: Key, rec: Record, staged: Tree) returns (status: Status)
      requires OnTrack() && k == key && local.op.EnsureOp? && local.rec == rec && local.pc == Pc.Publish
      requires local.staged == staged && Leases(k) == rec.leases && k !in trees
      modifies this`faults, this`refused, this`trees, this`records, this`trail, this`local
      ensures OnTrack() && local.op == old(local.op) && OthersStay(k)
      ensures trees == old(trees) || trees == old(trees)[k := staged]
      ensures Leases(k) == rec.leases
      ensures status == READY ==> local == old(local).(pc := AppendCommitted) && k in trees && records == old(records)
      ensures status != READY ==> local.pc == Done && status == FAILED
      ensures status == FAILED ==> PublishFailed(k, old(trees)) || (refused && records == old(records))
      ensures if status == READY then faults == old(faults) else faults > old(faults)
    {
      var renamed: bool := *;
      if !renamed {
        faults := faults + 1;
        var _ := Fail(k, rec, RenameFailed, RenameText);
        return FAILED;
      }
      var synced := RenameAndSync(k, rec, staged);
      return if synced then READY else FAILED;
    }

    /** What is at the final path already is kept if it verifies. */
    method KeepPublished(k: Key, rec: Record) returns (status: Status)
      requires OnTrack() && k == key && local.op.EnsureOp? && local.rec == rec && local.pc == Pc.Publish
      requires Leases(k) == rec.leases && k in trees
      modifies this`faults, this`refused, this`records, this`trail, this`local
      ensures OnTrack() && local.op == old(local.op) && OthersStay(k)
      ensures Leases(k) == rec.leases
      ensures status == READY ==>
                local == old(local).(pc := AppendCommitted) && FullOk(trees[k]) && records == old(records)
      ensures status != READY ==> local.pc == Done && status == FAILED
      ensures status == FAILED ==> PublishFailed(k, trees) || (refused && records == old(records))
      ensures faults >= old(faults) && (status == READY ==> faults == old(faults))
      ensures status != READY ==> !FullOk(trees[k])
    {
      var v := VerifyPublishedPath(Some(Some(trees[k])));
      if v != Valid {
        VerdictRefutes(trees[k], v);
        var _ := Fail(k, rec, ReasonOf(v), OccupiedText);
        return FAILED;
      }
      TakeVerified();
      return READY;
    }

    /** The rename, or the check of what is already at the final path; then the commit. */
    method PublishStaged(k: Key, rec: Record, staged: Tree) returns (status: Status)
      requires OnTrack() && k == key && local.op.EnsureOp? && local.rec == rec && local.pc == Pc.Publish
      requires local.staged == staged && Leases(k) == rec.leases
      modifies this`faults, this`refused, this`trees, this`records, this`journals, this`trail, this`local
      ensures OnTrack() && local.pc == Done && local.op == old(local.op)
      ensures OthersStay(k)
      ensures trees == old(trees) || (k !in old(trees) && trees == old(trees)[k := staged])
      ensures Leases(k) == rec.leases
      ensures status == READY ==> FreshlyReady(k, MetadataBytes(staged)) && NoMarkers(k)
      ensures status == READY ==> k in trees && (k in old(trees) ==> FullOk(trees[k]))
      ensures status == FAILED ==> PublishFailed(k, old(trees)) || (refused && records == old(records))
      ensures status == ERROR ==> records == old(records)
      ensures faults >= old(faults) && (status == READY ==> faults == old(faults))
      ensures status == ERROR ==> faults > old(faults)
      ensures status == FAILED ==> faults > old(faults) || (k in old(trees) && !FullOk(old(trees)[k]))
    {
      if k in trees {
        status := CommitPublished(k, rec, staged);
      } else {
        status := CommitMoved(k, rec, staged);
      }
    }

    method CommitPublished(k: Key, rec: Record, staged: Tree) returns (status: Status)
      requires OnTrack() && k == key && local.op.EnsureOp? && local.rec == rec && local.pc == Pc.Publish
      requires local.staged == staged && Leases(k) == rec.leases && k in trees
      modifies this`faults, this`refused, this`records, this`journals, this`trail, this`local
      ensures OnTrack() && local.pc == Done && local.op == old(local.op)
      ensures OthersStay(k) && Leases(k) == rec.leases
      ensures status == READY ==> FreshlyReady(k, MetadataBytes(staged)) && NoMarkers(k) && FullOk(trees[k])
      ensures status == FAILED ==> PublishFailed(k, trees) || (refused && records == old(records))
      ensures status == ERROR ==> records == old(records)
      ensures faults >= old(faults) && (status == READY ==> faults == old(faults))
      ensures status == ERROR ==> faults > old(faults)
      ensures status == FAILED ==> faults > old(faults) || (k in old(trees) && !FullOk(old(trees)[k]))
    {
      status := KeepPublished(k, rec);
      if status == READY {
        status := Commit(k, rec, MetadataBytes(staged));
      }
    }

    method CommitMoved(k: Key, rec: Record, staged: Tree) returns (status: Status)
      requires OnTrack() && k == key && local.op.EnsureOp? && local.rec == rec && local.pc == Pc.Publish
      requires local.staged == staged && Leases(k) == rec.leases && k !in trees
      modifies this`faults, this`refused, this`trees, this`records, this`journals, this`trail, this`local
      ensures OnTrack() && local.pc == Done && local.op == old(local.op)
      ensures OthersStay(k) && Leases(k) == rec.leases
      ensures trees == old(trees) || trees == old(trees)[k := staged]
      ensures status == READY ==> FreshlyReady(k, MetadataBytes(staged)) && NoMarkers(k) && k in trees
      ensures status == FAILED ==> PublishFailed(k, old(trees)) || (refused && records == old(records))
      ensures status == ERROR ==> records == old(records)
      ensures if status == READY then faults == old(faults) else faults > old(faults)
    {
      status := Move(k, rec, staged);
      if status == READY {
        status := Commit(k, rec, MetadataBytes(staged));
      }
    }

    /** From the finished download to the two marker files in the staging directory. */
    method WriteStaged(k: Key, rec: Record, ghost l: Local) returns (status: Status, rec': Record)
      requires OnTrack() && k == key && local == l && l.op.EnsureOp? && l.rec == rec && l.pc == AppendWritten
      requires rec.status == Downloading && Leases(k) == rec.leases && InProgress(k)
      modifies this`faults, this`refused, this`records, this`journals, this`trail, this`local
      ensures OnTrack() && local.op == l.op
      ensures OthersStay(k)
      ensures Leases(k) == rec.leases
      ensures status == READY ==> local == l.(pc := Pc.Publish, rec := rec', staged := l.staged.(ready := true))
      ensures status == READY ==> rec'.leases == rec.leases
      ensures status != READY ==> local.pc == Done
      ensures status == FAILED ==> StagingFailed(k) || (refused && InProgress(k))
      ensures status != FAILED ==> InProgress(k)
      ensures if status == READY then faults == old(faults) else faults > old(faults)
    {
      rec' := rec;
      var ok := MarkBlobs(k, local);
      if !ok { return ERROR, rec'; }
      ok, rec' := EnterPublishing(k, rec, local);
      if !ok { return ERROR, rec'; }
      status := WriteMarkers(k, rec', local);
    }

    /** The markers for the written and the verified blobs. */
    method MarkBlobs(k: Key, ghost l: Local) returns (ok: bool)
      requires OnTrack() && k == key && local == l && l.op.EnsureOp? && l.pc == AppendWritten
      modifies this`faults, this`journals, this`trail, this`local
      ensures OnTrack() && OthersStay(k) && records == old(records)
      ensures local == if ok then l.(pc := PutVerifying) else l.(pc := Done)
      ensures if ok then faults == old(faults) else faults > old(faults)
    {
      ok := Append(k, BlobsWritten, local.(pc := AppendVerified), local.(pc := Done));
      if !ok { return; }
      ok := Append(k, BlobsVerified, local.(pc := PutVerifying), local.(pc := Done));
    }

    /** VERIFYING, then PUBLISHING. */
    method EnterPublishing(k: Key, rec: Record, ghost l: Local) returns (ok: bool, rec': Record)
      requires OnTrack() && k == key && local == l && l.op.EnsureOp? && l.rec == rec && l.pc == PutVerifying
      requires rec.status == Downloading && Leases(k) == rec.leases && InProgress(k)
      modifies this`faults, this`refused, this`records, this`trail, this`local
      ensures OnTrack() && OthersStay(k) && InProgress(k)
      ensures Leases(k) == rec.leases == rec'.leases
      ensures ok ==> k in records && records[k].status == Publishing
      ensures if ok then local == l.(pc := WriteMetadata, rec := rec') else local.op == l.op && local.pc == Done
      ensures if ok then faults == old(faults) else faults > old(faults)
    {
      assert TransitionState(rec.status, Verifying);
      var now: int := *;
      rec' := rec.(status := Verifying);
      ok := Put(k, rec', now, PutPublishing);
      if !ok { return; }
      assert TransitionState(rec'.status, Publishing);
      now := *;
      rec' := rec'.(status := Publishing);
      ok := Put(k, rec', now, WriteMetadata);
    }

    /** metadata/model.json and READY, each before its marker. */
    method WriteMarkers(k: Key, rec: Record, ghost l: Local) returns (status: Status)
      requires OnTrack() && k == key && local == l && l.op.EnsureOp? && l.rec == rec && l.pc == WriteMetadata
      requires Leases(k) == rec.leases && InProgress(k)
      modifies this`faults, this`refused, this`records, this`journals, this`trail, this`local
      ensures OnTrack() && local.op == l.op
      ensures OthersStay(k)
      ensures Leases(k) == rec.leases
      ensures status == READY ==> local == l.(pc := Pc.Publish, staged := l.staged.(ready := true))
      ensures status != READY ==> local.pc == Done
      ensures status == FAILED ==> StagingFailed(k) || (refused && InProgress(k))
      ensures status != FAILED ==> InProgress(k)
      ensures if status == READY then faults == old(faults) else faults > old(faults)
    {
      status := WriteMetadataFile(k, rec, local);
      if status != READY { return; }
      status := WriteReadyFile(k, rec, local);
    }

    method WriteMetadataFile(k: Key, rec: Record, ghost l: Local) returns (status: Status)
      requires OnTrack() && k == key && local == l && l.op.EnsureOp? && l.rec == rec && l.pc == WriteMetadata
      requires Leases(k) == rec.leases && InProgress(k)
      modifies this`faults, this`refused, this`records, this`journals, this`trail, this`local
      ensures OnTrack() && local.op == l.op && OthersStay(k)
      ensures Leases(k) == rec.leases
      ensures if status == READY then local == l.(pc := WriteReady) else local.pc == Done
      ensures status == FAILED ==> StagingFailed(k) || (refused && InProgress(k))
      ensures status != FAILED ==> InProgress(k)
      ensures if status == READY then faults == old(faults) else faults > old(faults)
    {
      var written: bool := *;
      if !written {
        faults := faults + 1;
        var _ := Fail(k, rec, FilesystemError, MetadataText);
        return FAILED;
      }
      var ok := Append(k, MetadataWritten, local.(pc := WriteReady), local.(pc := Done));
      return if ok then READY else ERROR;
    }

    method WriteReadyFile(k: Key, rec: Record, ghost l: Local) returns (status: Status)
      requires OnTrack() && k == key && local == l && l.op.EnsureOp? && l.rec == rec && l.pc == WriteReady
      requires Leases(k) == rec.leases && InProgress(k)
      modifies this`faults, this`refused, this`records, this`journals, this`trail, this`local
      ensures OnTrack() && local.op == l.op && OthersStay(k)
      ensures Leases(k) == rec.leases
      ensures if status == READY then local == ReadyStaged(l).(pc := Pc.Publish) else local.pc == Done
      ensures status == FAILED ==> StagingFailed(k) || (refused && InProgress(k))
      ensures status != FAILED ==> InProgress(k)
      ensures if status == READY then faults == old(faults) else faults > old(faults)
    {
      var written: bool := *;
      if !written {
        faults := faults + 1;
        var _ := Fail(k, rec, FilesystemError, ReadyText);
        return FAILED;
      }
      var ok := Append(k, ReadyWritten, ReadyStaged(local).(pc := Pc.Publish), ReadyStaged(local).(pc := Done));
      return if ok then READY else ERROR;
    }

    /** The RESOLVING record and the first marker. */
    method OpenTransaction(k: Key, rec: Record, ghost l: Local) returns (ok: bool)
      requires OnTrack() && k == key && local == l && l.op.EnsureOp? && l.rec == rec && l.pc == PutResolving
      modifies this`faults, this`refused, this`records, this`journals, this`trail, this`local
      ensures OnTrack() && OthersStay(k)
      ensures Leases(k) == rec.leases || (!ok && Leases(k) == old(Leases(k)))
      ensures rec.status == Resolving ==> InProgress(k) || (!ok && records == old(records))
      ensures local == if ok then l.(pc := Pc.Fetch) else l.(pc := Done)
      ensures if ok then faults == old(faults) else faults > old(faults)
    {
      var now: int := *;
      ok := Put(k, rec, now, AppendStarted);
      if !ok { return; }
      ok := Append(k, Started, local.(pc := Pc.Fetch), local.(pc := Done));
    }

    /** From the RESOLVING record to the finished download. */
    method FetchAndDownload(k: Key, rec: Record, fetch: Fetch, download: Download, ghost l: Local)
      returns (status: Status, rec': Record)
      requires OnTrack() && k == key && local == l && l.op.EnsureOp? && l.rec == rec && l.pc == PutResolving
      requires rec.status == Resolving && DownloadFits(fetch, download)
      modifies this`faults, this`refused, this`records, this`journals, this`trail, this`local
      ensures OnTrack() && local.op == l.op
      ensures OthersStay(k)
      ensures Leases(k) == old(Leases(k)) || Leases(k) == rec.leases
      ensures status == READY ==> fetch.Profile? && download.Files? && local.pc == AppendWritten && local.rec == rec'
      ensures status == READY ==> local.staged == Staged(fetch.metadata, download.files).(ready := false)
      ensures status == READY ==> rec'.status == Downloading && rec'.leases == rec.leases == Leases(k)
      ensures status != READY ==> local.pc == Done
      ensures status == READY ==> InProgress(k)
      ensures status == FAILED ==> NothingFetched(k, fetch, download) || (refused && InProgress(k))
      ensures status == ERROR ==> InProgress(k) || records == old(records)
      ensures faults >= old(faults) && (status == READY ==> faults == old(faults))
      ensures status == ERROR ==> faults > old(faults)
      ensures status == FAILED ==> !fetch.Profile? || !download.Files?
    {
      rec' := rec;
      var ok := OpenTransaction(k, rec, l);
      if !ok { return ERROR, rec'; }
      if !fetch.Profile? {
        var _ := Fail(k, rec', fetch.reason, if fetch.Lacking? then RefusedText else FetchText);
        return FAILED, rec';
      }
      TakeFetched(fetch.metadata);
      status, rec' := DownloadBlobs(k, rec, download, local);
    }

    /** DOWNLOADING, and the download. */
    method DownloadBlobs(k: Key, rec: Record, download: Download, ghost l: Local)
      returns (status: Status, rec': Record)
      requires OnTrack() && k == key && local == l && l.op.EnsureOp? && l.rec == rec && l.pc == PutDownloading
      requires rec.status == Resolving && Leases(k) == rec.leases && l.staged.metadata.Some? && InProgress(k)
      requires download.Files? ==> GroundedFiles(l.staged.metadata.value.shards, download.files)
      modifies this`faults, this`refused, this`records, this`trail, this`local
      ensures OnTrack() && local.op == l.op && OthersStay(k)
      ensures Leases(k) == rec.leases == rec'.leases
      ensures status == READY ==> download.Files? && rec'.status == Downloading
      ensures status == READY ==>
                local == l.(pc := AppendWritten, rec := rec', staged := l.staged.(shards := download.files))
      ensures status != READY ==> local.pc == Done
      ensures status == FAILED ==> download.DownloadFailed?
      ensures status == FAILED ==> FailedAs(k, download.reason, DownloadText) || (refused && InProgress(k))
      ensures status != FAILED ==> InProgress(k)
      ensures faults >= old(faults) && (status == READY ==> faults == old(faults))
      ensures status == ERROR ==> faults > old(faults)
      ensures status == FAILED ==> !download.Files?
    {
      assert TransitionState(rec.status, Downloading);
      var now: int := *;
      rec' := rec.(status := Downloading);
      var ok := Put(k, rec', now, Pc.Download);
      if !ok { return ERROR, rec'; }
      if download.DownloadFailed? {
        var _ := Fail(k, rec', download.reason, DownloadText);
        return FAILED, rec';
      }
      TakeDownloaded(download.files);
      return READY, rec';
    }

    /** Ensure finds the model published: its record gets the lease. */
    method Reuse(k: Key, holder: string, existing: Record) returns (status: Status)
      requires OnTrack() && k == key && local == Start(EnsureOp(holder))
      requires Holds(k, existing) && existing.status == Ready && existing.hasPath
      requires k in trees && FullOk(trees[k])
      modifies this`faults, this`refused, this`records, this`trail, this`local
      ensures OnTrack() && local.pc == Done && local.op == old(local.op) && OthersStay(k)
      ensures k in records && existing.leases <= records[k].leases && ReadyAt(k)
      ensures status == READY && holder != "" ==> HasHolder(records[k].leases, holder)
      ensures status == READY ==> records[k].bytes == existing.bytes
      ensures status == READY ==> records[k].lastError == NoReason && records[k].message == NoMessage
      ensures status == READY || (status == ERROR && records == old(records))
      ensures if status == READY then faults == old(faults) else faults > old(faults)
    {
      var now: int := *;
      var rec := AcquireLease(existing, holder, now);
      AcquiredLeases(existing, holder, now);
      rec := rec.(lastError := NoReason, message := NoMessage);
      TakeReused(holder, rec, now);
      var ok := Put(k, rec, now, Done);
      return if ok then READY else ERROR;
    }

    ghost method TakeReused(holder: string, rec: Record, now: int)
      requires OnTrack() && local == Start(EnsureOp(holder)) && At(key).record.Some? && At(key).tree.Some?
      requires At(key).record.value.status == Ready && At(key).record.value.hasPath && FullOk(At(key).tree.value)
      requires rec == Reused(At(key).record.value, holder, now)
      modifies this`trail, this`local
      ensures OnTrack() && local == old(local).(pc := PutReused, rec := rec)
    {
      Advance(Ok(now), local.(pc := PutReused, rec := rec));
    }

    ghost method TakeResolving(holder: string, rec: Record, now: int)
      requires OnTrack() && local == Start(EnsureOp(holder)) && !IsPublished(At(key))
      requires rec == Resolved(At(key), holder, now)
      modifies this`trail, this`local
      ensures OnTrack() && local == old(local).(pc := PutResolving, rec := rec)
    {
      Advance(Ok(now), local.(pc := PutResolving, rec := rec));
    }

    ghost method TakeUnreadable()
      requires OnTrack() && local.pc == Begin
      modifies this`trail, this`local
      ensures OnTrack() && local == old(local).(pc := Done)
    {
      Advance(Abort, local.(pc := Done));
    }

    /** A fresh transaction for a model that is not published, or not soundly. */
    method Transact(k: Key, holder: string, fetch: Fetch, download: Download) returns (status: Status)
      requires OnTrack() && k == key && local == Start(EnsureOp(holder)) && !IsPublished(At(k))
      requires DownloadFits(fetch, download)
      modifies this`faults, this`refused, this`trees, this`records, this`journals, this`trail, this`local
      ensures OnTrack() && local.pc == Done && local.op == old(local.op) && OthersStay(k)
      ensures TreeStays(k, old(trees), fetch, download)
      ensures old(Leases(k)) <= Leases(k)
      ensures status == READY ==> fetch.Profile? && FreshlyReady(k, fetch.metadata.bytes) && NoMarkers(k)
      ensures status == READY && holder != "" ==> HasHolder(records[k].leases, holder)
      ensures status == READY ==> k in trees && (k in old(trees) ==> FullOk(trees[k]))
      ensures status == FAILED ==> GaveUp(k, old(trees), fetch, download) || (refused && InProgress(k))
      ensures status == ERROR ==> InProgress(k) || records == old(records)
      ensures faults >= old(faults) && (status == ERROR ==> faults > old(faults))
      ensures status == FAILED ==> faults > old(faults) || !fetch.Profile? || !download.Files?
                                   || (k in old(trees) && !FullOk(old(trees)[k]))
    {
      var rec := Resolve(k, holder);
      status := RunTransaction(k, rec, fetch, download, local);
    }

    /** The RESOLVING record: the stored leases and the holder's. */
    method Resolve(k: Key, holder: string) returns (rec: Record)
      requires OnTrack() && k == key && local == Start(EnsureOp(holder)) && !IsPublished(At(k))
      modifies this`trail, this`local
      ensures OnTrack() && local == old(local).(pc := PutResolving, rec := rec)
      ensures rec.status == Resolving && Leases(k) <= rec.leases
      ensures holder != "" ==> HasHolder(rec.leases, holder)
    {
      var now: int := *;
      rec := NO_RECORD.(leases := if k in records then records[k].leases else [], updatedAt := now);
      AcquiredLeases(rec, holder, now);
      rec := AcquireLease(rec, holder, now);
      TakeResolving(holder, rec, now);
    }

    /** Everything from the first put to the return. */
    method RunTransaction(k: Key, rec: Record, fetch: Fetch, download: Download, ghost l: Local)
      returns (status: Status)
      requires OnTrack() && k == key && local == l && l.op.EnsureOp? && l.rec == rec && l.pc == PutResolving
      requires rec.status == Resolving && DownloadFits(fetch, download)
      modifies this`faults, this`refused, this`trees, this`records, this`journals, this`trail, this`local
      ensures OnTrack() && local.pc == Done && local.op == l.op && OthersStay(k)
      ensures TreeStays(k, old(trees), fetch, download)
      ensures Leases(k) == old(Leases(k)) || Leases(k) == rec.leases
      ensures status == READY ==> fetch.Profile? && FreshlyReady(k, fetch.metadata.bytes) && NoMarkers(k)
      ensures status == READY ==> records[k].leases == rec.leases
      ensures status == READY ==> k in trees && (k in old(trees) ==> FullOk(trees[k]))
      ensures status == FAILED ==> GaveUp(k, old(trees), fetch, download) || (refused && InProgress(k))
      ensures status == ERROR ==> InProgress(k) || records == old(records)
      ensures faults >= old(faults) && (status == ERROR ==> faults > old(faults))
      ensures status == FAILED ==> faults > old(faults) || !fetch.Profile? || !download.Files?
                                   || (k in old(trees) && !FullOk(old(trees)[k]))
    {
      var staged;
      status, staged := StageModel(k, rec, fetch, download, local);
      if status != READY { return; }
      status := PublishStaged(k, staged, Staged(fetch.metadata, download.files));
    }

    /** From the RESOLVING record to a complete staging directory. */
    method StageModel(k: Key, rec: Record, fetch: Fetch, download: Download, ghost l: Local)
      returns (status: Status, rec': Record)
      requires OnTrack() && k == key && local == l && l.op.EnsureOp? && l.rec == rec && l.pc == PutResolving
      requires rec.status == Resolving && DownloadFits(fetch, download)
      modifies this`faults, this`refused, this`records, this`journals, this`trail, this`local
      ensures OnTrack() && local.op == l.op && OthersStay(k)
      ensures Leases(k) == old(Leases(k)) || Leases(k) == rec.leases
      ensures status == READY ==> fetch.Profile? && download.Files? && local.pc == Pc.Publish && local.rec == rec'
      ensures status == READY ==> local.staged == Staged(fetch.metadata, download.files)
      ensures status == READY ==> Leases(k) == rec'.leases == rec.leases && InProgress(k)
      ensures status != READY ==> local.pc == Done
      ensures status == FAILED ==>
                NothingFetched(k, fetch, download) || (refused && InProgress(k))
                || (fetch.Profile? && download.Files? && StagingFailed(k))
      ensures status == ERROR ==> InProgress(k) || records == old(records)
      ensures faults >= old(faults) && (status == READY ==> faults == old(faults))
      ensures status == ERROR ==> faults > old(faults)
      ensures status == FAILED ==> faults > old(faults) || !fetch.Profile? || !download.Files?
    {
      status, rec' := FetchAndDownload(k, rec, fetch, download, l);
      if status != READY { return; }
      status, rec' := WriteStaged(k, rec', local);
    }

    /** READY, and the full verification of its path passes. */
    method CheckPublished(k: Key, existing: Record) returns (published: bool)
      requires Holds(k, existing)
      ensures published <==> IsPublished(At(k))
    {
      if existing.status != Ready { return false; }
      var path := if existing.hasPath then Some(if k in trees then Some(trees[k]) else None) else None;
      var v := VerifyPublishedPath(path);
      return v == Valid;
    }

    /** Ensure, under the model's lock. */
    method Ensure(k: Key, holder: string, fetch: Fetch, download: Download) returns (status: Status)
      requires DownloadFits(fetch, download)
      modifies this
      ensures Finished(k, EnsureOp(holder), old(At(k))) && OthersStay(k)
      ensures k in old(trees) ==> k in trees && trees[k] == old(trees[k])
      ensures k in trees && k !in old(trees) ==>
                fetch.Profile? && download.Files? && trees[k] == Tree(true, Some(fetch.metadata), true, download.files)
      ensures old(Leases(k)) <= Leases(k)
      ensures status == READY ==> if old(PublishedAt(k)) then ReusedAt(k, old(records[k].bytes))
                                  else fetch.Profile? && FreshlyReady(k, fetch.metadata.bytes) && NoMarkers(k)
      ensures status == FAILED ==> !old(PublishedAt(k))
                                   && (GaveUp(k, old(trees), fetch, download) || (refused && InProgress(k)))
      ensures status == ERROR ==> records == old(records) || (!old(PublishedAt(k)) && InProgress(k))
      ensures status != READY && ReadyAt(k) ==> records == old(records)
      ensures status == READY && holder != "" ==> HasHolder(records[k].leases, holder)
      ensures status == READY ==> k in trees && (k in old(trees) ==> FullOk(trees[k]))
      ensures faults >= old(faults) && (status == ERROR ==> faults > old(faults))
      ensures status == FAILED ==> faults > old(faults) || !fetch.Profile? || !download.Files?
                                   || (k in old(trees) && !FullOk(old(trees)[k]))
    {
      Enter(k, EnsureOp(holder));
      status := EnsureEntered(k, holder, fetch, download);
    }

    /** The record is read, if the store lets it be. */
    method EnsureEntered(k: Key, holder: string, fetch: Fetch, download: Download) returns (status: Status)
      requires OnTrack() && k == key && local == Start(EnsureOp(holder)) && DownloadFits(fetch, download)
      modifies this`faults, this`refused, this`trees, this`records, this`journals, this`trail, this`local
      ensures OnTrack() && local.pc == Done && OthersStay(k)
      ensures TreeStays(k, old(trees), fetch, download)
      ensures old(Leases(k)) <= Leases(k)
      ensures status == READY ==> if old(PublishedAt(k)) then ReusedAt(k, old(records[k].bytes))
                                  else fetch.Profile? && FreshlyReady(k, fetch.metadata.bytes) && NoMarkers(k)
      ensures status == FAILED ==> !old(PublishedAt(k))
                                   && (GaveUp(k, old(trees), fetch, download) || (refused && InProgress(k)))
      ensures status == ERROR ==> records == old(records) || (!old(PublishedAt(k)) && InProgress(k))
      ensures status == READY && holder != "" ==> HasHolder(records[k].leases, holder)
      ensures status == READY ==> k in trees && (k in old(trees) ==> FullOk(trees[k]))
      ensures faults >= old(faults) && (status == ERROR ==> faults > old(faults))
      ensures status == FAILED ==> faults > old(faults) || !fetch.Profile? || !download.Files?
                                   || (k in old(trees) && !FullOk(old(trees)[k]))
    {
      var readable: bool := *;
      if !readable {
        TakeUnreadable();
        faults := faults + 1;
        return ERROR;
      }
      status := EnsureReadable(k, holder, fetch, download);
    }

    /** Ensure once the record has been read. */
    method EnsureReadable(k: Key, holder: string, fetch: Fetch, download: Download) returns (status: Status)
      requires OnTrack() && k == key && local == Start(EnsureOp(holder)) && DownloadFits(fetch, download)
      modifies this`faults, this`refused, this`trees, this`records, this`journals, this`trail, this`local
      ensures OnTrack() && local.pc == Done && OthersStay(k)
      ensures TreeStays(k, old(trees), fetch, download)
      ensures old(Leases(k)) <= Leases(k)
      ensures status == READY ==> if old(PublishedAt(k)) then ReusedAt(k, old(records[k].bytes))
                                  else fetch.Profile? && FreshlyReady(k, fetch.metadata.bytes) && NoMarkers(k)
      ensures status == FAILED ==> !old(PublishedAt(k))
                                   && (GaveUp(k, old(trees), fetch, download) || (refused && InProgress(k)))
      ensures status == ERROR ==> records == old(records) || (!old(PublishedAt(k)) && InProgress(k))
      ensures status == READY && holder != "" ==> HasHolder(records[k].leases, holder)
      ensures status == READY ==> k in trees && (k in old(trees) ==> FullOk(trees[k]))
      ensures faults >= old(faults) && (status == ERROR ==> faults > old(faults))
      ensures status == FAILED ==> faults > old(faults) || !fetch.Profile? || !download.Files?
                                   || (k in old(trees) && !FullOk(old(trees)[k]))
    {
      var published := FindPublished(k);
      if published {
        status := Reuse(k, holder, records[k]);
      } else {
        status := Transact(k, holder, fetch, download);
      }
    }

    /** Whether Ensure can reuse what the store and the final path hold. */
    method FindPublished(k: Key) returns (published: bool)
      ensures published <==> IsPublished(At(k))
    {
      if k !in records { return false; }
      var existing := records[k];
      published := CheckPublished(k, existing);
      assert existing.status == Failed ==> TransitionState(existing.status, Resolving);
    }

    // ---- Release ------------------------------------------------------------------------

    ghost method TakeRelease(holder: string, cleanup: bool, now: int, r: Record, next: Pc)
      requires OnTrack() && local == Start(ReleaseOp(holder, cleanup)) && At(key).record.Some?
      requires r == AfterRelease(At(key).record.value, holder, cleanup, now)
      requires next == if r.leases == [] && cleanup && At(key).record.value.hasPath && At(key).tree.Some?
        then RemoveForRelease else PutReleased
      modifies this`trail, this`local
      ensures OnTrack() && local == old(local).(pc := next, rec := r)
    {
      Advance(Ok(now), local.(pc := next, rec := r));
    }

    ghost method TakeUnknown(o: Op)
      requires OnTrack() && local == Start(o) && At(key).record.None? && !o.EnsureOp?
      modifies this`trail, this`local
      ensures OnTrack() && local == old(local).(pc := Done)
    {
      Advance(Ok(0), local.(pc := Done));
    }

    /** Release, under the model's lock. */
    method Release(k: Key, holder: string, cleanup: bool) returns (answer: ReleaseAnswer)
      requires k in trees ==> DirectoriesFit(trees[k])
      modifies this
      ensures Finished(k, ReleaseOp(holder, cleanup), old(At(k))) && OthersStay(k)
      ensures journals == old(journals)
      ensures k !in old(records) ==>
                trees == old(trees) && records == old(records) && (answer == Refused || answer == Answered(Released, 0))
      ensures answer == Refused ==> records == old(records)
      ensures answer.Answered? && k in old(records) ==>
                k in records && AnswerFits(old(records[k]), holder, cleanup, records[k], answer)
      ensures answer.Answered? && k in old(records) && records[k].leases == [] && cleanup ==>
                old(records[k].hasPath) ==> k !in trees
      ensures trees != old(trees) ==>
                cleanup && k in old(records) && Records.Without(old(records[k].leases), holder) == []
      ensures faults >= old(faults)
      ensures answer == Refused ==> TrimSpace(holder) == "" || faults > old(faults)
    {
      Enter(k, ReleaseOp(holder, cleanup));
      answer := ReleaseEntered(k, holder, cleanup);
    }

    /** An unnamed holder is refused before anything is read. */
    method ReleaseEntered(k: Key, holder: string, cleanup: bool) returns (answer: ReleaseAnswer)
      requires OnTrack() && k == key && local == Start(ReleaseOp(holder, cleanup))
      requires k in trees ==> DirectoriesFit(trees[k])
      modifies this`faults, this`refused, this`trees, this`records, this`trail, this`local
      ensures OnTrack() && local.pc == Done && OthersStay(k)
      ensures k !in old(records) ==>
                trees == old(trees) && records == old(records) && (answer == Refused || answer == Answered(Released, 0))
      ensures answer == Refused ==> records == old(records)
      ensures answer.Answered? && k in old(records) ==>
                k in records && AnswerFits(old(records[k]), holder, cleanup, records[k], answer)
      ensures answer.Answered? && k in old(records) && records[k].leases == [] && cleanup ==>
                old(records[k].hasPath) ==> k !in trees
      ensures trees != old(trees) ==>
                cleanup && k in old(records) && Records.Without(old(records[k].leases), holder) == []
      ensures faults >= old(faults)
      ensures answer == Refused ==> TrimSpace(holder) == "" || faults > old(faults)
    {
      if TrimSpace(holder) == "" {
        TakeUnreadable();
        answer := Refused;
      } else {
        answer := ReleaseNamed(k, holder, cleanup);
      }
    }

    method ReleaseNamed(k: Key, holder: string, cleanup: bool) returns (answer: ReleaseAnswer)
      requires OnTrack() && k == key && local == Start(ReleaseOp(holder, cleanup)) && holder != ""
      requires k in trees ==> DirectoriesFit(trees[k])
      modifies this`faults, this`refused, this`trees, this`records, this`trail, this`local
      ensures OnTrack() && local.pc == Done && OthersStay(k)
      ensures k !in old(records) ==>
                trees == old(trees) && records == old(records) && (answer == Refused || answer == Answered(Released, 0))
      ensures answer == Refused ==> records == old(records)
      ensures answer.Answered? && k in old(records) ==>
                k in records && AnswerFits(old(records[k]), holder, cleanup, records[k], answer)
      ensures answer.Answered? && k in old(records) && records[k].leases == [] && cleanup ==>
                old(records[k].hasPath) ==> k !in trees
      ensures trees != old(trees) ==>
                cleanup && k in old(records) && Records.Without(old(records[k].leases), holder) == []
      ensures faults >= old(faults)
      ensures answer == Refused ==> faults > old(faults)
    {
      var readable: bool := *;
      if !readable {
        TakeUnreadable();
        faults := faults + 1;
        return Refused;
      }
      if k !in records {
        TakeUnknown(ReleaseOp(holder, cleanup));
        return Answered(Released, 0);
      }
      answer := ReleaseKnown(k, holder, cleanup, records[k]);
    }

    method ReleaseKnown(k: Key, holder: string, cleanup: bool, existing: Record) returns (answer: ReleaseAnswer)
      requires OnTrack() && k == key && local == Start(ReleaseOp(holder, cleanup)) && holder != ""
      requires Holds(k, existing) && (k in trees ==> DirectoriesFit(trees[k]))
      modifies this`faults, this`refused, this`trees, this`records, this`trail, this`local
      ensures OnTrack() && local.pc == Done && OthersStay(k)
      ensures answer == Refused ==> records == old(records)
      ensures answer.Answered? ==> k in records && AnswerFits(existing, holder, cleanup, records[k], answer)
      ensures answer.Answered? && records[k].leases == [] && cleanup && existing.hasPath ==> k !in trees
      ensures trees != old(trees) ==> cleanup && Records.Without(existing.leases, holder) == []
      ensures faults >= old(faults)
      ensures answer == Refused ==> faults > old(faults)
    {
      var rec, now := ReleasedRecord(existing, holder, cleanup);
      answer := FinishRelease(k, holder, cleanup, existing, rec, now);
    }

    method FinishRelease(k: Key, holder: string, cleanup: bool, existing: Record, rec: Record, ghost now: int)
      returns (answer: ReleaseAnswer)
      requires OnTrack() && k == key && local == Start(ReleaseOp(holder, cleanup)) && holder != ""
      requires Holds(k, existing) && (k in trees ==> DirectoriesFit(trees[k]))
      requires rec == AfterRelease(existing, holder, cleanup, now)
      modifies this`faults, this`refused, this`trees, this`records, this`trail, this`local
      ensures OnTrack() && local.pc == Done && OthersStay(k)
      ensures answer == Refused ==> records == old(records)
      ensures answer.Answered? ==> k in records && AnswerFits(existing, holder, cleanup, records[k], answer)
      ensures answer.Answered? && rec.leases == [] && cleanup && existing.hasPath ==> k !in trees
      ensures answer.Answered? ==> records[k].leases == rec.leases
      ensures trees != old(trees) ==> cleanup && rec.leases == []
      ensures faults >= old(faults)
      ensures answer == Refused ==> faults > old(faults)
    {
      var gone := RemoveReleased(k, holder, cleanup, existing, rec, now);
      if gone {
        answer := StoreReleased(k, rec, existing, holder, cleanup, now);
      } else {
        answer := Refused;
      }
    }

    /** The files go when the last lease does and the caller asks for it. */
    method RemoveReleased(k: Key, holder: string, cleanup: bool, existing: Record, rec: Record, ghost now: int)
      returns (ok: bool)
      requires OnTrack() && k == key && local == Start(ReleaseOp(holder, cleanup)) && holder != ""
      requires Holds(k, existing) && (k in trees ==> DirectoriesFit(trees[k]))
      requires rec == AfterRelease(existing, holder, cleanup, now)
      modifies this`faults, this`trees, this`trail, this`local
      ensures OnTrack() && OthersStay(k)
      ensures local == old(local).(pc := if ok then PutReleased else Done, rec := rec)
      ensures ok && rec.leases == [] && cleanup && existing.hasPath ==> k !in trees
      ensures trees != old(trees) ==> cleanup && rec.leases == []
      ensures faults == old(faults) + if ok then 0 else 1
    {
      if rec.leases == [] && cleanup && existing.hasPath && k in trees {
        TakeRelease(holder, cleanup, now, rec, RemoveForRelease);
        ok := RemoveAll(k, PutReleased);
      } else {
        TakeRelease(holder, cleanup, now, rec, PutReleased);
        ok := true;
      }
    }

    /** The record Release stores, worked out before any file goes. */
    method ReleasedRecord(existing: Record, holder: string, cleanup: bool) returns (rec: Record, now: int)
      ensures rec == AfterRelease(existing, holder, cleanup, now)
    {
      var remaining;
      rec, remaining := ReleaseLease(existing.(status := Releasing), holder);
      now := *;
      if remaining > 0 {
        rec := rec.(status := Ready, releasable := false, releasableAt := None);
      } else {
        rec := rec.(releasable := true, releasableAt := Some(now));
        if cleanup {
          rec := rec.(status := Released, hasPath := false, bytes := 0);
        } else {
          rec := rec.(status := Ready);
        }
      }
    }

    method StoreReleased(k: Key, rec: Record, ghost existing: Record, ghost holder: string, ghost cleanup: bool,
                         ghost now: int) returns (answer: ReleaseAnswer)
      requires OnTrack() && k == key && local.op.ReleaseOp? && local.pc == PutReleased && local.rec == rec
      requires rec == AfterRelease(existing, holder, cleanup, now) && holder != ""
      modifies this`faults, this`refused, this`records, this`trail, this`local
      ensures OnTrack() && local.pc == Done && OthersStay(k)
      ensures answer == Refused ==> records == old(records)
      ensures answer.Answered? ==> k in records && AnswerFits(existing, holder, cleanup, records[k], answer)
      ensures answer.Answered? ==> records[k].leases == rec.leases
      ensures faults == old(faults) + if answer.Answered? then 0 else 1
    {
      var at: int := *;
      AfterReleaseFits(existing, holder, cleanup, now, at);
      var stored := Put(k, rec, at, Done);
      answer := if stored then Answered(rec.status, |rec.leases|) else Refused;
    }

    // ---- GC, one candidate --------------------------------------------------------------

    ghost method TakeRemoval()
      requires OnTrack() && local == Start(GcOp(false)) && At(key).record.Some?
      requires Collectable(At(key).record.value, At(key))
      modifies this`trail, this`local
      ensures OnTrack() && local == old(local).(pc := RemoveForGc, rec := At(key).record.value)
    {
      Advance(Ok(0), local.(pc := RemoveForGc, rec := At(key).record.value));
    }

    ghost method TakeNoRemoval(dryRun: bool)
      requires OnTrack() && local == Start(GcOp(dryRun)) && At(key).record.Some?
      requires dryRun || !Collectable(At(key).record.value, At(key))
      modifies this`trail, this`local
      ensures OnTrack() && local == old(local).(pc := Done)
    {
      Advance(Ok(0), local.(pc := Done));
    }

    /** The conditions of GC's listing, and of its second look under the lock. */
    method IsCandidate(k: Key) returns (ok: bool)
      requires k in records
      ensures ok <==> Collectable(records[k], At(k))
    {
      var rec := records[k];
      if |rec.leases| > 0 { return false; }
      if !rec.hasPath { return false; }
      if rec.status != Ready && rec.status != Released && rec.status != Failed { return false; }
      return rec.status == Failed || (k in trees && trees[k].ready);
    }

    /** What GC does with one candidate under its model's lock. */
    method CollectOne(k: Key, dryRun: bool) returns (r: Collected)
      requires k in trees ==> DirectoriesFit(trees[k])
      modifies this
      ensures Finished(k, GcOp(dryRun), old(At(k))) && OthersStay(k)
      ensures r == Skipped ==> At(k) == old(At(k)) && (k in records ==> !Collectable(records[k], At(k)))
      ensures r.Deleted? ==>
                k in old(records) && Collectable(old(records[k]), old(At(k))) && r.bytes == old(records[k].bytes)
      ensures r.Deleted? && dryRun ==> At(k) == old(At(k))
      ensures r.Deleted? && !dryRun ==> Vanished(old(records[k]), At(k))
      ensures r == GcFailed ==> At(k).record == old(At(k).record)
      ensures if r != GcFailed then faults == old(faults) else faults > old(faults)
    {
      Enter(k, GcOp(dryRun));
      var readable: bool := *;
      if !readable {
        TakeUnreadable();
        faults := faults + 1;
        return GcFailed;
      }
      if k !in records {
        TakeUnknown(op);
        return Skipped;
      }
      r := CollectKnown(k, dryRun);
    }

    method CollectKnown(k: Key, dryRun: bool) returns (r: Collected)
      requires OnTrack() && k == key && local == Start(GcOp(dryRun)) && k in records
      requires k in trees ==> DirectoriesFit(trees[k])
      modifies this`faults, this`refused, this`trees, this`records, this`journals, this`trail, this`local
      ensures OnTrack() && local.pc == Done && OthersStay(k)
      ensures r == Skipped <==> !Collectable(old(records[k]), old(At(k)))
      ensures r == Skipped || (r.Deleted? && dryRun) ==> At(k) == old(At(k))
      ensures r.Deleted? ==> r.bytes == old(records[k].bytes)
      ensures r.Deleted? && !dryRun ==> Vanished(old(records[k]), At(k))
      ensures r == GcFailed ==> At(k).record == old(At(k).record)
      ensures if r != GcFailed then faults == old(faults) else faults > old(faults)
    {
      var rec := records[k];
      var candidate := IsCandidate(k);
      if !candidate {
        TakeNoRemoval(dryRun);
        return Skipped;
      }
      if dryRun {
        TakeNoRemoval(dryRun);
        return Deleted(rec.bytes);
      }
      TakeRemoval();
      var collected := Collect(k, rec);
      return if collected then Deleted(rec.bytes) else GcFailed;
    }

    method Collect(k: Key, rec: Record) returns (ok: bool)
      requires OnTrack() && k == key && local.op.GcOp? && local.pc == RemoveForGc && local.rec == rec
      requires Holds(k, rec) && (k in trees ==> DirectoriesFit(trees[k]))
      modifies this`faults, this`refused, this`trees, this`records, this`journals, this`trail, this`local
      ensures OnTrack() && local.pc == Done && OthersStay(k)
      ensures if ok then Vanished(rec, At(k)) else Holds(k, rec)
      ensures if ok then faults == old(faults) else faults > old(faults)
    {
      ok := RemoveAll(k, PutCollected);
      if ok { ok := StoreCollected(k, rec); }
    }

    /** The RELEASED record of a collected model, and the end of its journal. */
    method StoreCollected(k: Key, rec: Record) returns (ok: bool)
      requires OnTrack() && k == key && local.op.GcOp? && local.pc == PutCollected && local.rec == rec
      requires Holds(k, rec) && k !in trees
      modifies this`faults, this`refused, this`records, this`journals, this`trail, this`local
      ensures OnTrack() && local.pc == Done && OthersStay(k)
      ensures if ok then Vanished(rec, At(k)) else Holds(k, rec)
      ensures if ok then faults == old(faults) else faults > old(faults)
    {
      var now: int := *;
      CollectedVanishes(rec, now, now);
      ok := Put(k, ModelSteps.Collected(rec, now), now, Pc.DropJournal);
      if ok { DropJournal(k); }
    }

    // ---- Recover ------------------------------------------------------------------------

    /** The light check of a record's path. */
    method CheckPath(k: Key) returns (ok: bool)
      requires k in records
      ensures ok <==> QuickReady(At(k))
    {
      var rec := records[k];
      var path := if rec.hasPath then Some(if k in trees then Some(trees[k]) else None) else None;
      var v := VerifyPublishedPathQuick(path);
      return v == Valid;
    }

    /** One round of Recover's loop. The durable states it leads the model through are exactly
        a prefix of its trace, the whole of it unless a read or a put fails. */
    method RecoverModel(k: Key, now: int) returns (ok: bool, ghost visited: seq<Durable>)
      requires k in records
      modifies this`faults, this`records, this`journals
      ensures OthersStay(k) && records.Keys == old(records.Keys)
      ensures |visited| > 0 && visited[|visited| - 1] == At(k)
      ensures visited <= Trace(old(At(k)), now)
      ensures ok ==> visited == Trace(old(At(k)), now)
      ensures ok ==> Decided(old(At(k)), records[k]) && NoMarkers(k)
      ensures !ok ==> records[k] == old(records[k]) || Decided(old(At(k)), records[k])
      ensures if ok then faults == old(faults) else faults > old(faults)
    {
      ok, visited := RecoverByMarkers(k, now);
      VisitedIsDecided(old(At(k)), visited, now);
    }

    /** The same round, by what the journal has. */
    method RecoverByMarkers(k: Key, now: int) returns (ok: bool, ghost visited: seq<Durable>)
      requires k in records
      modifies this`faults, this`records, this`journals
      ensures OthersStay(k) && records.Keys == old(records.Keys)
      ensures |visited| > 0 && visited[|visited| - 1] == At(k)
      ensures visited <= Trace(old(At(k)), now)
      ensures ok ==> visited == Trace(old(At(k)), now)
      ensures if ok then faults == old(faults) else faults > old(faults)
    {
      visited := [At(k)];
      var readable: bool := *;
      if !readable {
        faults := faults + 1;
        return false, visited;
      }
      var markers := GetOr(journals, k, {});
      if markers != {} {
        if Committed in markers {
          journals := journals - {k};
          visited := visited + [At(k)];
          assert journals - {k} == old(journals) - {k};
        } else if ReadyWritten in markers {
          ok, visited := RecoverReadyWritten(k, now);
          return;
        } else {
          ok, visited := RecoverIncomplete(k, now, IncompleteText);
          return;
        }
      }
      if records[k].status == Ready {
        var ready := CheckPath(k);
        if !ready {
          var stored: bool := *;
          if !stored {
            faults := faults + 1;
            return false, visited;
          }
          records := records[k := records[k].(status := Failed, lastError := StateDbCorrupt,
                                              message := InconsistentText, updatedAt := now)];
          visited := visited + [At(k)];
          assert records - {k} == old(records) - {k};
        }
      }
      return true, visited;
    }

    /** READY was written but TXN_COMMITTED was not. */
    method RecoverReadyWritten(k: Key, now: int) returns (ok: bool, ghost visited: seq<Durable>)
      requires k in records && ReadyWritten in At(k).journal && Committed !in At(k).journal
      modifies this`faults, this`records, this`journals
      ensures OthersStay(k) && records.Keys == old(records.Keys)
      ensures |visited| > 0 && visited[|visited| - 1] == At(k)
      ensures visited <= Trace(old(At(k)), now)
      ensures ok ==> visited == Trace(old(At(k)), now)
      ensures if ok then faults == old(faults) else faults > old(faults)
    {
      var ready := CheckPath(k);
      if !ready {
        ok, visited := RecoverIncomplete(k, now, AfterReadyText);
        return;
      }
      visited := [At(k)];
      var stored: bool := *;
      if !stored {
        faults := faults + 1;
        return false, visited;
      }
      records := records[k := records[k].(status := Ready, lastError := NoReason,
                                          message := NoMessage, updatedAt := now)];
      visited := visited + [At(k)];
      journals := journals[k := GetOr(journals, k, {}) + {Committed}];
      visited := visited + [At(k)];
      journals := journals - {k};
      visited := visited + [At(k)];
      assert records - {k} == old(records) - {k} && journals - {k} == old(journals) - {k};
      return true, visited;
    }

    /** The transaction is given up: FAILED, and the journal goes. */
    method RecoverIncomplete(k: Key, now: int, message: Message) returns (ok: bool, ghost visited: seq<Durable>)
      requires k in records && At(k).journal != {} && Committed !in At(k).journal
      requires ReadyWritten in At(k).journal ==> !QuickReady(At(k))
      requires message == if ReadyWritten in At(k).journal then AfterReadyText else IncompleteText
      modifies this`faults, this`records, this`journals
      ensures OthersStay(k) && records.Keys == old(records.Keys)
      ensures |visited| > 0 && visited[|visited| - 1] == At(k)
      ensures visited <= Trace(old(At(k)), now)
      ensures ok ==> visited == Trace(old(At(k)), now)
      ensures if ok then faults == old(faults) else faults > old(faults)
    {
      visited := [At(k)];
      var stored: bool := *;
      if !stored {
        faults := faults + 1;
        return false, visited;
      }
      records := records[k := records[k].(status := Failed, lastError := StateDbCorrupt,
                                          message := message, updatedAt := now)];
      visited := visited + [At(k)];
      journals := journals - {k};
      visited := visited + [At(k)];
      assert records - {k} == old(records) - {k} && journals - {k} == old(journals) - {k};
      return true, visited;
    }

    /** Recover at start-up. An error leaves what a crash could leave; otherwise every model is
        where its trace ends. */
    method Recover() returns (ok: bool)
      modifies this`faults, this`records, this`journals
      ensures ok ==> Completed(old(Stored()), Stored())
      ensures !ok ==> Interrupted(old(Stored()), Stored())
      ensures records.Keys == old(records.Keys)
      ensures ok ==> forall k :: k in records ==> Decided(old(At(k)), records[k]) && NoMarkers(k)
      ensures !ok ==> forall k :: k in records ==> records[k] == old(records[k]) || Decided(old(At(k)), records[k])
      ensures if ok then faults == old(faults) else faults > old(faults)
    {
      ok := RecoverAll();
      if ok { AllDecided(); } else { SomeDecided(); }
    }

    twostate lemma AllDecided()
      requires Completed(old(Stored()), Stored())
      ensures records.Keys == old(records.Keys)
      ensures forall k :: k in records ==> Decided(old(At(k)), records[k]) && NoMarkers(k)
    {
      assert Stored().Keys == records.Keys && old(Stored()).Keys == old(records).Keys;
      forall k | k in records ensures Decided(old(At(k)), records[k]) && NoMarkers(k) {
        assert Recovered(old(Stored())[k], Stored()[k]);
        var now :| Stored()[k] == Outcome(old(Stored())[k], now);
        RecoveredIsDecided(old(At(k)), now);
      }
    }

    twostate lemma SomeDecided()
      requires Interrupted(old(Stored()), Stored())
      ensures records.Keys == old(records.Keys)
      ensures forall k :: k in records ==> records[k] == old(records[k]) || Decided(old(At(k)), records[k])
    {
      assert Stored().Keys == records.Keys && old(Stored()).Keys == old(records).Keys;
      forall k | k in records ensures records[k] == old(records[k]) || Decided(old(At(k)), records[k]) {
        assert OnTrace(old(Stored())[k], Stored()[k]);
        var now, i :| 0 <= i < |Trace(old(At(k)), now)| && Stored()[k] == Trace(old(At(k)), now)[i];
        InterruptedIsDecided(old(At(k)), i, now);
      }
    }

    /** Its loop over the models. */
    method RecoverAll() returns (ok: bool)
      modifies this`faults, this`records, this`journals
      ensures ok ==> Completed(old(Stored()), Stored())
      ensures !ok ==> Interrupted(old(Stored()), Stored())
      ensures if ok then faults == old(faults) else faults > old(faults)
    {
      var left := records.Keys;
      ghost var before := Stored();
      while left != {}
        invariant left <= records.Keys && Progress(before, Stored(), left) && faults == old(faults)
        decreases |left|
      {
        var k :| k in left;
        ok := RecoverRound(k, before, left);
        left := left - {k};
        if !ok { return; }
      }
      AllRecovered(before, Stored());
      return true;
    }

    method RecoverRound(k: Key, ghost before: Models, ghost left: set<Key>) returns (ok: bool)
      requires left <= records.Keys && Progress(before, Stored(), left) && k in left
      modifies this`faults, this`records, this`journals
      ensures records.Keys == old(records.Keys)
      ensures ok ==> Progress(before, Stored(), left - {k})
      ensures !ok ==> Interrupted(before, Stored())
      ensures if ok then faults == old(faults) else faults > old(faults)
    {
      var now: int := *;
      ghost var visited;
      ghost var s := Stored();
      assert s[k] == At(k) == before[k];
      ok, visited := RecoverModel(k, now);
      OthersKept(k);
      ghost var s' := Stored();
      assert forall j :: j in s && j != k ==> s'[j] == s[j];
      if ok {
        RoundRecovers(before, s, s', k, left, now);
      } else {
        StoppedRecovery(before, s, s', k, left, now, visited);
      }
    }

    /** Equal rests mean equal models. */
    twostate lemma OthersKept(k: Key)
      requires OthersStay(k)
      ensures forall j :: j != k ==> At(j) == old(At(j))
    {
      forall j | j != k ensures At(j) == old(At(j)) {
        assert j in trees <==> j in trees - {k};
        assert j in old(trees) <==> j in old(trees) - {k};
        assert j in journals <==> j in journals - {k};
        assert j in old(journals) <==> j in old(journals) - {k};
        assert j in records <==> j in records - {k};
        assert j in old(records) <==> j in old(records) - {k};
      }
    }
  }

  /** Models not in `left` have been recovered; the others are as they were. */
  ghost predicate Progress(before: Models, s: Models, left: set<Key>) {
    && s.Keys == before.Keys
    && (forall k :: k in left && k in s ==> s[k] == before[k])
    && (forall k :: k in s && k !in left ==> Recovered(before[k], s[k]))
  }

  lemma AllRecovered(before: Models, s: Models)
    requires Progress(before, s, {})
    ensures Completed(before, s)
  {
  }

  lemma RoundRecovers(before: Models, s: Models, s': Models, k: Key, left: set<Key>, now: int)
    requires Progress(before, s, left) && k in left && k in s && s'.Keys == s.Keys
    requires forall j :: j in s && j != k ==> s'[j] == s[j]
    requires s'[k] == Outcome(before[k], now)
    ensures Progress(before, s', left - {k})
  {
    forall j | j in s' && j !in left - {k} ensures Recovered(before[j], s'[j]) {
      if j != k { assert Recovered(before[j], s[j]); }
    }
  }

  lemma StoppedRecovery(before: Models, s: Models, s': Models, k: Key, left: set<Key>, now: int, visited: seq<Durable>)
    requires Progress(before, s, left) && k in left && k in s && s'.Keys == s.Keys
    requires forall j :: j in s && j != k ==> s'[j] == s[j]
    requires |visited| > 0 && visited <= Trace(before[k], now) && visited[|visited| - 1] == s'[k]
    ensures Interrupted(before, s')
  {
    forall j | j in before ensures OnTrace(before[j], s'[j]) {
      if j == k {
        assert s'[k] == Trace(before[k], now)[|visited| - 1];
      } else if j in left {
        UntouchedOnTrace(before[j]);
      } else {
        assert Recovered(before[j], s[j]);
        RecoveredOnTrace(before[j], s[j]);
      }
    }
  }

  lemma UntouchedOnTrace(d: Durable)
    ensures OnTrace(d, d)
  {
    assert d == Trace(d, 0)[0];
  }

  lemma RecoveredOnTrace(d: Durable, d': Durable)
    requires Recovered(d, d')
    ensures OnTrace(d, d')
  {
    var now :| d' == Outcome(d, now);
    assert d' == Trace(d, now)[|Trace(d, now)| - 1];
  }

  /** The reason code that goes with a verdict. */
  function ReasonOf(v: Verdict): Reason {
    match v
    case Valid => NoReason
    case PathEmpty => ValidationFailed
    case PathMissing => FilesystemError
    case ReadyMissing => StateDbCorrupt
    case MetadataUnreadable => StateDbCorrupt
    case ShardsDirMissing => FilesystemError
    case BadName => ValidationFailed
    case ShardMissing => FilesystemError
    case SizeMismatch => BlobSizeMismatch
    case DigestMismatch => BlobDigestMismatch
    case CardinalityMismatch => StateDbCorrupt
  }

  /** What is wrong with a tree, by the reason code of its refusal. */
  predicate RefutedBy(t: Tree, reason: Reason) {
    match reason
    case StateDbCorrupt =>
      !t.ready || t.metadata.None? || |t.shards| != |t.metadata.value.shards|
    case FilesystemError =>
      !t.shardsDir || (t.metadata.Some? && exists s :: s in t.metadata.value.shards && s.name !in t.shards)
    case ValidationFailed =>
      t.metadata.Some? && exists s :: s in t.metadata.value.shards && !ValidShardName(s.name)
    case BlobSizeMismatch =>
      t.metadata.Some? && exists s :: s in t.metadata.value.shards && WrongSize(t, s)
    case BlobDigestMismatch =>
      t.metadata.Some? && exists s :: s in t.metadata.value.shards && WrongBytes(t, s)
    case _ => false
  }

  lemma VerdictRefutes(t: Tree, v: Verdict)
    requires Refutes(t, v)
    ensures RefutedBy(t, ReasonOf(v))
  {
  }

  lemma AcquiredLeases(r: Record, holder: string, now: int)
    ensures r.leases <= Acquired(r, holder, now).leases
    ensures holder != "" ==> HasHolder(Acquired(r, holder, now).leases, holder)
  {
    HasHolderAppend(r.leases, Lease(holder, now), holder);
  }

  /** What a release answers and leaves: the holder's lease gone, the rest counted, releasable
      exactly when none is left, and RELEASED without a path after a cleanup. */
  ghost predicate AnswerFits(before: Record, holder: string, cleanup: bool, after: Record, answer: ReleaseAnswer) {
    && after.leases == Records.Without(before.leases, holder)
    && answer == Answered(after.status, |after.leases|)
    && (after.releasable <==> after.leases == []) && (after.releasableAt.Some? <==> after.leases == [])
    && after.lastError == before.lastError && after.message == before.message
    && if after.leases == [] && cleanup then after.status == Released && !after.hasPath && after.bytes == 0
       else after.status == Ready && after.hasPath == before.hasPath && after.bytes == before.bytes
  }

  lemma AfterReleaseFits(r: Record, holder: string, cleanup: bool, now: int, at: int)
    requires holder != ""
    ensures var r' := AfterRelease(r, holder, cleanup, now);
      AnswerFits(r, holder, cleanup, r'.(updatedAt := at), Answered(r'.status, |r'.leases|))
  {
  }

  lemma CollectedVanishes(r: Record, now: int, at: int)
    ensures Vanished(r, Durable(None, {}, Some(ModelSteps.Collected(r, now).(updatedAt := at))))
  {
  }

  /** What GC leaves of a model: no tree, no journal, and its record RELEASED. */
  ghost predicate Vanished(before: Record, after: Durable) {
    && after.tree.None? && after.journal == {} && after.record.Some? && after.record.value.releasableAt.Some?
    && after.record.value == before.(status := Released, hasPath := false, bytes := 0, releasable := true,
                                     releasableAt := after.record.value.releasableAt,
                                     updatedAt := after.record.value.updatedAt)
  }

  /** A file lies in a directory. */
  predicate DirectoriesFit(t: Tree) {
    t.shards != map[] ==> t.shardsDir
  }

  function EntryCount(t: Tree): nat {
    (if t.ready then 1 else 0) + (if t.metadata.Some? then 1 else 0) + |t.shards| + (if t.shardsDir then 1 else 0)
  }

  lemma RemovingCounts(t: Tree, e: Entry)
    requires CanRemove(t, e)
    ensures EntryCount(Publish.Without(t, e)) < EntryCount(t)
    ensures DirectoriesFit(t) ==> DirectoriesFit(Publish.Without(t, e))
  {
    if e.ShardFile? {
      assert (t.shards - {e.name}).Keys == t.shards.Keys - {e.name};
    }
  }

  /** Some entry the directory still has; a directory goes only when it is empty. */
  method PickEntry(t: Tree) returns (e: Entry)
    requires !Bare(t) && DirectoriesFit(t)
    ensures CanRemove(t, e)
  {
    if
    case t.ready => e := ReadyFile;
    case t.metadata.Some? => e := MetadataFile;
    case t.shards != map[] =>
      var f :| f in t.shards;
      e := ShardFile(f);
    case t.shardsDir && t.shards == map[] => e := ShardsDir;
  }
}
