/** Model records and their leases (internal/model/model.go, internal/store/store.go). Times
    are clock readings; the creation and last-access times, which nothing reads back, are
    dropped. */
module Records {
  import opened Prelude

  datatype ModelState = New | Resolving | Downloading | Verifying | Publishing | Ready | Failed | Releasing | Released

  datatype Lease = Lease(holder: string, acquiredAt: int)

  datatype Reason =
    | NoReason | StateDbCorrupt | ProfileLintFailed | DiskSpaceInsufficient | FilesystemError
    | RegistryFailure | BlobSizeMismatch | BlobDigestMismatch | RenameFailed | ValidationFailed

  /** The texts of the last error, by name: the proofs do not read them. */
  datatype Message =
    | NoMessage | FetchText | RefusedText | DownloadText | MetadataText | ReadyText | RenameText | SyncText
    | OccupiedText | AfterReadyText | IncompleteText | InconsistentText

  /** hasPath: the record names its model's final path (the alternative is the empty path
      a released record carries). */
  datatype Record = Record(status: ModelState, hasPath: bool, bytes: int, leases: seq<Lease>,
                           releasable: bool, releasableAt: Option<int>,
                           lastError: Reason, message: Message, updatedAt: int)

  predicate HasHolder(leases: seq<Lease>, holder: string) {
    exists i :: 0 <= i < |leases| && leases[i].holder == holder
  }

  function Without(leases: seq<Lease>, holder: string): seq<Lease> {
    if leases == [] then []
    else
      var rest := Without(leases[..|leases| - 1], holder);
      if leases[|leases| - 1].holder == holder then rest else rest + [leases[|leases| - 1]]
  }

  /** A lease joins at the end unless its holder is unnamed or already listed. */
  function Acquired(r: Record, holder: string, now: int): Record {
    if holder == "" || HasHolder(r.leases, holder) then r
    else r.(leases := r.leases + [Lease(holder, now)], releasable := false, releasableAt := None)
  }

  function ReleasedBy(r: Record, holder: string): Record {
    if holder == "" then r else r.(leases := Without(r.leases, holder))
  }

  lemma {:induction false} WithoutHolds(leases: seq<Lease>, holder: string, other: string)
    ensures !HasHolder(Without(leases, holder), holder)
    ensures other != holder ==> (HasHolder(Without(leases, holder), other) <==> HasHolder(leases, other))
  {
    if leases != [] {
      var n := |leases| - 1;
      WithoutHolds(leases[..n], holder, other);
      var rest := Without(leases[..n], holder);
      assert HasHolder(leases, other) <==> HasHolder(leases[..n], other) || leases[n].holder == other by {
        if HasHolder(leases, other) {
          var i :| 0 <= i < |leases| && leases[i].holder == other;
          if i < n { assert leases[..n][i].holder == other; }
        }
        if HasHolder(leases[..n], other) {
          var i :| 0 <= i < n && leases[..n][i].holder == other;
          assert leases[i].holder == other;
        }
      }
      HasHolderAppend(rest, leases[n], other);
      HasHolderAppend(rest, leases[n], holder);
    }
  }

  lemma HasHolderAppend(leases: seq<Lease>, l: Lease, holder: string)
    ensures HasHolder(leases + [l], holder) <==> HasHolder(leases, holder) || l.holder == holder
  {
    if HasHolder(leases, holder) {
      var i :| 0 <= i < |leases| && leases[i].holder == holder;
      assert (leases + [l])[i].holder == holder;
    }
    assert (leases + [l])[|leases|] == l;
  }

  lemma {:induction false} WithoutAbsent(leases: seq<Lease>, holder: string)
    requires !HasHolder(leases, holder)
    ensures Without(leases, holder) == leases
  {
    if leases != [] {
      var n := |leases| - 1;
      assert leases[..n] + [leases[n]] == leases;
      HasHolderAppend(leases[..n], leases[n], holder);
      WithoutAbsent(leases[..n], holder);
    }
  }

  /** Releasing a fresh lease gives back exactly the list before it was acquired. */
  lemma ReleaseUndoesAcquire(r: Record, holder: string, now: int)
    requires holder != "" && !HasHolder(r.leases, holder)
    ensures ReleasedBy(Acquired(r, holder, now), holder).leases == r.leases
  {
    WithoutAbsent(r.leases, holder);
    assert (r.leases + [Lease(holder, now)])[..|r.leases|] == r.leases;
  }

  method AcquireLease(r: Record, holder: string, now: int) returns (r': Record)
    ensures r' == Acquired(r, holder, now)
    ensures holder == "" || HasHolder(r.leases, holder) ==> r' == r
    ensures holder != "" && !HasHolder(r.leases, holder) ==>
              r' == r.(leases := r.leases + [Lease(holder, now)], releasable := false, releasableAt := None)
  {
    if holder == "" { return r; }
    for i := 0 to |r.leases|
      invariant forall j :: 0 <= j < i ==> r.leases[j].holder != holder
    {
      if r.leases[i].holder == holder { return r; }
    }
    return r.(leases := r.leases + [Lease(holder, now)], releasable := false, releasableAt := None);
  }

  method ReleaseLease(r: Record, holder: string) returns (r': Record, remaining: nat)
    ensures r' == ReleasedBy(r, holder) && remaining == |r'.leases|
  {
    if holder == "" { return r, |r.leases|; }
    var next := [];
    for i := 0 to |r.leases|
      invariant next == Without(r.leases[..i], holder)
    {
      assert r.leases[..i + 1][..i] == r.leases[..i];
      if r.leases[i].holder != holder {
        next := next + [r.leases[i]];
      }
    }
    assert r.leases[..|r.leases|] == r.leases;
    return r.(leases := next), |next|;
  }

  /** Release and releaseLeaseOnlyLocked both leave READY, whatever the status was. */
  function LeaseOnlyReleased(r: Record, holder: string, now: int): Record {
    var r' := ReleasedBy(r, holder);
    if |r'.leases| > 0 then r'.(status := Ready, releasable := false, releasableAt := None)
    else r'.(status := Ready, releasable := true, releasableAt := Some(now))
  }

  method ReleaseLeaseOnly(r: Record, holder: string, now: int) returns (r': Record)
    ensures r' == LeaseOnlyReleased(r, holder, now)
    ensures r'.status == Ready && (r'.releasable <==> r'.leases == []) && (r'.releasableAt.Some? <==> r'.leases == [])
    ensures holder != "" ==> !HasHolder(r'.leases, holder)
    ensures forall other :: other != holder ==> (HasHolder(r'.leases, other) <==> HasHolder(r.leases, other))
  {
    forall other
      ensures other != holder ==> (HasHolder(Without(r.leases, holder), other) <==> HasHolder(r.leases, other))
    {
      WithoutHolds(r.leases, holder, other);
    }
    WithoutHolds(r.leases, holder, "");
    var rec := r.(status := Releasing);
    var remaining;
    rec, remaining := ReleaseLease(rec, holder);
    if remaining > 0 {
      rec := rec.(status := Ready, releasable := false, releasableAt := None);
    } else {
      rec := rec.(status := Ready, releasable := true, releasableAt := Some(now));
    }
    return rec;
  }

  // ---- What Ensure leaves of a record -----------------------------------------------------

  function LeasesOf(r: Option<Record>): seq<Lease> {
    if r.Some? then r.value.leases else []
  }

  /** Whether Ensure returned READY, and the record it left. */
  datatype Ensured = Ensured(ready: bool, record: Option<Record>)

  /** Ensure only adds leases, and READY means a READY record with the holder's lease. */
  ghost predicate EnsureFits(before: Option<Record>, holder: string, e: Ensured) {
    && LeasesOf(before) <= LeasesOf(e.record)
    && (e.ready ==> e.record.Some? && e.record.value.status == Ready
                    && (holder != "" ==> HasHolder(e.record.value.leases, holder)))
  }

  lemma PrefixHolders(before: seq<Lease>, after: seq<Lease>, holder: string)
    requires before <= after && HasHolder(before, holder)
    ensures HasHolder(after, holder)
  {
    var i :| 0 <= i < |before| && before[i].holder == holder;
    assert after[i].holder == holder;
  }

  // ---- State transitions (internal/app/lock.go:79-100) ----------------------------------

  function Allowed(current: ModelState): seq<ModelState> {
    match current
    case New => [Resolving]
    case Resolving => [Downloading, Failed]
    case Downloading => [Verifying, Failed]
    case Verifying => [Publishing, Failed]
    case Publishing => [Ready, Failed]
    case Ready => [Releasing]
    case Releasing => [Ready, Released]
    case Failed => [Resolving, Released]
    case Released => []
  }

  /** True when the table allows the move. */
  predicate TransitionState(current: ModelState, next: ModelState) {
    next in Allowed(current)
  }
}
