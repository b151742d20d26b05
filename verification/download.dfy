/** The download worker pool (internal/app/service.go:666-769): a producer, a job channel and
    any number of workers, interleaved at single reads, writes and channel operations. What
    the registry sends, and which operation fails, is free. */
module DownloadPool {
  import opened Prelude
  import opened Publish

  datatype Blob = Blob(name: string, digest: Digest, size: int)

  /** Cleared has seen that the context is not cancelled. Failing holds an error it has not sent
      yet; Cancelling has sent it. Drained left because the channel was closed and empty, Left
      for any other reason. */
  datatype Worker =
    | Idle | Holding(j: nat) | Cleared(j: nat) | Writing(j: nat, read: Bytes) | Failing(j: nat)
    | Cancelling | Drained | Left

  /** Closed: every blob was sent. Aborted: an invalid name or a cancelled context ended it. */
  datatype Producer = Sending | Closed | Aborted | Returned(success: bool)

  /** Jobs are sent and taken in order: blobs below `taken` have been received, those from
      `taken` up to `sent` wait in the channel. failed: an error is in errCh. cancelled: the
      download context is; parent: the caller's is. */
  datatype Pool = Pool(sent: nat, taken: nat, producer: Producer, workers: seq<Worker>,
                       files: map<string, Bytes>, done: set<nat>,
                       failed: bool, cancelled: bool, parent: bool)

  datatype Event =
    | Send
    | SeeCancelled
    | RefuseName
    | Close
    | Return
    | Take(w: nat)
    | Check(w: nat)
    | Open(w: nat, ok: bool)
    | Write(w: nat, chunk: Bytes)
    | Finish(w: nat, ok: bool)
    | SendError(w: nat)
    | Cancel(w: nat)
    | Drain(w: nat)
    | CancelParent

  function Zeros(n: nat): Bytes {
    seq(n, _ => 0)
  }

  /** A write at an offset of a file that another worker may have truncated or grown. */
  function Overlay(content: Bytes, offset: nat, chunk: Bytes): Bytes {
    (if |content| < offset then content + Zeros(offset - |content|) else content[..offset])
    + chunk
    + (if |content| > offset + |chunk| then content[offset + |chunk|..] else [])
  }

  predicate Over(p: Producer) {
    p.Closed? || p.Aborted?
  }

  predicate Gone(w: Worker) {
    w.Drained? || w.Left?
  }

  predicate Enabled(blobs: seq<Blob>, p: Pool, e: Event) {
    match e
    case Send => p.producer.Sending? && p.sent < |blobs| && ValidShardName(blobs[p.sent].name)
    case SeeCancelled => p.producer.Sending? && p.sent < |blobs| && p.cancelled
    case RefuseName => p.producer.Sending? && p.sent < |blobs| && !ValidShardName(blobs[p.sent].name)
    case Close => p.producer.Sending? && p.sent == |blobs|
    case Return => Over(p.producer) && forall w :: 0 <= w < |p.workers| ==> Gone(p.workers[w])
    case Take(w) => w < |p.workers| && p.workers[w].Idle? && p.taken < p.sent
    case Check(w) => w < |p.workers| && p.workers[w].Holding?
    case Open(w, _) => w < |p.workers| && p.workers[w].Cleared? && p.workers[w].j < |blobs|
    case Write(w, _) =>
      && w < |p.workers| && p.workers[w].Writing? && p.workers[w].j < |blobs|
      && blobs[p.workers[w].j].name in p.files
    case Finish(w, _) => w < |p.workers| && p.workers[w].Writing? && p.workers[w].j < |blobs|
    case SendError(w) => w < |p.workers| && p.workers[w].Failing?
    case Cancel(w) => w < |p.workers| && p.workers[w].Cancelling?
    case Drain(w) => w < |p.workers| && p.workers[w].Idle? && Over(p.producer) && p.taken == p.sent
    case CancelParent => true
  }

  /** The size and digest checks on what one worker read for one blob. */
  predicate Accepted(b: Blob, read: Bytes) {
    |read| == b.size && DigestOf(read) == b.digest
  }

  function Next(blobs: seq<Blob>, p: Pool, e: Event): Pool
    requires Enabled(blobs, p, e)
  {
    match e
    case Send => p.(sent := p.sent + 1)
    case SeeCancelled => p.(producer := Aborted)
    case RefuseName => p.(producer := Aborted, cancelled := true)
    case Close => p.(producer := Closed)
    case Return => p.(producer := Returned(p.producer.Closed? && !p.failed))
    case Take(w) => p.(taken := p.taken + 1, workers := p.workers[w := Holding(p.taken)])
    case Check(w) => p.(workers := p.workers[w := if p.cancelled then Left else Cleared(p.workers[w].j)])
    case Open(w, ok) =>
      var j := p.workers[w].j;
      if ok then p.(workers := p.workers[w := Writing(j, [])], files := p.files[blobs[j].name := []])
      else p.(workers := p.workers[w := Failing(j)])
    case Write(w, chunk) =>
      var j, read := p.workers[w].j, p.workers[w].read;
      p.(workers := p.workers[w := Writing(j, read + chunk)],
         files := p.files[blobs[j].name := Overlay(p.files[blobs[j].name], |read|, chunk)])
    case Finish(w, ok) =>
      var j, read := p.workers[w].j, p.workers[w].read;
      if ok && Accepted(blobs[j], read) then p.(workers := p.workers[w := Idle], done := p.done + {j})
      else p.(workers := p.workers[w := Failing(j)])
    case SendError(w) => p.(workers := p.workers[w := Cancelling], failed := true)
    case Cancel(w) => p.(workers := p.workers[w := Left], cancelled := true)
    case Drain(w) => p.(workers := p.workers[w := Drained])
    case CancelParent => p.(cancelled := true, parent := true)
  }

  predicate Initial(p: Pool) {
    && p.sent == p.taken == 0 && p.producer == Sending && |p.workers| > 0
    && (forall w :: 0 <= w < |p.workers| ==> p.workers[w] == Idle)
    && p.files == map[] && p.done == {} && !p.failed && (p.cancelled <==> p.parent)
  }

  ghost predicate Run(blobs: seq<Blob>, p: Pool, events: seq<Event>, p': Pool)
    decreases |events|
  {
    if events == [] then p == p'
    else Enabled(blobs, p, events[0]) && Run(blobs, Next(blobs, p, events[0]), events[1..], p')
  }

  ghost predicate Reachable(blobs: seq<Blob>, p: Pool) {
    exists p0, events :: Initial(p0) && Run(blobs, p0, events, p)
  }

  // ---- The invariant ------------------------------------------------------------------------

  /** The blob a worker is at. */
  function AtBlob(w: Worker): Option<nat> {
    match w
    case Holding(j) => Some(j)
    case Cleared(j) => Some(j)
    case Writing(j, _) => Some(j)
    case Failing(j) => Some(j)
    case _ => None
  }

  /** The only blob of its name. */
  predicate Alone(blobs: seq<Blob>, j: nat)
    requires j < |blobs|
  {
    forall i :: 0 <= i < |blobs| && i != j ==> blobs[i].name != blobs[j].name
  }

  /** A blob that has been received but not begun has left no file of its own. */
  ghost predicate Untouched(blobs: seq<Blob>, p: Pool, j: nat) {
    j < p.taken && j !in p.done && (j < |blobs| && Alone(blobs, j) ==> blobs[j].name !in p.files)
  }

  /** What is read so far is in the file, unless another blob has its name. */
  ghost predicate Partial(blobs: seq<Blob>, p: Pool, j: nat, read: Bytes) {
    && j < p.taken && j !in p.done
    && (j < |blobs| ==> blobs[j].name in p.files && (Alone(blobs, j) ==> p.files[blobs[j].name] == read))
  }

  ghost predicate WorkerOk(blobs: seq<Blob>, p: Pool, w: nat) {
    w < |p.workers| ==>
      match p.workers[w]
      case Idle => true
      case Holding(j) => Untouched(blobs, p, j)
      case Cleared(j) => Untouched(blobs, p, j)
      case Writing(j, read) => Partial(blobs, p, j, read)
      case Failing(j) => j < p.taken && j !in p.done
      case Cancelling => p.failed
      case Drained => !p.producer.Sending? && p.taken == p.sent
      case Left => p.cancelled
  }

  /** No two workers are at the same blob. */
  predicate Apart(p: Pool, v: nat, w: nat) {
    v < |p.workers| && w < |p.workers| && v != w && AtBlob(p.workers[v]).Some? ==>
      AtBlob(p.workers[v]) != AtBlob(p.workers[w])
  }

  predicate WorksAt(p: Pool, w: nat, j: nat) {
    w < |p.workers| && AtBlob(p.workers[w]) == Some(j)
  }

  ghost predicate HasWorker(p: Pool, j: nat) {
    exists w: nat :: WorksAt(p, w, j)
  }

  /** A received blob is finished, in work, or given up after an error or a cancellation; a
      blob that was given up without an error has left no file. */
  ghost predicate BlobOk(blobs: seq<Blob>, p: Pool, j: nat) {
    j < |blobs| ==>
      && (j < p.taken ==> j in p.done || HasWorker(p, j) || p.failed || p.cancelled)
      && (j < p.sent ==> ValidShardName(blobs[j].name))
      && (Alone(blobs, j) && blobs[j].name in p.files ==>
            j < p.taken && (j in p.done || HasWorker(p, j) || p.failed))
      && (j in p.done ==> j < p.taken && blobs[j].name in p.files)
      && (j in p.done && Alone(blobs, j) ==> Accepted(blobs[j], p.files[blobs[j].name]))
  }

  predicate NamesBlob(blobs: seq<Blob>, f: string) {
    exists j :: 0 <= j < |blobs| && blobs[j].name == f
  }

  predicate FileOk(blobs: seq<Blob>, p: Pool, f: string) {
    f in p.files ==> NamesBlob(blobs, f)
  }

  predicate WorkerGone(p: Pool, w: nat) {
    w < |p.workers| ==> Gone(p.workers[w])
  }

  ghost predicate Shape(blobs: seq<Blob>, p: Pool) {
    && p.taken <= p.sent <= |blobs| && |p.workers| > 0
    && (p.producer.Closed? ==> p.sent == |blobs|)
    && (p.cancelled ==> p.parent || p.failed || p.producer.Aborted? || p.producer == Returned(false))
    && (p.producer == Returned(true) ==> p.sent == |blobs| && !p.failed)
    && (p.producer.Returned? ==> forall w: nat :: WorkerGone(p, w))
  }

  ghost predicate Inv(blobs: seq<Blob>, p: Pool) {
    && Shape(blobs, p)
    && (forall w: nat :: WorkerOk(blobs, p, w))
    && (forall v: nat, w: nat :: Apart(p, v, w))
    && (forall j: nat :: BlobOk(blobs, p, j))
    && (forall f: string :: FileOk(blobs, p, f))
  }

  // ---- Steps of the producer and of the caller's context ------------------------------------

  predicate ByProducer(e: Event) {
    e.Send? || e.SeeCancelled? || e.RefuseName? || e.Close? || e.Return? || e.CancelParent?
  }

  lemma ProducerKeepsShape(blobs: seq<Blob>, p: Pool, e: Event)
    requires Inv(blobs, p) && Enabled(blobs, p, e) && ByProducer(e)
    ensures Shape(blobs, Next(blobs, p, e))
  {
    var p' := Next(blobs, p, e);
    if p'.producer.Returned? {
      forall w: nat ensures WorkerGone(p', w) { assert p.producer.Returned? ==> WorkerGone(p, w); }
    }
  }

  lemma ProducerKeepsInv(blobs: seq<Blob>, p: Pool, e: Event)
    requires Inv(blobs, p) && Enabled(blobs, p, e) && ByProducer(e)
    ensures Inv(blobs, Next(blobs, p, e))
  {
    var p' := Next(blobs, p, e);
    ProducerKeepsShape(blobs, p, e);
    forall w: nat ensures WorkerOk(blobs, p', w) { assert WorkerOk(blobs, p, w); }
    forall v: nat, w: nat ensures Apart(p', v, w) { assert Apart(p, v, w); }
    forall j: nat ensures BlobOk(blobs, p', j) {
      assert BlobOk(blobs, p, j);
      SameWorkers(p, p', j);
    }
    forall f: string ensures FileOk(blobs, p', f) { assert FileOk(blobs, p, f); }
  }

  lemma SameWorkers(p: Pool, p': Pool, j: nat)
    requires p'.workers == p.workers
    ensures HasWorker(p', j) <==> HasWorker(p, j)
  {
    assert forall w: nat :: WorksAt(p', w, j) <==> WorksAt(p, w, j);
  }

  // ---- Steps of one worker --------------------------------------------------------------------

  /** p' differs from p in worker w, and perhaps in files, finished blobs and flags. */
  predicate OneWorker(p: Pool, p': Pool, w: nat) {
    w < |p.workers| == |p'.workers| && p'.workers == p.workers[w := p'.workers[w]]
  }

  /** A worker that changes state leaves the others at their blobs. */
  lemma OthersStay(p: Pool, p': Pool, w: nat, j: nat)
    requires OneWorker(p, p', w) && HasWorker(p, j)
    requires AtBlob(p.workers[w]) == Some(j) ==> AtBlob(p'.workers[w]) == Some(j)
    ensures HasWorker(p', j)
  {
    var v: nat :| WorksAt(p, v, j);
    assert WorksAt(p', v, j);
  }

  /** Workers stay apart when the one that moves takes on no blob, or one that nobody is at. */
  lemma StayApart(p: Pool, p': Pool, w: nat)
    requires OneWorker(p, p', w) && forall u: nat, v: nat :: Apart(p, u, v)
    requires || AtBlob(p'.workers[w]).None? || AtBlob(p'.workers[w]) == AtBlob(p.workers[w])
             || !HasWorker(p, AtBlob(p'.workers[w]).value)
    ensures forall u: nat, v: nat :: Apart(p', u, v)
  {
    forall u: nat, v: nat ensures Apart(p', u, v) {
      assert Apart(p, u, v);
      if u < |p.workers| && v < |p.workers| && AtBlob(p'.workers[w]).Some? {
        var j := AtBlob(p'.workers[w]).value;
        assert WorksAt(p, u, j) ==> HasWorker(p, j);
        assert WorksAt(p, v, j) ==> HasWorker(p, j);
      }
    }
  }

  /** The producer's side of a worker's step. */
  lemma WorkerKeepsShape(blobs: seq<Blob>, p: Pool, e: Event)
    requires Inv(blobs, p) && Enabled(blobs, p, e) && !ByProducer(e)
    ensures Shape(blobs, Next(blobs, p, e)) && OneWorker(p, Next(blobs, p, e), e.w)
  {
    assert WorkerOk(blobs, p, e.w) && WorkerGone(p, e.w) == Gone(p.workers[e.w]);
  }

  lemma TakeKeepsInv(blobs: seq<Blob>, p: Pool, e: Event)
    requires Inv(blobs, p) && Enabled(blobs, p, e) && e.Take?
    ensures Inv(blobs, Next(blobs, p, e))
  {
    var p' := Next(blobs, p, e);
    WorkerKeepsShape(blobs, p, e);
    NobodyAtNext(blobs, p);
    StayApart(p, p', e.w);
    forall v: nat ensures WorkerOk(blobs, p', v) { assert WorkerOk(blobs, p, v) && BlobOk(blobs, p, p.taken); }
    forall j: nat ensures BlobOk(blobs, p', j) {
      assert BlobOk(blobs, p, j);
      assert WorksAt(p', e.w, p.taken);
      if HasWorker(p, j) { OthersStay(p, p', e.w, j); }
    }
    forall f: string ensures FileOk(blobs, p', f) { assert FileOk(blobs, p, f); }
  }

  lemma NobodyAtNext(blobs: seq<Blob>, p: Pool)
    requires Inv(blobs, p)
    ensures !HasWorker(p, p.taken)
  {
    forall w: nat ensures !WorksAt(p, w, p.taken) { assert WorkerOk(blobs, p, w); }
  }

  /** Leaving, or finding the context alive. */
  lemma LeaveKeepsInv(blobs: seq<Blob>, p: Pool, e: Event)
    requires Inv(blobs, p) && Enabled(blobs, p, e) && (e.Check? || e.SendError? || e.Cancel? || e.Drain?)
    ensures Inv(blobs, Next(blobs, p, e))
  {
    var p' := Next(blobs, p, e);
    WorkerKeepsShape(blobs, p, e);
    StayApart(p, p', e.w);
    forall v: nat ensures WorkerOk(blobs, p', v) { LeaveKeepsWorker(blobs, p, e, v); }
    forall j: nat ensures BlobOk(blobs, p', j) { LeaveKeepsBlob(blobs, p, e, j); }
    forall f: string ensures FileOk(blobs, p', f) { assert FileOk(blobs, p, f); }
  }

  lemma LeaveKeepsWorker(blobs: seq<Blob>, p: Pool, e: Event, v: nat)
    requires Inv(blobs, p) && Enabled(blobs, p, e) && (e.Check? || e.SendError? || e.Cancel? || e.Drain?)
    ensures WorkerOk(blobs, Next(blobs, p, e), v)
  {
    assert WorkerOk(blobs, p, v) && WorkerOk(blobs, p, e.w);
  }

  lemma LeaveKeepsBlob(blobs: seq<Blob>, p: Pool, e: Event, j: nat)
    requires Inv(blobs, p) && Enabled(blobs, p, e) && (e.Check? || e.SendError? || e.Cancel? || e.Drain?)
    ensures BlobOk(blobs, Next(blobs, p, e), j)
  {
    var p' := Next(blobs, p, e);
    assert BlobOk(blobs, p, j) && WorkerOk(blobs, p, e.w);
    if HasWorker(p, j) && (AtBlob(p.workers[e.w]) == Some(j) ==> AtBlob(p'.workers[e.w]) == Some(j)) {
      OthersStay(p, p', e.w, j);
    }
  }

  // Opening, writing and finishing: only this worker touches a file that one blob alone has.

  predicate OnFile(e: Event) {
    e.Open? || e.Write? || e.Finish?
  }

  /** The worker itself. */
  lemma FileStepKeepsOwn(blobs: seq<Blob>, p: Pool, e: Event)
    requires OnFile(e) && WorkerOk(blobs, p, e.w) && Enabled(blobs, p, e)
    ensures WorkerOk(blobs, Next(blobs, p, e), e.w)
  {
    if e.Write? {
      var read := p.workers[e.w].read;
      assert Overlay(read, |read|, e.chunk) == read + e.chunk;
    }
  }

  /** Files other than that of blob j0, and blobs other than j0, are as they were. */
  ghost predicate OnlyBlob(blobs: seq<Blob>, p: Pool, p': Pool, j0: nat) {
    && j0 < |blobs| && p'.taken == p.taken && p.done <= p'.done <= p.done + {j0}
    && p.files.Keys <= p'.files.Keys <= p.files.Keys + {blobs[j0].name}
    && forall f :: f in p.files && f != blobs[j0].name ==> p'.files[f] == p.files[f]
  }

  lemma FileStepOnlyBlob(blobs: seq<Blob>, p: Pool, e: Event)
    requires OnFile(e) && Enabled(blobs, p, e)
    ensures OnlyBlob(blobs, p, Next(blobs, p, e), p.workers[e.w].j)
  {
  }

  /** Another worker. */
  lemma OtherWorkerStays(blobs: seq<Blob>, p: Pool, p': Pool, v: nat, j0: nat)
    requires WorkerOk(blobs, p, v) && OnlyBlob(blobs, p, p', j0) && v < |p.workers| == |p'.workers|
    requires p'.workers[v] == p.workers[v] && AtBlob(p.workers[v]) != Some(j0)
    requires p'.failed == p.failed && p'.cancelled == p.cancelled && p'.producer == p.producer && p'.sent == p.sent
    ensures WorkerOk(blobs, p', v)
  {
    if AtBlob(p.workers[v]).Some? { OtherBlobStays(blobs, p, p', AtBlob(p.workers[v]).value, j0); }
  }

  /** A blob of a name of its own keeps its file. */
  lemma OtherBlobStays(blobs: seq<Blob>, p: Pool, p': Pool, j: nat, j0: nat)
    requires OnlyBlob(blobs, p, p', j0) && j != j0
    ensures j in p'.done <==> j in p.done
    ensures j < |blobs| && blobs[j].name in p.files ==> blobs[j].name in p'.files
    ensures j < |blobs| && Alone(blobs, j) && blobs[j].name in p'.files ==>
              blobs[j].name in p.files && p'.files[blobs[j].name] == p.files[blobs[j].name]
  {
  }

  lemma FileStepKeepsWorker(blobs: seq<Blob>, p: Pool, e: Event, v: nat)
    requires Inv(blobs, p) && Enabled(blobs, p, e) && OnFile(e)
    ensures WorkerOk(blobs, Next(blobs, p, e), v)
  {
    assert WorkerOk(blobs, p, e.w) && WorkerOk(blobs, p, v) && Apart(p, v, e.w);
    if v == e.w {
      FileStepKeepsOwn(blobs, p, e);
    } else if v < |p.workers| {
      FileStepOnlyBlob(blobs, p, e);
      OtherWorkerStays(blobs, p, Next(blobs, p, e), v, p.workers[e.w].j);
    }
  }

  lemma FileStepKeepsBlob(blobs: seq<Blob>, p: Pool, e: Event, j: nat)
    requires Inv(blobs, p) && Enabled(blobs, p, e) && OnFile(e)
    ensures BlobOk(blobs, Next(blobs, p, e), j)
  {
    var p' := Next(blobs, p, e);
    var j0 := p.workers[e.w].j;
    assert BlobOk(blobs, p, j) && WorkerOk(blobs, p, e.w);
    if j == j0 {
      FileStepKeepsOwnBlob(blobs, p, e);
    } else {
      FileStepOnlyBlob(blobs, p, e);
      OtherBlobStays(blobs, p, p', j, j0);
      if HasWorker(p, j) { OthersStay(p, p', e.w, j); }
    }
  }

  lemma FileStepKeepsOwnBlob(blobs: seq<Blob>, p: Pool, e: Event)
    requires Enabled(blobs, p, e) && OnFile(e) && WorkerOk(blobs, p, e.w) && BlobOk(blobs, p, p.workers[e.w].j)
    ensures BlobOk(blobs, Next(blobs, p, e), p.workers[e.w].j)
  {
    var p' := Next(blobs, p, e);
    var j0 := p.workers[e.w].j;
    assert AtBlob(p'.workers[e.w]) == Some(j0) ==> WorksAt(p', e.w, j0);
  }

  lemma FileStepKeepsInv(blobs: seq<Blob>, p: Pool, e: Event)
    requires Inv(blobs, p) && Enabled(blobs, p, e) && OnFile(e)
    ensures Inv(blobs, Next(blobs, p, e))
  {
    var p' := Next(blobs, p, e);
    WorkerKeepsShape(blobs, p, e);
    StayApart(p, p', e.w);
    forall v: nat ensures WorkerOk(blobs, p', v) { FileStepKeepsWorker(blobs, p, e, v); }
    forall j: nat ensures BlobOk(blobs, p', j) { FileStepKeepsBlob(blobs, p, e, j); }
    forall f: string ensures FileOk(blobs, p', f) {
      assert FileOk(blobs, p, f);
      if f == blobs[p.workers[e.w].j].name { assert NamesBlob(blobs, f); }
    }
  }

  lemma StepKeepsInv(blobs: seq<Blob>, p: Pool, e: Event)
    requires Inv(blobs, p) && Enabled(blobs, p, e)
    ensures Inv(blobs, Next(blobs, p, e))
  {
    if e.Take? {
      TakeKeepsInv(blobs, p, e);
    } else if e.Check? || e.SendError? || e.Cancel? || e.Drain? {
      LeaveKeepsInv(blobs, p, e);
    } else if OnFile(e) {
      FileStepKeepsInv(blobs, p, e);
    } else {
      ProducerKeepsInv(blobs, p, e);
    }
  }

  lemma {:induction false} RunKeepsInv(blobs: seq<Blob>, p: Pool, events: seq<Event>, p': Pool)
    requires Inv(blobs, p) && Run(blobs, p, events, p')
    ensures Inv(blobs, p')
    decreases |events|
  {
    if events != [] {
      StepKeepsInv(blobs, p, events[0]);
      RunKeepsInv(blobs, Next(blobs, p, events[0]), events[1..], p');
    }
  }

  lemma ReachableInv(blobs: seq<Blob>, p: Pool)
    requires Reachable(blobs, p)
    ensures Inv(blobs, p)
  {
    var p0, events :| Initial(p0) && Run(blobs, p0, events, p);
    RunKeepsInv(blobs, p0, events, p);
  }

  // ---- Results ------------------------------------------------------------------------------

  /** When the pool returns without an error, a file whose name only one blob has holds what
      that blob's digest was taken over, also when the caller's context was cancelled. */
  lemma SuccessIsChecked(blobs: seq<Blob>, p: Pool, j: nat)
    requires Reachable(blobs, p) && p.producer == Returned(true)
    requires j < |blobs| && Alone(blobs, j) && blobs[j].name in p.files
    ensures Accepted(blobs[j], p.files[blobs[j].name])
  {
    ReachableInv(blobs, p);
    assert BlobOk(blobs, p, j);
    NobodyBusy(p, j);
  }

  lemma NobodyBusy(p: Pool, j: nat)
    requires forall w: nat :: WorkerGone(p, w)
    ensures !HasWorker(p, j)
  {
    forall w: nat ensures !WorksAt(p, w, j) { assert WorkerGone(p, w); }
  }

  /** When the pool returns without an error and the caller's context lives, every blob was
      received, read to its end and accepted, and has its file. */
  lemma SuccessIsComplete(blobs: seq<Blob>, p: Pool, j: nat)
    requires Reachable(blobs, p) && p.producer == Returned(true) && !p.parent && j < |blobs|
    ensures j in p.done && blobs[j].name in p.files && ValidShardName(blobs[j].name)
    ensures Alone(blobs, j) ==> Accepted(blobs[j], p.files[blobs[j].name])
  {
    ReachableInv(blobs, p);
    assert WorkerOk(blobs, p, 0) && WorkerGone(p, 0);
    assert BlobOk(blobs, p, j);
    NobodyBusy(p, j);
  }

  // ---- Runs without a fault -----------------------------------------------------------------

  /** No context is cancelled, no name refused, no file fails to open, and what is read to its end
      has the blob's size and digest. */
  predicate Faultless(blobs: seq<Blob>, p: Pool, e: Event)
    requires Enabled(blobs, p, e)
  {
    match e
    case Open(_, ok) => ok
    case Finish(w, ok) =>
      var b, read := blobs[p.workers[w].j], p.workers[w].read;
      ok && |read| == b.size && DigestOf(read) == b.digest
    case RefuseName => false
    case CancelParent => false
    case _ => true
  }

  ghost predicate FaultlessRun(blobs: seq<Blob>, p: Pool, events: seq<Event>)
    decreases |events|
  {
    events == [] ||
    (Enabled(blobs, p, events[0]) && Faultless(blobs, p, events[0])
     && FaultlessRun(blobs, Next(blobs, p, events[0]), events[1..]))
  }

  predicate Working(w: Worker) {
    !w.Failing? && !w.Cancelling? && !w.Left?
  }

  /** Nothing has gone wrong. */
  ghost predicate Clean(p: Pool) {
    && !p.failed && !p.cancelled && !p.parent && !p.producer.Aborted? && p.producer != Returned(false)
    && forall w :: 0 <= w < |p.workers| ==> Working(p.workers[w])
  }

  lemma StepStaysClean(blobs: seq<Blob>, p: Pool, e: Event)
    requires Clean(p) && Enabled(blobs, p, e) && Faultless(blobs, p, e)
    ensures Clean(Next(blobs, p, e))
  {
  }

  lemma {:induction false} RunStaysClean(blobs: seq<Blob>, p: Pool, events: seq<Event>, p': Pool)
    requires Clean(p) && Run(blobs, p, events, p') && FaultlessRun(blobs, p, events)
    ensures Clean(p')
    decreases |events|
  {
    if events != [] {
      StepStaysClean(blobs, p, events[0]);
      RunStaysClean(blobs, Next(blobs, p, events[0]), events[1..], p');
    }
  }

  /** A pool in which nothing goes wrong returns without an error once it returns, with every
      blob's file. */
  lemma FaultlessSucceeds(blobs: seq<Blob>, p0: Pool, events: seq<Event>, p: Pool, j: nat)
    requires Initial(p0) && !p0.parent && Run(blobs, p0, events, p) && FaultlessRun(blobs, p0, events)
    requires p.producer.Returned? && j < |blobs|
    ensures p.producer == Returned(true) && blobs[j].name in p.files
    ensures Alone(blobs, j) ==> Accepted(blobs[j], p.files[blobs[j].name])
  {
    RunStaysClean(blobs, p0, events, p);
    RunKeepsInv(blobs, p0, events, p);
    assert Reachable(blobs, p);
    SuccessIsComplete(blobs, p, j);
  }

  /** Until it returns, the pool is never stuck, whatever has gone wrong. */
  lemma NeverStuck(blobs: seq<Blob>, p: Pool)
    requires Reachable(blobs, p) && !p.producer.Returned?
    ensures exists e: Event :: !e.CancelParent? && Enabled(blobs, p, e)
  {
    ReachableInv(blobs, p);
    if p.producer.Sending? {
      assert Enabled(blobs, p, if p.sent == |blobs| then Close
                               else if ValidShardName(blobs[p.sent].name) then Send else RefuseName);
    } else if w :| 0 <= w < |p.workers| && !Gone(p.workers[w]) {
      WorkerCanMove(blobs, p, w);
    } else {
      assert Enabled(blobs, p, Return);
    }
  }

  lemma WorkerCanMove(blobs: seq<Blob>, p: Pool, w: nat)
    requires Inv(blobs, p) && w < |p.workers| && Over(p.producer) && !Gone(p.workers[w])
    ensures exists e: Event :: !e.CancelParent? && Enabled(blobs, p, e)
  {
    assert WorkerOk(blobs, p, w);
    var e := match p.workers[w]
      case Idle => if p.taken < p.sent then Take(w) else Drain(w)
      case Holding(_) => Check(w)
      case Cleared(_) => Open(w, true)
      case Writing(_, _) => Finish(w, true)
      case Failing(_) => SendError(w)
      case _ => Cancel(w);
    assert Enabled(blobs, p, e);
  }

  lemma {:induction false} RunOneMore(blobs: seq<Blob>, p0: Pool, events: seq<Event>, p: Pool, e: Event)
    requires Run(blobs, p0, events, p) && Enabled(blobs, p, e)
    ensures Run(blobs, p0, events + [e], Next(blobs, p, e))
    decreases |events|
  {
    if events == [] {
      assert ([e])[1..] == [];
      assert [] + [e] == [e];
    } else {
      RunOneMore(blobs, Next(blobs, p0, events[0]), events[1..], p, e);
      assert (events + [e])[1..] == events[1..] + [e];
    }
  }

  lemma Reach(blobs: seq<Blob>, p: Pool, e: Event)
    requires Reachable(blobs, p) && Enabled(blobs, p, e)
    ensures Reachable(blobs, Next(blobs, p, e))
  {
    var p0, events :| Initial(p0) && Run(blobs, p0, events, p);
    RunOneMore(blobs, p0, events, p, e);
  }

  /** A pool whose producer has sent the one blob while the caller's context was cancelled. */
  lemma CancelledBeforeTaking(b: Blob) returns (p: Pool)
    requires ValidShardName(b.name)
    ensures Reachable([b], p) && p == Pool(1, 0, Closed, [Idle], map[], {}, false, true, true)
  {
    p := Pool(0, 0, Sending, [Idle], map[], {}, false, false, false);
    assert Run([b], p, [], p) && Reachable([b], p);
    Reach([b], p, Send);
    p := Next([b], p, Send);
    Reach([b], p, Close);
    p := Next([b], p, Close);
    Reach([b], p, CancelParent);
    p := Next([b], p, CancelParent);
  }

  /** With the caller's context cancelled before the only worker looks, the pool returns
      without an error and without the blob: the hypothesis above is needed. */
  lemma CancelledSuccessMayLackBlobs(b: Blob)
    requires ValidShardName(b.name)
    ensures exists p :: Reachable([b], p) && p.producer == Returned(true) && p.parent && b.name !in p.files
  {
    var p := CancelledBeforeTaking(b);
    Reach([b], p, Take(0));
    p := Next([b], p, Take(0));
    Reach([b], p, Check(0));
    p := Next([b], p, Check(0));
    Reach([b], p, Return);
    p := Next([b], p, Return);
  }
}
