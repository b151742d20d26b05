/** What device memory holds: the reads of PersistentLoad, the size check of the Go loader and
    the ownership of buffers in all interleavings, put together (internal/gpu/gds_linux.go:292-398).
    Files do not change while they are loaded, and nobody else writes the loader's buffers. */
module LoaderContents {
  import opened Prelude
  import opened CudaBridge
  import opened LoaderState
  import opened LoaderRuns
  import PersistentLoad
  import DeviceIo

  type Bytes = seq<byte>

  /** The loader's calls, and what is in each buffer they allocated. */
  datatype World = World(sys: Sys, memory: map<int, Bytes>)

  /** A step, and for a read that delivers a buffer the buffer's contents. */
  datatype Event = Event(action: Action, content: Bytes)

  /** What gds_load_persistent promises of a buffer it returns. */
  predicate ReadPromise(file: Bytes, total: int, content: Bytes) {
    |content| == |file| && (total == |file| ==> content == file)
  }

  /** The promise is the one proved of the copy. */
  method Read(d: DeviceIo.Device, chunkBytes: int, strict: bool) returns (rc: int, total: int, content: Bytes)
    requires d.Valid() && PersistentLoad.Closed(d.ledger) && chunkBytes > 0 && d.delivered == {} && !d.hostLoop
    modifies d
    ensures rc == 0 ==> ReadPromise(d.file, total, content)
  {
    var out, direct;
    rc, out, total, direct := PersistentLoad.LoadPersistent(d, chunkBytes, strict);
    content := if rc == 0 then out[..] else [];
  }

  predicate Delivers(w: World, e: Event)
    requires Enabled(w.sys, e.action)
  {
    && e.action.FinishRead?
    && LoadBuffer(w.sys.loader.driver, w.sys.calls[e.action.t].key.device, e.action.codes, e.action.outcome).1.LoadDone?
  }

  /** The loader compares the reported total with the size of the file. */
  predicate Possible(files: map<string, Bytes>, w: World, e: Event) {
    && Enabled(w.sys, e.action)
    && (Delivers(w, e) ==>
          var path := w.sys.calls[e.action.t].key.path;
          && path in files
          && ReadPromise(files[path], e.action.outcome.total, e.content)
          && (e.action.sizeMatches <==> e.action.outcome.total == |files[path]|))
  }

  ghost function After(files: map<string, Bytes>, w: World, e: Event): World
    requires Possible(files, w, e)
  {
    World(LoaderRuns.Next(w.sys, e.action),
          if Delivers(w, e) then w.memory[e.action.outcome.ptr := e.content] else w.memory)
  }

  ghost predicate Happens(files: map<string, Bytes>, w: World, events: seq<Event>, w': World)
    decreases |events|
  {
    if events == [] then w == w'
    else Possible(files, w, events[0]) && Happens(files, After(files, w, events[0]), events[1..], w')
  }

  ghost predicate Reached(files: map<string, Bytes>, w: World) {
    exists w0: World, events :: LoaderRuns.Initial(w0.sys) && Happens(files, w0, events, w)
  }

  // ---- The invariant ------------------------------------------------------------------------

  predicate HoldsFile(files: map<string, Bytes>, memory: map<int, Bytes>, k: Key, ptr: int, bytes: int) {
    k.path in files && ptr in memory && memory[ptr] == files[k.path] && bytes == |files[k.path]|
  }

  ghost predicate EntryHolds(files: map<string, Bytes>, w: World, k: Key) {
    k in w.sys.loader.allocations ==>
      HoldsFile(files, w.memory, k, w.sys.loader.allocations[k].ptr, w.sys.loader.allocations[k].bytes)
  }

  /** A call that is about to enter its buffer has read the whole file into it. */
  ghost predicate CallHolds(files: map<string, Bytes>, w: World, t: nat) {
    t in w.sys.calls && w.sys.calls[t].Holding? ==>
      HoldsFile(files, w.memory, w.sys.calls[t].key, w.sys.calls[t].ptr, w.sys.calls[t].total)
  }

  ghost predicate FilesHeld(files: map<string, Bytes>, w: World) {
    && (forall k: Key :: EntryHolds(files, w, k))
    && (forall t: nat :: CallHolds(files, w, t))
  }

  /** Only the re-check makes an entry; everything else keeps an entry's buffer or drops it. */
  lemma EntriesKeepBuffers(s: Sys, a: Action, k: Key)
    requires Enabled(s, a) && !a.Recheck? && k in LoaderRuns.Next(s, a).loader.allocations
    ensures k in s.loader.allocations
    ensures LoaderRuns.Next(s, a).loader.allocations[k].ptr == s.loader.allocations[k].ptr
    ensures LoaderRuns.Next(s, a).loader.allocations[k].bytes == s.loader.allocations[k].bytes
  {
    if a.BeginLoad? || a.EndLoad? || a.StartBenchmark? || a.EndBenchmark? { OtherStepSameEntries(s, a); }
  }

  lemma ReadKeepsFilesHeld(files: map<string, Bytes>, w: World, e: Event)
    requires FilesHeld(files, w) && BuffersOwned(w.sys) && Possible(files, w, e) && Delivers(w, e)
    ensures FilesHeld(files, After(files, w, e))
  {
    var w' := After(files, w, e);
    var p := e.action.outcome.ptr;
    forall k: Key ensures EntryHolds(files, w', k) {
      assert EntryHolds(files, w, k);
      if k in w'.sys.loader.allocations { assert Backs(w.sys, k, w.sys.loader.allocations[k].ptr); }
    }
    forall t: nat ensures CallHolds(files, w', t) {
      assert CallHolds(files, w, t);
      if t != e.action.t && t in w.sys.calls && w.sys.calls[t].Holding? { assert Owns(w.sys, t, w.sys.calls[t].ptr); }
    }
  }

  lemma RecheckKeepsFilesHeld(files: map<string, Bytes>, w: World, e: Event)
    requires FilesHeld(files, w) && Possible(files, w, e) && e.action.Recheck?
    ensures FilesHeld(files, After(files, w, e))
  {
    var w' := After(files, w, e);
    assert CallHolds(files, w, e.action.t);
    forall k: Key ensures EntryHolds(files, w', k) { assert EntryHolds(files, w, k); }
    forall t: nat ensures CallHolds(files, w', t) { assert CallHolds(files, w, t); }
  }

  lemma OtherKeepsFilesHeld(files: map<string, Bytes>, w: World, e: Event)
    requires FilesHeld(files, w) && Possible(files, w, e) && !Delivers(w, e) && !e.action.Recheck?
    ensures FilesHeld(files, After(files, w, e))
  {
    var w' := After(files, w, e);
    forall k: Key ensures EntryHolds(files, w', k) {
      assert EntryHolds(files, w, k);
      if k in w'.sys.loader.allocations { EntriesKeepBuffers(w.sys, e.action, k); }
    }
    forall t: nat ensures CallHolds(files, w', t) { assert CallHolds(files, w, t); }
  }

  lemma {:induction false} HappensKeeps(files: map<string, Bytes>, w: World, events: seq<Event>, w': World)
    requires Happens(files, w, events, w') && FilesHeld(files, w) && LoaderRuns.Inv(w.sys)
    ensures FilesHeld(files, w')
    decreases |events|
  {
    if events != [] {
      var e := events[0];
      if Delivers(w, e) {
        ReadKeepsFilesHeld(files, w, e);
      } else if e.action.Recheck? {
        RecheckKeepsFilesHeld(files, w, e);
      } else {
        OtherKeepsFilesHeld(files, w, e);
      }
      StepKeepsInv(w.sys, e.action);
      HappensKeeps(files, After(files, w, e), events[1..], w');
    }
  }

  /** In every interleaving, the buffer of a resident entry holds its file, byte for byte. */
  lemma ResidentBuffersHoldFiles(files: map<string, Bytes>, w: World, k: Key)
    requires Reached(files, w) && k in w.sys.loader.allocations
    ensures k.path in files && w.sys.loader.allocations[k].ptr in w.memory
    ensures w.memory[w.sys.loader.allocations[k].ptr] == files[k.path]
    ensures w.sys.loader.allocations[k].bytes == |files[k.path]|
  {
    var w0: World, events :| LoaderRuns.Initial(w0.sys) && Happens(files, w0, events, w);
    InitialInv(w0.sys);
    assert FilesHeld(files, w0);
    HappensKeeps(files, w0, events, w);
    assert EntryHolds(files, w, k);
  }
}
