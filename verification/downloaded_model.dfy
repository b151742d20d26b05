/** From a profile's shards to a published tree: the blobs the registry client maps them to
    (internal/registry/oras.go:130-161), the worker pool's files, and Ensure. */
module DownloadedModel {
  import opened Prelude
  import opened Publish
  import opened DownloadPool
  import opened ModelSteps
  import opened ModelService
  import opened Records
  import opened Recovery

  function BlobOf(s: Shard, size: int): Blob {
    Blob(TrimSpace(s.name), s.digest, size)
  }

  /** The registry has a layer for the shard, and its name can be a file name. */
  predicate Mappable(s: Shard, layers: map<Digest, int>) {
    s.digest in layers && ValidShardName(TrimSpace(s.name))
  }

  predicate MapsTo(s: Shard, layers: map<Digest, int>, b: Blob) {
    s.digest in layers && b == BlobOf(s, layers[s.digest])
  }

  method MapShard(s: Shard, layers: map<Digest, int>) returns (b: Option<Blob>)
    ensures b.Some? <==> Mappable(s, layers)
    ensures b.Some? ==> MapsTo(s, layers, b.value)
  {
    if s.digest !in layers { return None; }
    var name := TrimSpace(s.name);
    if !ValidShardName(name) { return None; }
    return Some(Blob(name, s.digest, layers[s.digest]));
  }

  predicate MappableAt(sorted: seq<Shard>, layers: map<Digest, int>, i: nat) {
    i < |sorted| ==> Mappable(sorted[i], layers)
  }

  predicate MappedAt(sorted: seq<Shard>, layers: map<Digest, int>, blobs: seq<Blob>, i: nat) {
    i < |blobs| && i < |sorted| ==> Mappable(sorted[i], layers) && MapsTo(sorted[i], layers, blobs[i])
  }

  /** The blobs of the first shards, one for each. */
  ghost predicate Mapped(sorted: seq<Shard>, layers: map<Digest, int>, blobs: seq<Blob>) {
    |blobs| <= |sorted| && forall i: nat :: MappedAt(sorted, layers, blobs, i)
  }

  lemma MappedOneMore(sorted: seq<Shard>, layers: map<Digest, int>, blobs: seq<Blob>, b: Blob)
    requires Mapped(sorted, layers, blobs) && |blobs| < |sorted|
    requires Mappable(sorted[|blobs|], layers) && MapsTo(sorted[|blobs|], layers, b)
    ensures Mapped(sorted, layers, blobs + [b])
  {
    forall i: nat ensures MappedAt(sorted, layers, blobs + [b], i) { assert MappedAt(sorted, layers, blobs, i); }
  }

  lemma AllMappable(sorted: seq<Shard>, layers: map<Digest, int>, blobs: seq<Blob>)
    requires Mapped(sorted, layers, blobs) && |blobs| == |sorted|
    ensures forall i: nat :: MappableAt(sorted, layers, i)
  {
    forall i: nat ensures MappableAt(sorted, layers, i) { assert MappedAt(sorted, layers, blobs, i); }
  }

  /** One blob for each shard, with the size of the manifest layer of its digest. (An empty
      trimmed name has been refused by the profile lint.) */
  method MapShards(sorted: seq<Shard>, layers: map<Digest, int>) returns (blobs: Option<seq<Blob>>)
    ensures blobs.Some? <==> forall i: nat :: MappableAt(sorted, layers, i)
    ensures blobs.Some? ==> |blobs.value| == |sorted| && Mapped(sorted, layers, blobs.value)
  {
    var mapped := [];
    for n := 0 to |sorted|
      invariant |mapped| == n && Mapped(sorted, layers, mapped)
    {
      var b := MapShard(sorted[n], layers);
      if b.None? {
        assert !MappableAt(sorted, layers, n);
        return None;
      }
      MappedOneMore(sorted, layers, mapped, b.value);
      mapped := mapped + [b.value];
    }
    AllMappable(sorted, layers, mapped);
    return Some(mapped);
  }

  predicate BlobAt(shards: seq<Shard>, layers: map<Digest, int>, order: seq<nat>, blobs: seq<Blob>, j: nat) {
    j < |order| && j < |blobs| ==> order[j] < |shards| && MapsTo(shards[order[j]], layers, blobs[j])
  }

  predicate Differ(order: seq<nat>, j: nat, k: nat) {
    j < |order| && k < |order| && j != k ==> order[j] != order[k]
  }

  predicate Listed(order: seq<nat>, i: nat) {
    exists j :: 0 <= j < |order| && order[j] == i
  }

  /** The blobs are those of the shards, in whatever order the shards were sorted into. */
  ghost predicate BlobsOf(shards: seq<Shard>, layers: map<Digest, int>, order: seq<nat>, blobs: seq<Blob>) {
    && |order| == |shards| == |blobs|
    && (forall j: nat :: BlobAt(shards, layers, order, blobs, j))
    && (forall j: nat, k: nat :: Differ(order, j, k))
    && (forall i: nat :: i < |shards| ==> Listed(order, i))
  }

  lemma BlobPosition(shards: seq<Shard>, layers: map<Digest, int>, order: seq<nat>, blobs: seq<Blob>, i: nat)
    returns (j: nat)
    requires BlobsOf(shards, layers, order, blobs) && i < |shards|
    ensures j < |blobs| && order[j] == i && MapsTo(shards[i], layers, blobs[j])
    ensures UniqueName(shards, i) ==> Alone(blobs, j)
  {
    assert Listed(order, i);
    j :| 0 <= j < |order| && order[j] == i;
    assert BlobAt(shards, layers, order, blobs, j);
    if UniqueName(shards, i) {
      forall k | 0 <= k < |blobs| && k != j ensures blobs[k].name != blobs[j].name {
        assert Differ(order, j, k) && BlobAt(shards, layers, order, blobs, k);
      }
    }
  }

  lemma BlobNamesShard(shards: seq<Shard>, layers: map<Digest, int>, order: seq<nat>, blobs: seq<Blob>, f: string)
    requires BlobsOf(shards, layers, order, blobs) && NamesBlob(blobs, f)
    ensures NamesShard(shards, f)
  {
    var j :| 0 <= j < |blobs| && blobs[j].name == f;
    assert BlobAt(shards, layers, order, blobs, j);
    assert TrimSpace(shards[order[j]].name) == f;
  }

  /** Whatever the workers did, a pool that returns without an error leaves files that fit the
      profile: this is all that the agreement of the two verifications needs. */
  lemma PoolFits(shards: seq<Shard>, layers: map<Digest, int>, order: seq<nat>, blobs: seq<Blob>, p: Pool)
    requires BlobsOf(shards, layers, order, blobs) && Reachable(blobs, p) && p.producer == Returned(true)
    ensures GroundedFiles(shards, p.files)
  {
    ReachableInv(blobs, p);
    forall f | f in p.files ensures NamesShard(shards, f) {
      assert FileOk(blobs, p, f);
      BlobNamesShard(shards, layers, order, blobs, f);
    }
    forall i | 0 <= i < |shards| && UniqueName(shards, i) ensures ShardGrounded(shards[i], p.files) {
      var j := BlobPosition(shards, layers, order, blobs, i);
      if blobs[j].name in p.files { SuccessIsChecked(blobs, p, j); }
    }
  }

  predicate SizeKnown(s: Shard, layers: map<Digest, int>) {
    s.digest in layers && layers[s.digest] == s.size
  }

  predicate NamesDiffer(shards: seq<Shard>, i: nat, j: nat) {
    i < j < |shards| ==> shards[i].name != shards[j].name
  }

  /** What a profile must be for its download to verify: names without surrounding space, all
      different, and layers of the sizes the profile gives. */
  ghost predicate WellDescribed(shards: seq<Shard>, layers: map<Digest, int>) {
    && NamesTrimmed(shards)
    && (forall i: nat, j: nat :: NamesDiffer(shards, i, j))
    && (forall i :: 0 <= i < |shards| ==> SizeKnown(shards[i], layers))
  }

  lemma {:induction false} DistinctNamesCount(shards: seq<Shard>)
    requires forall i: nat, j: nat :: NamesDiffer(shards, i, j)
    ensures |Names(shards)| == |shards|
  {
    if shards != [] {
      var n := |shards| - 1;
      forall i: nat, j: nat ensures NamesDiffer(shards[..n], i, j) { assert NamesDiffer(shards, i, j); }
      DistinctNamesCount(shards[..n]);
      LastNameIsNew(shards);
      NamesOfLonger(shards);
    }
  }

  lemma LastNameIsNew(shards: seq<Shard>)
    requires shards != [] && forall i: nat, j: nat :: NamesDiffer(shards, i, j)
    ensures shards[|shards| - 1].name !in Names(shards[..|shards| - 1])
  {
    var n := |shards| - 1;
    forall i | 0 <= i < n ensures shards[..n][i].name != shards[n].name { assert NamesDiffer(shards, i, n); }
  }

  lemma WellDescribedUnique(shards: seq<Shard>, layers: map<Digest, int>, i: nat)
    requires WellDescribed(shards, layers) && i < |shards|
    ensures UniqueName(shards, i) && TrimSpace(shards[i].name) == shards[i].name
  {
    assert NameTrimmed(shards[i]);
    forall j | 0 <= j < |shards| && j != i ensures TrimSpace(shards[j].name) != TrimSpace(shards[i].name) {
      assert NameTrimmed(shards[j]) && NamesDiffer(shards, i, j) && NamesDiffer(shards, j, i);
    }
  }

  lemma CompleteShard(shards: seq<Shard>, layers: map<Digest, int>, order: seq<nat>, blobs: seq<Blob>, p: Pool, i: nat)
    requires BlobsOf(shards, layers, order, blobs) && Reachable(blobs, p)
    requires p.producer == Returned(true) && !p.parent && i < |shards|
    ensures shards[i].digest in layers
    ensures TrimSpace(shards[i].name) in p.files && ValidShardName(TrimSpace(shards[i].name))
    ensures UniqueName(shards, i) ==>
              |p.files[TrimSpace(shards[i].name)]| == layers[shards[i].digest]
              && DigestOf(p.files[TrimSpace(shards[i].name)]) == shards[i].digest
  {
    var j := BlobPosition(shards, layers, order, blobs, i);
    SuccessIsComplete(blobs, p, j);
  }

  /** The files of a well described profile are exactly its shards. */
  lemma FilesAreNames(shards: seq<Shard>, layers: map<Digest, int>, order: seq<nat>, blobs: seq<Blob>, p: Pool)
    requires BlobsOf(shards, layers, order, blobs) && Reachable(blobs, p)
    requires p.producer == Returned(true) && !p.parent && WellDescribed(shards, layers)
    ensures Names(shards) == p.files.Keys
  {
    PoolFits(shards, layers, order, blobs, p);
    forall f | f in p.files ensures f in Names(shards) { FileIsName(shards, f); }
    forall f | f in Names(shards) ensures f in p.files {
      var i :| 0 <= i < |shards| && shards[i].name == f;
      WellDescribedUnique(shards, layers, i);
      CompleteShard(shards, layers, order, blobs, p, i);
    }
  }

  lemma WellDescribedVerifies(shards: seq<Shard>, layers: map<Digest, int>, order: seq<nat>, blobs: seq<Blob>,
                              p: Pool, bytes: int)
    requires BlobsOf(shards, layers, order, blobs) && Reachable(blobs, p)
    requires p.producer == Returned(true) && !p.parent && WellDescribed(shards, layers)
    ensures FullOk(Staged(Metadata(bytes, shards), p.files))
  {
    var t := Staged(Metadata(bytes, shards), p.files);
    forall i | 0 <= i < |shards| ensures ShardPresent(t, shards[i]) && ShardIntact(t, shards[i]) {
      WellDescribedUnique(shards, layers, i);
      CompleteShard(shards, layers, order, blobs, p, i);
      assert SizeKnown(shards[i], layers);
    }
    DistinctNamesCount(shards);
    FilesAreNames(shards, layers, order, blobs, p);
  }

  lemma QuickNamesDiffer(t: Tree)
    requires Grounded(t) && QuickOk(t)
    ensures forall i: nat, j: nat :: NamesDiffer(t.metadata.value.shards, i, j)
    ensures forall i :: 0 <= i < |t.metadata.value.shards| ==> UniqueName(t.metadata.value.shards, i)
  {
    QuickNamesExact(t);
  }

  lemma VerifyingIsWellDescribed(shards: seq<Shard>, layers: map<Digest, int>, order: seq<nat>, blobs: seq<Blob>,
                                 p: Pool, bytes: int)
    requires BlobsOf(shards, layers, order, blobs) && Reachable(blobs, p)
    requires p.producer == Returned(true) && !p.parent && FullOk(Staged(Metadata(bytes, shards), p.files))
    ensures WellDescribed(shards, layers)
  {
    PoolFits(shards, layers, order, blobs, p);
    var t := Staged(Metadata(bytes, shards), p.files);
    QuickNamesTrimmed(t);
    QuickNamesDiffer(t);
    forall i | 0 <= i < |shards| ensures SizeKnown(shards[i], layers) {
      assert ShardPresent(t, shards[i]) && NameTrimmed(shards[i]);
      CompleteShard(shards, layers, order, blobs, p, i);
    }
  }

  /** The staged tree of a finished download passes the full verification exactly when the
      profile is well described, for every interleaving of the workers. */
  lemma DownloadVerifies(shards: seq<Shard>, layers: map<Digest, int>, order: seq<nat>, blobs: seq<Blob>,
                         p: Pool, bytes: int)
    requires BlobsOf(shards, layers, order, blobs) && Reachable(blobs, p)
    requires p.producer == Returned(true) && !p.parent
    ensures FullOk(Staged(Metadata(bytes, shards), p.files)) <==> WellDescribed(shards, layers)
  {
    if WellDescribed(shards, layers) {
      WellDescribedVerifies(shards, layers, order, blobs, p, bytes);
    } else if FullOk(Staged(Metadata(bytes, shards), p.files)) {
      VerifyingIsWellDescribed(shards, layers, order, blobs, p, bytes);
    }
  }

  /** Ensure on top of any run of the worker pool: READY means that the tree at the final path
      passes the full verification. */
  method EnsureDownloaded(s: Service, k: Key, holder: string, metadata: Metadata, layers: map<Digest, int>,
                          ghost order: seq<nat>, ghost blobs: seq<Blob>, p: Pool) returns (status: Status)
    requires BlobsOf(metadata.shards, layers, order, blobs) && Reachable(blobs, p)
    requires p.producer.Returned? && !p.parent && WellDescribed(metadata.shards, layers)
    modifies s
    ensures s.Finished(k, EnsureOp(holder), old(s.At(k)))
    ensures status == READY ==>
              && k in s.records && s.records[k].status == Ready && s.records[k].hasPath
              && (holder != "" ==> HasHolder(s.records[k].leases, holder))
              && k in s.trees && FullOk(s.trees[k])
    ensures p.producer.success && s.faults == old(s.faults) && (k in old(s.trees) ==> FullOk(old(s.trees)[k])) ==>
              status == READY
    ensures k in old(s.trees) ==> k in s.trees && s.trees[k] == old(s.trees[k])
  {
    if p.producer.success {
      PoolFits(metadata.shards, layers, order, blobs, p);
      WellDescribedVerifies(metadata.shards, layers, order, blobs, p, metadata.bytes);
      status := s.Ensure(k, holder, Profile(metadata), Files(p.files));
    } else {
      status := s.Ensure(k, holder, Profile(metadata), DownloadFailed(RegistryFailure));
    }
  }

  /** What GPUAllocate takes from Ensure when a model is asked for by reference is what Ensure
      promises (internal/app/gpu.go:364-390). */
  method EnsureByReference(s: Service, k: Key, holder: string, fetch: Fetch, download: Download) returns (e: Ensured)
    requires DownloadFits(fetch, download)
    modifies s
    ensures EnsureFits(old(s.At(k)).record, holder, e) && e.record == s.At(k).record
    ensures e.ready ==> k in s.trees
  {
    var status := s.Ensure(k, holder, fetch, download);
    e := Ensured(status == READY, if k in s.records then Some(s.records[k]) else None);
  }
}
