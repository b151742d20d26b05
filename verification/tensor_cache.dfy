/** The tensor-map cache (internal/app/gpu_tensor_map.go:118-250): snapshots in shared memory,
    deep copies in and out, and the build that runs between two critical sections. Shard files
    do not change while the cache is in use. */
module TensorCache {
  import opened Prelude
  import opened Publish
  import opened OldestFirst
  import opened TensorParse

  /** A descriptor as the cache holds it: the shape is a slice, shared unless it is copied. */
  datatype Descriptor = Descriptor(head: Tensor, shape: array?<int>)

  /** head.shape is not used; the shape lives in the array. */
  function Head(t: Tensor): Tensor {
    t.(shape := [])
  }

  ghost function Shapes(a: array<Descriptor>): set<object>
    reads a
  {
    set i | 0 <= i < a.Length && a[i].shape != null :: a[i].shape
  }

  /** Everything a write through the slice can reach. */
  ghost function Footprint(a: array<Descriptor>): set<object>
    reads a
  {
    {a} + Shapes(a)
  }

  ghost predicate ShowsAt(a: array<Descriptor>, i: nat, t: Tensor)
    requires i < a.Length
    reads a, Shapes(a)
  {
    a[i].shape != null && (assert a[i].shape in Shapes(a); a[i].shape[..] == t.shape) && a[i].head == Head(t)
  }

  /** The slice holds exactly these tensors. */
  ghost predicate Shows(a: array<Descriptor>, ts: seq<Tensor>)
    reads a, Shapes(a)
  {
    a.Length == |ts| && forall i :: 0 <= i < a.Length ==> ShowsAt(a, i, ts[i])
  }

  method CopyShape(s: array<int>) returns (c: array<int>)
    ensures fresh(c) && c[..] == s[..]
  {
    c := new int[s.Length];
    for i := 0 to s.Length
      invariant forall j :: 0 <= j < i ==> c[j] == s[j]
    {
      c[i] := s[i];
    }
  }

  /** cloneTensorDescriptors: nothing of the copy is shared with the original. */
  method Clone(from: array<Descriptor>, ghost ts: seq<Tensor>) returns (out: array<Descriptor>)
    requires Shows(from, ts)
    ensures fresh(Footprint(out)) && Shows(out, ts)
  {
    out := new Descriptor[from.Length];
    for i := 0 to from.Length
      invariant fresh(out) && out.Length == from.Length && Shows(from, ts)
      invariant forall j :: 0 <= j < i ==> out[j].shape != null && fresh(out[j].shape)
      invariant forall j :: 0 <= j < i ==> out[j].shape[..] == ts[j].shape && out[j].head == Head(ts[j])
    {
      assert ShowsAt(from, i, ts[i]);
      var shape := CopyShape(from[i].shape);
      out[i] := Descriptor(from[i].head, shape);
    }
  }

  /** A slice of freshly parsed descriptors. */
  method Allocate(ts: seq<Tensor>) returns (out: array<Descriptor>)
    ensures fresh(Footprint(out)) && Shows(out, ts)
  {
    out := new Descriptor[|ts|];
    for i := 0 to |ts|
      invariant fresh(out) && out.Length == |ts|
      invariant forall j :: 0 <= j < i ==> out[j].shape != null && fresh(out[j].shape)
      invariant forall j :: 0 <= j < i ==> out[j].shape[..] == ts[j].shape && out[j].head == Head(ts[j])
    {
      var shape := new int[|ts[i].shape|](n requires 0 <= n < |ts[i].shape| => ts[i].shape[n]);
      assert shape[..] == ts[i].shape;
      out[i] := Descriptor(Head(ts[i]), shape);
    }
  }

  // ---- The cache ----------------------------------------------------------------------------

  /** A model's weight shards in order, and its shard files. */
  datatype Model = Model(shards: seq<Shard>, files: map<string, ShardFile>)

  datatype Snapshot = Snapshot(builtAt: int, tensors: array<Descriptor>)

  /** What a parse of the model's files gives. */
  ghost function Parsed(models: map<string, Model>, key: string): Option<seq<Tensor>> {
    if key !in models || models[key].shards == [] then None else ModelTensors(models[key].shards, models[key].files)
  }

  function BuiltAt(snap: Snapshot): int {
    snap.builtAt
  }

  /** What an insertion leaves of the entries: all while there is room, else one less than the
      limit, and none of those that went is younger than one that stayed. */
  ghost predicate YoungestOf(before: map<string, Snapshot>, kept: map<string, Snapshot>, limit: nat) {
    && (forall k :: k in kept ==> k in before && kept[k] == before[k])
    && |kept| == (if |before| < limit then |before| else limit - 1)
    && OldestGone(Ages(before, BuiltAt), kept.Keys)
  }

  ghost predicate Entered(before: map<string, Snapshot>, after: map<string, Snapshot>, key: string, snap: Snapshot,
                          limit: nat) {
    key in after && after[key] == snap && YoungestOf(before, after - {key}, limit)
  }

  class Cache {
    const maxEntries: int
    const models: map<string, Model>
    var entries: map<string, Snapshot>
    var hits: nat
    var misses: nat
    var evictions: nat
    ghost var inserts: nat
    ghost var Repr: set<object>

    constructor (maxEntries: int, models: map<string, Model>)
      requires AllSized(models)
      ensures Valid() && entries == map[] && inserts == evictions == hits == misses == 0
      ensures this.maxEntries == maxEntries && this.models == models
    {
      this.maxEntries, this.models := maxEntries, models;
      entries, hits, misses, evictions, inserts, Repr := map[], 0, 0, 0, 0, {};
    }

    function Limit(): (n: nat)
      ensures n > 0
      ensures maxEntries > 0 ==> n == maxEntries
      ensures maxEntries <= 0 ==> n == 128
    {
      if maxEntries <= 0 then 128 else maxEntries
    }

    /** The entry's slice belongs to the cache alone and shows what a fresh parse would. */
    ghost predicate Held(key: string)
      reads this`entries, this`Repr, Repr
    {
      key in entries ==>
        && entries[key].tensors in Repr && Shapes(entries[key].tensors) <= Repr
        && Parsed(models, key).Some? && Shows(entries[key].tensors, Parsed(models, key).value)
    }

    ghost predicate Valid()
      reads this, Repr
    {
      && this !in Repr
      && (forall key: string :: Held(key))
      && |entries| <= Limit() && inserts == |entries| + evictions
      && AllSized(models)
    }

    /** Makes room for extra entries by dropping the oldest. */
    method Evict(extra: nat) returns (evicted: nat)
      requires extra <= Limit()
      modifies this`entries
      ensures evicted == if |old(entries)| + extra <= Limit() then 0 else |old(entries)| + extra - Limit()
      ensures |entries| + evicted == |old(entries)| && |entries| + extra <= Limit()
      ensures forall k :: k in entries ==> k in old(entries) && entries[k] == old(entries)[k]
      ensures OldestGone(Ages(old(entries), BuiltAt), entries.Keys)
    {
      evicted := 0;
      var ages := Ages(entries, BuiltAt);
      if |entries| + extra <= Limit() { return; }
      entries, evicted := DropOldest(entries, ages, |entries| + extra - Limit());
    }

    /** A copy of an entry's slice. */
    method CopyEntry(key: string) returns (r: array<Descriptor>)
      requires Held(key) && key in entries
      ensures fresh(Footprint(r)) && Shows(r, Parsed(models, key).value)
    {
      r := Clone(entries[key].tensors, Parsed(models, key).value);
    }

    /** The read under the shared lock, with its copy. */
    method Probe(key: string) returns (r: array?<Descriptor>)
      requires Valid()
      modifies this`hits, this`misses
      ensures Valid()
      ensures r != null <==> key in entries
      ensures r != null ==> fresh(Footprint(r)) && Parsed(models, key).Some? && Shows(r, Parsed(models, key).value)
      ensures hits == old(hits) + (if key in entries then 1 else 0)
      ensures misses == old(misses) + (if key in entries then 0 else 1)
    {
      assert Held(key);
      if key in entries {
        r := CopyEntry(key);
        hits := hits + 1;
      } else {
        misses := misses + 1;
        r := null;
      }
    }

    /** The section under the exclusive lock: another lookup may have built the snapshot first. */
    method Publish(key: string, snap: Snapshot) returns (r: array<Descriptor>)
      requires Valid() && Parsed(models, key).Some? && Shows(snap.tensors, Parsed(models, key).value)
      requires Footprint(snap.tensors) !! Repr
      modifies this
      ensures Valid() && key in entries && old(Repr) <= Repr <= old(Repr) + Footprint(snap.tensors)
      ensures fresh(Footprint(r)) && Shows(r, Parsed(models, key).value)
      ensures key in old(entries) ==>
                && entries == old(entries) && hits == old(hits) + 1
                && inserts == old(inserts) && evictions == old(evictions)
      ensures misses == old(misses)
      ensures key !in old(entries) ==> hits == old(hits) && inserts == old(inserts) + 1
      ensures key !in old(entries) ==> Entered(old(entries), entries, key, snap, Limit())
    {
      assert Held(key);
      if key in entries {
        r := CopyEntry(key);
        hits := hits + 1;
        return;
      }
      Enter(key, snap);
      r := Clone(snap.tensors, Parsed(models, key).value);
    }

    /** Makes room and puts the new snapshot in. */
    method Enter(key: string, snap: Snapshot)
      requires Valid() && Parsed(models, key).Some? && Shows(snap.tensors, Parsed(models, key).value)
      requires key !in entries
      modifies this`entries, this`inserts, this`Repr, this`evictions
      ensures Valid() && inserts == old(inserts) + 1
      ensures Entered(old(entries), entries, key, snap, Limit())
      ensures Repr == old(Repr) + Footprint(snap.tensors)
    {
      MakeRoom();
      assert entries[key := snap] - {key} == entries;
      Add(key, snap);
    }

    method MakeRoom()
      requires Valid()
      modifies this`entries, this`evictions
      ensures Valid() && |entries| + 1 <= Limit() && YoungestOf(old(entries), entries, Limit())
    {
      var evicted := Evict(1);
      forall k: string ensures Held(k) { assert old(Held(k)); }
      evictions := evictions + evicted;
    }

    method Add(key: string, snap: Snapshot)
      requires Valid() && |entries| + 1 <= Limit() && key !in entries
      requires Parsed(models, key).Some? && Shows(snap.tensors, Parsed(models, key).value)
      modifies this`entries, this`inserts, this`Repr
      ensures Valid() && entries == old(entries)[key := snap] && inserts == old(inserts) + 1
      ensures Repr == old(Repr) + Footprint(snap.tensors)
    {
      GrownSize(entries, key, snap);
      entries := entries[key := snap];
      inserts := inserts + 1;
      Repr := Repr + Footprint(snap.tensors);
      forall k: string ensures Held(k) { assert old(Held(k)); }
    }

    /** Any number of other lookups that get in between: each finds its key or publishes its
        own build of it. */
    method OthersLookUp()
      requires Valid()
      modifies this
      ensures Valid() && fresh(Repr - old(Repr)) && Repr >= old(Repr)
      ensures hits >= old(hits) && misses >= old(misses)
    {
      var more: bool := *;
      var rounds: nat :| rounds >= 0;
      while more && rounds > 0
        invariant Valid() && fresh(Repr - old(Repr)) && Repr >= old(Repr)
        invariant hits >= old(hits) && misses >= old(misses)
        decreases rounds
      {
        var key: string :| |key| >= 0;
        var _ := LookUpOnce(key);
        more := *;
        rounds := rounds - 1;
      }
    }

    /** A lookup with nobody in between. */
    method LookUpOnce(key: string) returns (r: array?<Descriptor>)
      requires Valid()
      modifies this
      ensures Valid() && fresh(Repr - old(Repr)) && Repr >= old(Repr)
      ensures hits >= old(hits) && misses >= old(misses)
      ensures r != null <==> Parsed(models, key).Some?
      ensures r != null ==> fresh(Footprint(r)) && Footprint(r) !! Repr && Shows(r, Parsed(models, key).value)
    {
      r := Probe(key);
      if r != null { return; }
      var built := Build(key);
      if built.None? { return null; }
      r := PublishBuilt(key, built.value);
    }

    method Build(key: string) returns (r: Option<seq<Tensor>>)
      requires AllSized(models)
      ensures r == Parsed(models, key)
    {
      if key !in models { return None; }
      r := BuildTensors(models[key].shards, models[key].files);
    }

    method PublishBuilt(key: string, tensors: seq<Tensor>) returns (r: array<Descriptor>)
      requires Valid() && Parsed(models, key) == Some(tensors)
      modifies this
      ensures Valid() && fresh(Repr - old(Repr)) && Repr >= old(Repr) && key in entries
      ensures hits >= old(hits) && misses == old(misses)
      ensures fresh(Footprint(r)) && Footprint(r) !! Repr && Shows(r, tensors)
    {
      var snap := NewSnapshot(tensors);
      r := Publish(key, snap);
    }

    /** The parsed descriptors, cloned for the cache. */
    method NewSnapshot(tensors: seq<Tensor>) returns (snap: Snapshot)
      ensures fresh(Footprint(snap.tensors)) && Shows(snap.tensors, tensors)
    {
      var builtAt: int := *;
      var slice := Allocate(tensors);
      var copy := Clone(slice, tensors);
      return Snapshot(builtAt, copy);
    }

    /** getOrBuildTensorMapSnapshot. The result is what a fresh parse gives, hit or miss and
        whoever builds the snapshot first; it shares nothing with the cache. */
    method GetOrBuild(key: string) returns (r: array?<Descriptor>)
      requires Valid()
      modifies this
      ensures Valid() && fresh(Repr - old(Repr))
      ensures key in old(entries) ==>
                r != null && entries == old(entries) && hits == old(hits) + 1 && misses == old(misses)
      ensures key !in old(entries) ==> misses > old(misses) && (r != null ==> key in entries)
      ensures r != null <==> key in models && models[key].shards != []
                             && ModelTensors(models[key].shards, models[key].files).Some?
      ensures r != null ==> fresh(Footprint(r)) && Footprint(r) !! Repr
                            && Shows(r, ModelTensors(models[key].shards, models[key].files).value)
    {
      assert Held(key);
      r := Probe(key);
      if r != null { return; }
      OthersLookUp();
      var built := Build(key);
      if built.None? { return null; }
      OthersLookUp();
      r := PublishBuilt(key, built.value);
    }
  }

  ghost predicate AllSized(models: map<string, Model>) {
    forall k :: k in models ==> forall n :: n in models[k].files ==> Sized(models[k].files[n])
  }

  // ---- Handles --------------------------------------------------------------------------------

  function WithHandle(t: Tensor, handles: map<string, string>): Tensor {
    t.(ipcHandle := GetOr(handles, t.shardName, ""))
  }

  ghost function AllWithHandles(ts: seq<Tensor>, handles: map<string, string>): seq<Tensor> {
    seq(|ts|, i requires 0 <= i < |ts| => WithHandle(ts[i], handles))
  }

  /** The tensor map of a model, with IPC handles written into the caller's copy. The cache
      still holds the handle-free parse afterwards. */
  method TensorMap(cache: Cache, key: string, handles: map<string, string>) returns (r: array?<Descriptor>)
    requires cache.Valid()
    modifies cache
    ensures cache.Valid()
    ensures r != null <==> Parsed(cache.models, key).Some?
    ensures r != null ==> fresh(Footprint(r)) && Shows(r, AllWithHandles(Parsed(cache.models, key).value, handles))
    ensures r != null ==> HandlesSet(r, Parsed(cache.models, key).value, handles)
  {
    var snapshot := cache.GetOrBuild(key);
    if snapshot == null { return null; }
    r := Clone(snapshot, Parsed(cache.models, key).value);
    SetHandles(r, handles, Parsed(cache.models, key).value, cache);
    ShownHandles(r, Parsed(cache.models, key).value, handles);
  }

  /** Every descriptor has its shard's handle, or none, and is otherwise the parsed one. */
  ghost predicate HandlesSet(r: array<Descriptor>, ts: seq<Tensor>, handles: map<string, string>)
    reads r
  {
    r.Length == |ts| && forall i :: 0 <= i < |ts| ==> HandleSetAt(r[i].head, ts[i], handles)
  }

  predicate HandleSetAt(head: Tensor, t: Tensor, handles: map<string, string>) {
    && head.(ipcHandle := "", shape := []) == t.(ipcHandle := "", shape := [])
    && head.ipcHandle == if t.shardName in handles then handles[t.shardName] else ""
  }

  lemma ShownHandles(r: array<Descriptor>, ts: seq<Tensor>, handles: map<string, string>)
    requires Shows(r, AllWithHandles(ts, handles))
    ensures HandlesSet(r, ts, handles)
  {
    forall i | 0 <= i < |ts| ensures HandleSetAt(r[i].head, ts[i], handles) {
      var all := AllWithHandles(ts, handles);
      assert all[i] == WithHandle(ts[i], handles) && ShowsAt(r, i, all[i]);
    }
  }

  method SetHandles(a: array<Descriptor>, handles: map<string, string>, ghost ts: seq<Tensor>, ghost cache: Cache)
    requires cache.Valid() && Footprint(a) !! cache.Repr && Shows(a, ts) && Shapes(a) !! {a}
    modifies a
    ensures cache.Valid() && Shows(a, AllWithHandles(ts, handles)) && Shapes(a) == old(Shapes(a))
  {
    for i := 0 to a.Length
      invariant forall j :: 0 <= j < i ==> a[j] == Handled(old(a[j]), handles)
      invariant forall j :: i <= j < a.Length ==> a[j] == old(a[j])
    {
      a[i] := Handled(a[i], handles);
    }
    forall j | 0 <= j < a.Length ensures ShowsAt(a, j, WithHandle(ts[j], handles)) { assert old(ShowsAt(a, j, ts[j])); }
  }

  /** tensors[i].IPCHandle = handleByShard[...] */
  function Handled(d: Descriptor, handles: map<string, string>): Descriptor {
    d.(head := d.head.(ipcHandle := GetOr(handles, d.head.shardName, "")))
  }
}
