/** Reading tensor descriptors from safetensors headers (internal/app/gpu_tensor_map.go:252-336,
    and the build loop at 163-181). A shard file is its size, its length field and its decoded
    header; the JSON decoding itself is not modelled. Go's int64 wraps around. */
module TensorParse {
  import opened Prelude
  import opened Publish
  import opened Sorting

  const TWO_63 := 0x8000_0000_0000_0000
  const MAX_HEADER := 0x800_0000

  predicate Int64(x: int) {
    -TWO_63 <= x < TWO_63
  }

  /** The value a 64-bit two's-complement register holds. */
  function Wrap64(x: int): (r: int)
    ensures Int64(r) && (Int64(x) ==> r == x)
  {
    (x + TWO_63) % (2 * TWO_63) - TWO_63
  }

  datatype TensorSpec = TensorSpec(dtype: string, shape: seq<int>, offsets: seq<int>)

  /** lengthField is the unsigned first eight bytes; header is None where it is not the
      expected JSON. */
  datatype ShardFile = ShardFile(size: int, lengthField: int, header: Option<map<string, TensorSpec>>)

  datatype Tensor = Tensor(name: string, dtype: string, shape: seq<int>, byteOffset: int, byteLength: int,
                           shardName: string, shardDigest: Digest, shardSize: int, shardOrdinal: int,
                           ipcHandle: string)

  /** What 64-bit fields can hold. */
  ghost predicate Sized(f: ShardFile) {
    && 0 <= f.size < TWO_63 && 0 <= f.lengthField < 2 * TWO_63
    && (f.header.Some? ==> forall n :: n in f.header.value ==>
          forall i :: 0 <= i < |f.header.value[n].offsets| ==> Int64(f.header.value[n].offsets[i]))
  }

  // ---- What a shard file means, over unbounded integers -----------------------------------------

  predicate HeaderFits(f: ShardFile) {
    f.size >= 8 && 0 < f.lengthField <= MAX_HEADER && 8 + f.lengthField <= f.size && f.header.Some?
  }

  /** The tensor lies inside the file, behind the header. */
  predicate InFile(spec: TensorSpec, dataStart: int, size: int) {
    |spec.offsets| == 2 && 0 <= spec.offsets[0] <= spec.offsets[1] && dataStart + spec.offsets[1] <= size
  }

  function TensorNames(header: map<string, TensorSpec>): set<string> {
    header.Keys - {"__metadata__"}
  }

  function TensorOf(name: string, spec: TensorSpec, f: ShardFile, s: Shard): Tensor
    requires |spec.offsets| == 2
  {
    Tensor(name, TrimSpace(spec.dtype), spec.shape, 8 + f.lengthField + spec.offsets[0],
           spec.offsets[1] - spec.offsets[0], s.name, s.digest, f.size, s.ordinal, "")
  }

  ghost predicate AllInFile(f: ShardFile)
    requires HeaderFits(f)
  {
    forall n :: n in TensorNames(f.header.value) ==> InFile(f.header.value[n], 8 + f.lengthField, f.size)
  }

  ghost function TensorsOf(names: seq<string>, f: ShardFile, s: Shard): seq<Tensor>
    requires HeaderFits(f) && AllInFile(f) && forall n :: n in names ==> n in TensorNames(f.header.value)
  {
    seq(|names|, i requires 0 <= i < |names| =>
      assert names[i] in names; TensorOf(names[i], f.header.value[names[i]], f, s))
  }

  /** The tensors of a shard, by name; None when the file is not acceptable. */
  ghost function ShardTensors(f: ShardFile, s: Shard): Option<seq<Tensor>> {
    if HeaderFits(f) && AllInFile(f) then Some(TensorsOf(Listing(TensorNames(f.header.value)), f, s)) else None
  }

  /** All weight shards, in order. */
  ghost function ModelTensors(shards: seq<Shard>, files: map<string, ShardFile>): Option<seq<Tensor>> {
    if shards == [] then Some([])
    else
      var front := ModelTensors(shards[..|shards| - 1], files);
      var s := shards[|shards| - 1];
      if front.None? || !ValidShardName(s.name) || s.name !in files then None
      else
        var last := ShardTensors(files[s.name], s);
        if last.None? then None else Some(front.value + last.value)
  }

  // ---- The checks as coded, in 64-bit arithmetic --------------------------------------------------

  /** The comparisons on offsets, each sum wrapped. */
  predicate OffsetsPass(start: int, end: int, dataStart: int, size: int) {
    var absStart, absEnd := Wrap64(dataStart + start), Wrap64(dataStart + end);
    !(start < 0 || end < start) && !(absStart < dataStart || absEnd < absStart) && !(absEnd > size)
  }

  /** For every 64-bit start and end the wrapped comparisons accept exactly the offsets that
      are in range over the integers, and then nothing has wrapped. */
  lemma OffsetsPassExactly(start: int, end: int, dataStart: int, size: int)
    requires Int64(start) && Int64(end) && 0 <= dataStart <= size < TWO_63
    ensures OffsetsPass(start, end, dataStart, size) <==> 0 <= start <= end && dataStart + end <= size
    ensures OffsetsPass(start, end, dataStart, size) ==>
              && Wrap64(dataStart + start) == dataStart + start
              && Wrap64(Wrap64(dataStart + end) - Wrap64(dataStart + start)) == end - start
  {
    if 0 <= start <= end {
      WrapOnce(dataStart + start);
      WrapOnce(dataStart + end);
    }
  }

  /** A sum of two non-negative 64-bit numbers wraps at most once. */
  lemma WrapOnce(x: int)
    requires 0 <= x < 2 * TWO_63
    ensures Wrap64(x) == if x < TWO_63 then x else x - 2 * TWO_63
  {
    if x >= TWO_63 {
      assert x + TWO_63 == (x - TWO_63) + 2 * TWO_63;
    }
  }

  method SortNames(header: map<string, TensorSpec>) returns (names: seq<string>)
    ensures names == Listing(TensorNames(header))
  {
    var left := header.Keys;
    var all := [];
    while left != {}
      invariant left <= header.Keys
      invariant forall n :: n in all <==> n in header.Keys - left && n != "__metadata__"
      invariant forall i, j :: 0 <= i < j < |all| ==> all[i] != all[j]
      decreases |left|
    {
      var n :| n in left;
      assert n !in all;
      left := left - {n};
      if n == "__metadata__" { continue; }
      all := all + [n];
    }
    StringOrder();
    SortedIsListing(StringLess, all, TensorNames(header));
    names := SortBy(StringLess, all);
    ListingUnique(StringLess, names, Listing(TensorNames(header)), TensorNames(header));
  }

  /** One round of the loop over tensor names. */
  method ReadTensor(name: string, spec: TensorSpec, f: ShardFile, s: Shard, dataStart: int) returns (r: Option<Tensor>)
    requires HeaderFits(f) && f.size < TWO_63 && dataStart == 8 + f.lengthField
    requires forall i :: 0 <= i < |spec.offsets| ==> Int64(spec.offsets[i])
    ensures r.Some? <==> InFile(spec, dataStart, f.size)
    ensures r.Some? ==> r.value == TensorOf(name, spec, f, s)
  {
    if |spec.offsets| != 2 { return None; }
    var start, end := spec.offsets[0], spec.offsets[1];
    OffsetsPassExactly(start, end, dataStart, f.size);
    if start < 0 || end < start { return None; }
    var absStart := Wrap64(dataStart + start);
    var absEnd := Wrap64(dataStart + end);
    if absStart < dataStart || absEnd < absStart { return None; }
    if absEnd > f.size { return None; }
    return Some(Tensor(name, TrimSpace(spec.dtype), spec.shape, absStart, Wrap64(absEnd - absStart),
                       s.name, s.digest, f.size, s.ordinal, ""));
  }

  method ReadTensors(f: ShardFile, s: Shard, dataStart: int) returns (r: Option<seq<Tensor>>)
    requires Sized(f) && HeaderFits(f) && dataStart == 8 + f.lengthField
    ensures r == ShardTensors(f, s)
  {
    var header := f.header.value;
    var names := SortNames(header);
    forall j | 0 <= j < |names| ensures names[j] in TensorNames(header) { assert names[j] in names; }
    var out := [];
    for i := 0 to |names|
      invariant |out| == i
      invariant forall j :: 0 <= j < i ==> InFile(header[names[j]], dataStart, f.size)
      invariant forall j :: 0 <= j < i ==> out[j] == TensorOf(names[j], header[names[j]], f, s)
    {
      var entry := ReadTensor(names[i], header[names[i]], f, s, dataStart);
      if entry.None? { return None; }
      out := out + [entry.value];
    }
    AllNamesRead(f, names, dataStart);
    assert out == TensorsOf(names, f, s);
    return Some(out);
  }

  lemma AllNamesRead(f: ShardFile, names: seq<string>, dataStart: int)
    requires HeaderFits(f) && IsListing(StringLess, names, TensorNames(f.header.value))
    requires dataStart == 8 + f.lengthField
    requires forall j :: 0 <= j < |names| ==>
               names[j] in f.header.value && InFile(f.header.value[names[j]], dataStart, f.size)
    ensures AllInFile(f)
  {
    forall n | n in TensorNames(f.header.value) ensures InFile(f.header.value[n], dataStart, f.size) {
      assert n in names;
      var j :| 0 <= j < |names| && names[j] == n;
    }
  }

  /** A well-formed file: at least the length field, a header of at most 128 MiB within the file,
      and every named tensor's two offsets in order and within the data behind the header. */
  ghost predicate WellFormed(f: ShardFile) {
    && f.size >= 8 && 0 < f.lengthField <= 134217728 && 8 + f.lengthField <= f.size && f.header.Some?
    && forall name :: name in f.header.value && name != "__metadata__" ==>
         var o := f.header.value[name].offsets;
         |o| == 2 && 0 <= o[0] <= o[1] && 8 + f.lengthField + o[1] <= f.size
  }

  /** The descriptor of the tensor its name stands for. */
  predicate Describes(t: Tensor, f: ShardFile, s: Shard) {
    && f.header.Some? && t.name in f.header.value && t.name != "__metadata__"
    && var spec := f.header.value[t.name];
    && |spec.offsets| == 2
    && t.byteOffset == 8 + f.lengthField + spec.offsets[0] && t.byteLength == spec.offsets[1] - spec.offsets[0]
    && t.dtype == TrimSpace(spec.dtype) && t.shape == spec.shape
    && t.shardName == s.name && t.shardDigest == s.digest && t.shardSize == f.size && t.shardOrdinal == s.ordinal
    && t.ipcHandle == ""
  }

  predicate DescribedAt(ts: seq<Tensor>, f: ShardFile, s: Shard, i: nat) {
    i < |ts| ==> Describes(ts[i], f, s)
  }

  predicate NamesAscend(ts: seq<Tensor>, i: nat, j: nat) {
    i < j < |ts| ==> StringLess(ts[i].name, ts[j].name)
  }

  predicate HasTensor(ts: seq<Tensor>, name: string) {
    exists i :: 0 <= i < |ts| && ts[i].name == name
  }

  predicate Described(ts: seq<Tensor>, f: ShardFile, name: string) {
    f.header.Some? && name in f.header.value && name != "__metadata__" ==> HasTensor(ts, name)
  }

  /** Each named tensor described once, by name. */
  ghost predicate DescribesAll(ts: seq<Tensor>, f: ShardFile, s: Shard) {
    && (forall i: nat :: DescribedAt(ts, f, s, i))
    && (forall i: nat, j: nat :: NamesAscend(ts, i, j))
    && (forall name: string :: Described(ts, f, name))
  }

  lemma ShardTensorsMean(f: ShardFile, s: Shard)
    ensures ShardTensors(f, s).Some? <==> WellFormed(f)
    ensures ShardTensors(f, s).Some? ==> DescribesAll(ShardTensors(f, s).value, f, s)
  {
    if HeaderFits(f) {
      assert AllInFile(f) <==> WellFormed(f);
    }
    if ShardTensors(f, s).Some? {
      var names := Listing(TensorNames(f.header.value));
      var ts := ShardTensors(f, s).value;
      forall i: nat ensures DescribedAt(ts, f, s, i) {
        if i < |ts| { assert names[i] in names; }
      }
      forall i: nat, j: nat ensures NamesAscend(ts, i, j) {
        if i < j < |ts| { assert StringLess(names[i], names[j]); }
      }
      forall name: string ensures Described(ts, f, name) {
        if name in TensorNames(f.header.value) {
          assert name in names;
          var i :| 0 <= i < |names| && names[i] == name;
          assert ts[i].name == name;
        }
      }
    }
  }

  /** parseSafeTensorsShard. */
  method ParseShard(f: ShardFile, s: Shard) returns (r: Option<seq<Tensor>>)
    requires Sized(f)
    ensures r == ShardTensors(f, s)
    ensures r.Some? <==> WellFormed(f)
    ensures r.Some? ==> DescribesAll(r.value, f, s)
  {
    ShardTensorsMean(f, s);
    if f.size < 8 { return None; }
    var headerLen := Wrap64(f.lengthField);
    WrapOnce(f.lengthField);
    if headerLen <= 0 { return None; }
    if headerLen > MAX_HEADER { return None; }
    if headerLen > f.size - 8 { return None; }
    if f.header.None? { return None; }
    r := ReadTensors(f, s, 8 + headerLen);
  }

  /** The tensors of one shard are those of its file; the tensors of two lists of shards are
      those of the first and then those of the second; and one shard that is refused refuses
      them all. */
  lemma ModelTensorsOfOne(s: Shard, files: map<string, ShardFile>)
    ensures ModelTensors([], files) == Some([])
    ensures ModelTensors([s], files)
         == if ValidShardName(s.name) && s.name in files then ShardTensors(files[s.name], s) else None
  {
    assert [s][..|[s]| - 1] == [];
    if ValidShardName(s.name) && s.name in files && ShardTensors(files[s.name], s).Some? {
      assert [] + ShardTensors(files[s.name], s).value == ShardTensors(files[s.name], s).value;
    }
  }

  lemma {:induction false} ModelTensorsAppend(a: seq<Shard>, b: seq<Shard>, files: map<string, ShardFile>)
    ensures var x, y := ModelTensors(a, files), ModelTensors(b, files);
      ModelTensors(a + b, files) == if x.Some? && y.Some? then Some(x.value + y.value) else None
    decreases |b|
  {
    if b == [] {
      assert a + b == a;
      if ModelTensors(a, files).Some? {
        assert ModelTensors(a, files).value + [] == ModelTensors(a, files).value;
      }
    } else {
      var n := |b| - 1;
      ModelTensorsAppend(a, b[..n], files);
      assert (a + b)[..|a + b| - 1] == a + b[..n] && (a + b)[|a + b| - 1] == b[n];
      var x, y := ModelTensors(a, files), ModelTensors(b[..n], files);
      if x.Some? && y.Some? && ModelTensors(b, files).Some? {
        var last := ShardTensors(files[b[n].name], b[n]).value;
        assert x.value + y.value + last == x.value + (y.value + last);
      }
    }
  }

  /** The build loop over the weight shards. */
  method BuildTensors(shards: seq<Shard>, files: map<string, ShardFile>) returns (r: Option<seq<Tensor>>)
    requires forall n :: n in files ==> Sized(files[n])
    ensures r == if shards == [] then None else ModelTensors(shards, files)
  {
    if shards == [] { return None; }
    var tensors := [];
    for i := 0 to |shards|
      invariant ModelTensors(shards[..i], files) == Some(tensors)
    {
      var s := shards[i];
      assert shards[..i + 1][..i] == shards[..i];
      if !ValidShardName(s.name) || s.name !in files {
        NoneStays(shards, files, i + 1);
        return None;
      }
      var entries := ParseShard(files[s.name], s);
      if entries.None? {
        NoneStays(shards, files, i + 1);
        return None;
      }
      tensors := tensors + entries.value;
    }
    assert shards[..|shards|] == shards;
    return Some(tensors);
  }

  lemma {:induction false} NoneStays(shards: seq<Shard>, files: map<string, ShardFile>, n: nat)
    requires n <= |shards| && ModelTensors(shards[..n], files).None?
    ensures ModelTensors(shards, files).None?
  {
    if n == |shards| {
      assert shards[..n] == shards;
    } else {
      assert shards[..|shards| - 1][..n] == shards[..n];
      NoneStays(shards[..|shards| - 1], files, n);
    }
  }
}
