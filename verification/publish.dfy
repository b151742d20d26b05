/** Published model trees and the two verifications of them (internal/app/service.go:1151-1271).
    A digest is an injective function of the bytes it is taken over. */
module Publish {
  import opened Prelude

  type Bytes = seq<byte>

  datatype Digest = Sha256(content: Bytes) | Text(text: string)

  datatype Shard = Shard(name: string, digest: Digest, size: int, ordinal: int)

  /** metadata/model.json: what of the profile the verifications read. */
  datatype Metadata = Metadata(bytes: int, shards: seq<Shard>)

  /** A directory tree at a final path, or what a removal has left of one. */
  datatype Tree = Tree(ready: bool, metadata: Option<Metadata>, shardsDir: bool, shards: map<string, Bytes>)

  function DigestOf(content: Bytes): Digest {
    Sha256(content)
  }

  predicate IsSpace(c: char) {
    c in " \t\n\r" || c == '\U{B}' || c == '\U{C}' || c == '\U{85}' || c == '\U{A0}' || c == '\U{1680}'
    || '\U{2000}' <= c <= '\U{200A}' || c == '\U{2028}' || c == '\U{2029}' || c == '\U{202F}'
    || c == '\U{205F}' || c == '\U{3000}'
  }

  function TrimLeft(s: string): string {
    if s != "" && IsSpace(s[0]) then TrimLeft(s[1..]) else s
  }

  function TrimRight(s: string): string {
    if s != "" && IsSpace(s[|s| - 1]) then TrimRight(s[..|s| - 1]) else s
  }

  function TrimSpace(s: string): string {
    TrimRight(TrimLeft(s))
  }

  predicate Trimmed(s: string) {
    s == "" || (!IsSpace(s[0]) && !IsSpace(s[|s| - 1]))
  }

  lemma {:induction false} TrimRightResult(s: string)
    ensures var t := TrimRight(s); t <= s && (t == "" || !IsSpace(t[|t| - 1]))
  {
    if s != "" && IsSpace(s[|s| - 1]) { TrimRightResult(s[..|s| - 1]); }
  }

  lemma {:induction false} TrimLeftResult(s: string)
    ensures var t := TrimLeft(s); t == "" || !IsSpace(t[0])
  {
    if s != "" && IsSpace(s[0]) { TrimLeftResult(s[1..]); }
  }

  lemma TrimResult(s: string)
    ensures Trimmed(TrimSpace(s))
    ensures Trimmed(s) ==> TrimSpace(s) == s
    ensures TrimSpace(TrimSpace(s)) == TrimSpace(s)
  {
    TrimLeftResult(s);
    TrimRightResult(TrimLeft(s));
  }

  predicate AllSpace(s: string) {
    forall i :: 0 <= i < |s| ==> IsSpace(s[i])
  }

  lemma {:induction false} TrimLeftSplits(s: string) returns (before: string)
    ensures s == before + TrimLeft(s) && AllSpace(before)
  {
    if s != "" && IsSpace(s[0]) {
      before := TrimLeftSplits(s[1..]);
      before := [s[0]] + before;
    } else {
      before := "";
    }
  }

  lemma {:induction false} TrimRightSplits(s: string) returns (after: string)
    ensures s == TrimRight(s) + after && AllSpace(after)
  {
    if s != "" && IsSpace(s[|s| - 1]) {
      after := TrimRightSplits(s[..|s| - 1]);
      assert s == s[..|s| - 1] + [s[|s| - 1]];
      after := after + [s[|s| - 1]];
    } else {
      after := "";
    }
  }

  /** Trimming takes nothing but surrounding space. */
  lemma TrimTakesSpace(s: string) returns (before: string, after: string)
    ensures s == before + TrimSpace(s) + after && AllSpace(before) && AllSpace(after)
  {
    before := TrimLeftSplits(s);
    after := TrimRightSplits(TrimLeft(s));
    assert s == before + (TrimSpace(s) + after);
  }

  /** A single path component, as ValidateShardName reads it. */
  predicate ValidShardName(name: string) {
    var n := TrimSpace(name);
    n != "" && n != "." && n != ".." && '/' !in n && '\\' !in n
  }

  /** A valid name is not empty or a dot name, and has no separator anywhere. */
  lemma ValidNameIsComponent(name: string)
    ensures ValidShardName(name) <==> TrimSpace(name) !in {"", ".", ".."} && '/' !in name && '\\' !in name
  {
    var before, after := TrimTakesSpace(name);
    assert !IsSpace('/') && !IsSpace('\\');
    assert forall c :: c in name <==> c in before || c in TrimSpace(name) || c in after;
  }

  datatype Verdict = Valid | PathEmpty | PathMissing | ReadyMissing | MetadataUnreadable | ShardsDirMissing
                   | BadName | ShardMissing | SizeMismatch | DigestMismatch | CardinalityMismatch

  predicate ShardPresent(t: Tree, s: Shard) {
    ValidShardName(s.name) && s.name in t.shards && |t.shards[s.name]| == s.size
  }

  /** The light check of recovery: names, sizes and the number of files. */
  predicate QuickOk(t: Tree) {
    && t.ready && t.metadata.Some? && t.shardsDir
    && (forall i :: 0 <= i < |t.metadata.value.shards| ==> ShardPresent(t, t.metadata.value.shards[i]))
    && |t.shards| == |t.metadata.value.shards|
  }

  /** The full check: the digest of every shard as well. */
  predicate FullOk(t: Tree) {
    && t.ready && t.metadata.Some? && t.shardsDir
    && (forall i :: 0 <= i < |t.metadata.value.shards| ==>
          ShardPresent(t, t.metadata.value.shards[i]) && ShardIntact(t, t.metadata.value.shards[i]))
    && |t.shards| == |t.metadata.value.shards|
  }

  predicate ShardIntact(t: Tree, s: Shard)
    requires s.name in t.shards
  {
    DigestOf(t.shards[s.name]) == s.digest
  }

  /** What is wrong with a tree, by the verdict on it. */
  predicate Refutes(t: Tree, v: Verdict) {
    match v
    case ReadyMissing => !t.ready
    case MetadataUnreadable => t.metadata.None?
    case ShardsDirMissing => !t.shardsDir
    case BadName => t.metadata.Some? && exists s :: s in t.metadata.value.shards && !ValidShardName(s.name)
    case ShardMissing => t.metadata.Some? && exists s :: s in t.metadata.value.shards && s.name !in t.shards
    case SizeMismatch => t.metadata.Some? && exists s :: s in t.metadata.value.shards && WrongSize(t, s)
    case DigestMismatch => t.metadata.Some? && exists s :: s in t.metadata.value.shards && WrongBytes(t, s)
    case CardinalityMismatch => t.metadata.Some? && |t.shards| != |t.metadata.value.shards|
    case _ => false
  }

  /** The tree lacks one of its fixed parts, or has more or fewer files than shards. */
  predicate Incomplete(t: Tree) {
    !t.ready || t.metadata.None? || !t.shardsDir || |t.shards| != |t.metadata.value.shards|
  }

  predicate WrongSize(t: Tree, s: Shard) {
    s.name in t.shards && |t.shards[s.name]| != s.size
  }

  predicate WrongBytes(t: Tree, s: Shard) {
    s.name in t.shards && DigestOf(t.shards[s.name]) != s.digest
  }

  /** verifyPublishedPath. `path` is None for the empty path, Some(None) for a path nothing
      is at. */
  method VerifyPublishedPath(path: Option<Option<Tree>>) returns (v: Verdict)
    ensures v == Valid <==> path.Some? && path.value.Some? && FullOk(path.value.value)
    ensures path == None <==> v == PathEmpty
    ensures path == Some(None) <==> v == PathMissing
    ensures v != Valid && path.Some? && path.value.Some? ==> Refutes(path.value.value, v)
    ensures v == Valid ==> path.Some? && path.value.Some? && !Incomplete(path.value.value)
                           && forall s :: s in path.value.value.metadata.value.shards ==>
                                ValidShardName(s.name) && s.name in path.value.value.shards
                                && !WrongSize(path.value.value, s) && !WrongBytes(path.value.value, s)
  {
    if path.None? { return PathEmpty; }
    if path.value.None? { return PathMissing; }
    var t := path.value.value;
    if !t.ready { return ReadyMissing; }
    if t.metadata.None? { return MetadataUnreadable; }
    if !t.shardsDir { return ShardsDirMissing; }
    var shards := t.metadata.value.shards;
    var seen := 0;
    for i := 0 to |shards|
      invariant seen == i
      invariant forall j :: 0 <= j < i ==> ShardPresent(t, shards[j]) && ShardIntact(t, shards[j])
    {
      assert shards[i] in shards;
      if !ValidShardName(shards[i].name) { return BadName; }
      if shards[i].name !in t.shards { return ShardMissing; }
      if |t.shards[shards[i].name]| != shards[i].size { return SizeMismatch; }
      if DigestOf(t.shards[shards[i].name]) != shards[i].digest { return DigestMismatch; }
      seen := seen + 1;
    }
    if |t.shards| != seen { return CardinalityMismatch; }
    return Valid;
  }

  /** verifyPublishedPathQuick: the same walk without reading any shard. */
  method VerifyPublishedPathQuick(path: Option<Option<Tree>>) returns (v: Verdict)
    ensures v == Valid <==> path.Some? && path.value.Some? && QuickOk(path.value.value)
    ensures path == None <==> v == PathEmpty
    ensures path == Some(None) <==> v == PathMissing
    ensures v != Valid && path.Some? && path.value.Some? ==> Refutes(path.value.value, v) && v != DigestMismatch
    ensures v == Valid ==> path.Some? && path.value.Some? && !Incomplete(path.value.value)
                           && forall s :: s in path.value.value.metadata.value.shards ==>
                                ValidShardName(s.name) && s.name in path.value.value.shards
                                && !WrongSize(path.value.value, s)
  {
    if path.None? { return PathEmpty; }
    if path.value.None? { return PathMissing; }
    var t := path.value.value;
    if !t.ready { return ReadyMissing; }
    if t.metadata.None? { return MetadataUnreadable; }
    if !t.shardsDir { return ShardsDirMissing; }
    var shards := t.metadata.value.shards;
    var seen := 0;
    for i := 0 to |shards|
      invariant seen == i
      invariant forall j :: 0 <= j < i ==> ShardPresent(t, shards[j])
    {
      assert shards[i] in shards;
      if !ValidShardName(shards[i].name) { return BadName; }
      if shards[i].name !in t.shards { return ShardMissing; }
      if |t.shards[shards[i].name]| != shards[i].size { return SizeMismatch; }
      seen := seen + 1;
    }
    if |t.shards| != seen { return CardinalityMismatch; }
    return Valid;
  }

  // ---- Why the light check is enough ------------------------------------------------------

  /** No other shard of the list is stored under the same file name. */
  predicate UniqueName(shards: seq<Shard>, i: nat)
    requires i < |shards|
  {
    forall j :: 0 <= j < |shards| && j != i ==> TrimSpace(shards[j].name) != TrimSpace(shards[i].name)
  }

  predicate NamesShard(shards: seq<Shard>, file: string) {
    exists i :: 0 <= i < |shards| && TrimSpace(shards[i].name) == file
  }

  /** What downloading a profile can leave in the shards directory: files named after trimmed
      shard names, and where only one shard has the name, the bytes its digest was taken
      over. (Two shards of one name may leave anything under it.) */
  ghost predicate GroundedFiles(shards: seq<Shard>, files: map<string, Bytes>) {
    && (forall f :: f in files ==> NamesShard(shards, f))
    && (forall i :: 0 <= i < |shards| && UniqueName(shards, i) ==> ShardGrounded(shards[i], files))
  }

  predicate ShardGrounded(s: Shard, files: map<string, Bytes>) {
    var f := TrimSpace(s.name);
    f in files ==> DigestOf(files[f]) == s.digest
  }

  ghost predicate Grounded(t: Tree) {
    && (t.metadata.Some? ==> GroundedFiles(t.metadata.value.shards, t.shards))
    && (t.shards != map[] ==> t.shardsDir)
  }

  function Names(shards: seq<Shard>): set<string> {
    set i | 0 <= i < |shards| :: shards[i].name
  }

  lemma NamesOfLonger(shards: seq<Shard>)
    requires shards != []
    ensures Names(shards) == Names(shards[..|shards| - 1]) + {shards[|shards| - 1].name}
  {
    var n := |shards| - 1;
    forall x | x in Names(shards) ensures x in Names(shards[..n]) + {shards[n].name} {
      var i :| 0 <= i < |shards| && shards[i].name == x;
      if i < n { assert shards[..n][i].name == x; }
    }
    forall x | x in Names(shards[..n]) ensures x in Names(shards) {
      var i :| 0 <= i < n && shards[..n][i].name == x;
      assert shards[i].name == x;
    }
  }

  /** As many different names as shards means no name occurs twice. */
  lemma {:induction false} Pigeonhole(shards: seq<Shard>)
    ensures |Names(shards)| <= |shards|
    ensures |Names(shards)| == |shards| ==>
              forall i, j :: 0 <= i < j < |shards| ==> shards[i].name != shards[j].name
  {
    if shards != [] {
      var n := |shards| - 1;
      var rest := shards[..n];
      Pigeonhole(rest);
      NamesOfLonger(shards);
      if |Names(shards)| == |shards| {
        assert shards[n].name !in Names(rest);
        forall i, j | 0 <= i < j < |shards| ensures shards[i].name != shards[j].name {
          assert rest[i].name == shards[i].name;
          if j < n { assert rest[j].name == shards[j].name; }
        }
      }
    }
  }

  /** On a tree that a verified download can have left, or any part of one, the size-only
      check and the full digest check give the same verdict. */
  lemma QuickIsFull(t: Tree)
    requires Grounded(t)
    ensures QuickOk(t) <==> FullOk(t)
  {
    if QuickOk(t) {
      var shards := t.metadata.value.shards;
      QuickNamesExact(t);
      forall i | 0 <= i < |shards| ensures ShardIntact(t, shards[i]) {
        assert ShardPresent(t, shards[i]);
        assert NamesShard(shards, shards[i].name);
        var j :| 0 <= j < |shards| && TrimSpace(shards[j].name) == shards[i].name;
        TrimResult(shards[j].name);
        assert UniqueName(shards, i);
        assert ShardGrounded(shards[i], t.shards);
      }
    }
  }

  lemma PresentNameTrimmed(shards: seq<Shard>, name: string)
    requires NamesShard(shards, name)
    ensures TrimSpace(name) == name
  {
    var j :| 0 <= j < |shards| && TrimSpace(shards[j].name) == name;
    TrimResult(shards[j].name);
  }

  /** Every name is trimmed. */
  predicate NamesTrimmed(shards: seq<Shard>) {
    forall i :: 0 <= i < |shards| ==> NameTrimmed(shards[i])
  }

  predicate NameTrimmed(s: Shard) {
    TrimSpace(s.name) == s.name
  }

  lemma QuickNamesTrimmed(t: Tree)
    requires Grounded(t) && QuickOk(t)
    ensures NamesTrimmed(t.metadata.value.shards)
  {
    var shards := t.metadata.value.shards;
    forall i | 0 <= i < |shards| ensures NameTrimmed(shards[i]) {
      assert ShardPresent(t, shards[i]);
      PresentNameTrimmed(shards, shards[i].name);
    }
  }

  /** A file is named after a shard whose name is already trimmed. */
  lemma FileIsName(shards: seq<Shard>, f: string)
    requires NamesTrimmed(shards) && NamesShard(shards, f)
    ensures f in Names(shards)
  {
    var j :| 0 <= j < |shards| && TrimSpace(shards[j].name) == f;
    assert NameTrimmed(shards[j]);
  }

  lemma NameIsFile(t: Tree, f: string)
    requires QuickOk(t) && f in Names(t.metadata.value.shards)
    ensures f in t.shards
  {
    var shards := t.metadata.value.shards;
    var i :| 0 <= i < |shards| && shards[i].name == f;
    assert ShardPresent(t, shards[i]);
  }

  lemma NamesAreFiles(t: Tree)
    requires Grounded(t) && QuickOk(t)
    ensures Names(t.metadata.value.shards) == t.shards.Keys
  {
    var shards := t.metadata.value.shards;
    QuickNamesTrimmed(t);
    forall f | f in t.shards ensures f in Names(shards) { FileIsName(shards, f); }
    forall f | f in Names(shards) ensures f in t.shards { NameIsFile(t, f); }
  }

  /** When the light check passes, shard names are trimmed and pairwise different. */
  lemma QuickNamesExact(t: Tree)
    requires Grounded(t) && QuickOk(t)
    ensures forall i :: 0 <= i < |t.metadata.value.shards| ==>
              TrimSpace(t.metadata.value.shards[i].name) == t.metadata.value.shards[i].name
    ensures forall i, j :: 0 <= i < j < |t.metadata.value.shards| ==>
              t.metadata.value.shards[i].name != t.metadata.value.shards[j].name
  {
    var shards := t.metadata.value.shards;
    QuickNamesTrimmed(t);
    forall i | 0 <= i < |shards| ensures TrimSpace(shards[i].name) == shards[i].name { assert NameTrimmed(shards[i]); }
    NamesAreFiles(t);
    Pigeonhole(shards);
  }

  // ---- Removal, one entry at a time -------------------------------------------------------

  datatype Entry = ReadyFile | MetadataFile | ShardFile(name: string) | ShardsDir

  predicate CanRemove(t: Tree, e: Entry) {
    match e
    case ReadyFile => t.ready
    case MetadataFile => t.metadata.Some?
    case ShardFile(name) => name in t.shards
    case ShardsDir => t.shardsDir && t.shards == map[]
  }

  function Without(t: Tree, e: Entry): Tree {
    match e
    case ReadyFile => t.(ready := false)
    case MetadataFile => t.(metadata := None)
    case ShardFile(name) => t.(shards := t.shards - {name})
    case ShardsDir => t.(shardsDir := false)
  }

  /** Nothing is left, so the directory itself can go. */
  predicate Bare(t: Tree) {
    !t.ready && t.metadata.None? && !t.shardsDir && t.shards == map[]
  }

  /** A removal that stops anywhere leaves both checks in agreement. */
  lemma RemovalKeepsGrounded(t: Tree, e: Entry)
    requires Grounded(t) && CanRemove(t, e)
    ensures Grounded(Without(t, e))
  {
    var t' := Without(t, e);
    if t'.metadata.Some? && e.ShardFile? {
      var shards := t'.metadata.value.shards;
      forall f | f in t'.shards ensures NamesShard(shards, f) { assert f in t.shards; }
      forall i | 0 <= i < |shards| && UniqueName(shards, i) ensures ShardGrounded(shards[i], t'.shards) {
        assert ShardGrounded(shards[i], t.shards);
      }
    }
  }

  lemma FewerShards(t: Tree, name: string)
    requires name in t.shards
    ensures |Without(t, ShardFile(name)).shards| == |t.shards| - 1
  {
    var rest := t.shards - {name};
    assert rest.Keys == t.shards.Keys - {name};
  }

  lemma ShardRemovalInvalidates(t: Tree, name: string)
    requires QuickOk(t) && name in t.shards
    ensures !QuickOk(Without(t, ShardFile(name)))
  {
    FewerShards(t, name);
  }

  /** Once an entry of a valid tree is gone, both checks refuse what is left. */
  lemma RemovalInvalidates(t: Tree, e: Entry)
    requires Grounded(t) && QuickOk(t) && CanRemove(t, e)
    ensures !QuickOk(Without(t, e)) && !FullOk(Without(t, e))
  {
    if e.ShardFile? { ShardRemovalInvalidates(t, e.name); }
    RemovalKeepsGrounded(t, e);
    QuickIsFull(Without(t, e));
  }
}
