/** GC run alone (internal/app/service.go:947-1076): which models it deletes, in which order,
    and when it stops. */
module Gc {
  import opened Prelude
  import opened Records
  import opened ModelSteps
  import opened Recovery
  import opened Sorting
  import opened ModelService

  datatype Candidate = Candidate(key: Key, rec: Record)

  datatype GcResult = GcResult(deleted: seq<Key>, freed: int, remaining: nat)

  datatype GcAnswer = UnsupportedPolicy | Stopped(result: GcResult) | Complete(result: GcResult)

  /** The comparator: explicit releasable times first, then the earlier, then the earlier
      update, then the larger model. */
  predicate Before(a: Candidate, b: Candidate) {
    if a.rec.releasableAt.None? != b.rec.releasableAt.None? then a.rec.releasableAt.Some?
    else if a.rec.releasableAt.Some? && a.rec.releasableAt.value != b.rec.releasableAt.value
    then a.rec.releasableAt.value < b.rec.releasableAt.value
    else if a.rec.updatedAt == b.rec.updatedAt then a.rec.bytes > b.rec.bytes
    else a.rec.updatedAt < b.rec.updatedAt
  }

  /** The comparator orders the candidates, so any sort by it is meaningful. */
  lemma BeforeIsOrder()
    ensures StrictWeakOrder(Before)
  {
    assert forall a, b, c :: Before(a, b) && Before(b, c) ==> Before(a, c);
  }

  type Sort = seq<Candidate> -> seq<Candidate>

  /** What the library's sort promises, and no more: ties may come out in any order. */
  ghost predicate Sorts(sort: Sort) {
    forall cs :: IsSorted(sort(cs), cs)
  }

  ghost predicate IsSorted(sorted: seq<Candidate>, cs: seq<Candidate>) {
    Ordered(Before, sorted) && multiset(sorted) == multiset(cs)
  }

  /** There is such a sort. */
  lemma SortByQualifies()
    ensures Sorts(cs => SortBy(Before, cs))
  {
    BeforeIsOrder();
    forall cs ensures IsSorted(SortBy(Before, cs), cs) { SortByIsSort(Before, cs); }
  }

  /** The order of the store's list: by model id, then by digest. */
  predicate KeyLess(a: Key, b: Key) {
    if a.model == b.model then StringLess(a.digest, b.digest) else StringLess(a.model, b.model)
  }

  lemma KeyOrder()
    ensures StrictTotalOrder(KeyLess)
  {
    StringOrder();
    forall a: Key, b: Key ensures Comparable(KeyLess, a, b) {
      assert Comparable(StringLess, a.model, b.model) && Comparable(StringLess, a.digest, b.digest);
    }
    forall a: Key, b: Key, c: Key | KeyLess(a, b) && KeyLess(b, c) ensures KeyLess(a, c) { KeyLessChain(a, b, c); }
    forall a: Key, b: Key, c: Key | KeyLess(a, b) ensures KeyLess(a, c) || KeyLess(c, b) {
      if a != c && !KeyLess(a, c) {
        assert Comparable(KeyLess, a, c);
        KeyLessChain(c, a, b);
      }
    }
  }

  lemma KeyLessChain(a: Key, b: Key, c: Key)
    requires KeyLess(a, b) && KeyLess(b, c)
    ensures KeyLess(a, c)
  {
    if a.model == b.model == c.model {
      StringLessTransitive(a.digest, b.digest, c.digest);
    } else if a.model != b.model && b.model != c.model {
      StringLessTransitive(a.model, b.model, c.model);
      StringLessTotal(a.model, b.model);
    }
  }

  // ---- The plan -------------------------------------------------------------------------------

  predicate Eligible(d: Durable) {
    d.record.Some? && Collectable(d.record.value, d)
  }

  function CandidatesOf(listing: seq<Key>, s: Models): seq<Candidate> {
    if listing == [] then []
    else
      var n := |listing| - 1;
      var front := CandidatesOf(listing[..n], s);
      var k := listing[n];
      if k in s && Eligible(s[k]) then front + [Candidate(k, s[k].record.value)] else front
  }

  function Bytes(cs: seq<Candidate>): int {
    if cs == [] then 0 else Bytes(cs[..|cs| - 1]) + cs[|cs| - 1].rec.bytes
  }

  function KeysOf(cs: seq<Candidate>): seq<Key> {
    if cs == [] then [] else KeysOf(cs[..|cs| - 1]) + [cs[|cs| - 1].key]
  }

  /** The shortest prefix whose bytes lift the free estimate to the target; all when none
      does. */
  ghost predicate ShortestPrefix(cs: seq<Candidate>, free: int, target: int, n: nat) {
    && n <= |cs|
    && (forall m: nat :: m < n ==> Short(cs, free, target, m))
    && (n < |cs| ==> !Short(cs, free, target, n))
  }

  predicate Short(cs: seq<Candidate>, free: int, target: int, m: nat) {
    m <= |cs| && free + Bytes(cs[..m]) < target
  }

  lemma ShortestPrefixUnique(cs: seq<Candidate>, free: int, target: int, m: nat, n: nat)
    requires ShortestPrefix(cs, free, target, m) && ShortestPrefix(cs, free, target, n)
    ensures m == n
  {
    assert Short(cs, free, target, m) ==> m == |cs|;
    assert Short(cs, free, target, n) ==> n == |cs|;
  }

  /** What a run that meets no error reports, dry or not: it depends on the stored state, the
      free estimate and the target alone, whatever the sort makes of ties. */
  ghost predicate Reported(sort: Sort, s: Models, free: int, target: int, r: GcResult) {
    exists listing, n :: ReportedFrom(sort, s, listing, n, free, target, r)
  }

  ghost predicate ReportedFrom(sort: Sort, s: Models, listing: seq<Key>, n: nat, free: int, target: int, r: GcResult) {
    && IsListing(KeyLess, listing, s.Keys)
    && var sorted := sort(CandidatesOf(listing, s));
    && ShortestPrefix(sorted, free, target, n)
    && r.deleted == KeysOf(sorted[..n]) && r.freed == Bytes(sorted[..n])
  }

  /** A dry run reports the list and the bytes of the real run from the same state. */
  lemma SameReport(sort: Sort, s: Models, free: int, target: int, a: GcResult, b: GcResult)
    requires Reported(sort, s, free, target, a) && Reported(sort, s, free, target, b)
    ensures a.deleted == b.deleted && a.freed == b.freed
  {
    var la, m :| ReportedFrom(sort, s, la, m, free, target, a);
    var lb, n :| ReportedFrom(sort, s, lb, n, free, target, b);
    KeyOrder();
    ListingUnique(KeyLess, la, lb, s.Keys);
    ShortestPrefixUnique(sort(CandidatesOf(la, s)), free, target, m, n);
  }

  // ---- What a complete run reports, in terms of the records ------------------------------------

  /** A model GC may delete: no lease, a path, and a READY marker there unless it has failed. */
  predicate Goes(was: Models, k: Key) {
    && k in was && was[k].record.Some? && was[k].record.value.leases == [] && was[k].record.value.hasPath
    && (was[k].record.value.status == Failed
        || (was[k].record.value.status in {Ready, Released} && was[k].tree.Some? && was[k].tree.value.ready))
  }

  /** x goes before y, or they are tied: explicit releasable times first and the earlier of them,
      then the earlier update, then the larger model. */
  predicate GoesFirst(x: Record, y: Record) {
    && (y.releasableAt.Some? ==> x.releasableAt.Some? && x.releasableAt.value <= y.releasableAt.value)
    && (x.releasableAt == y.releasableAt ==> x.updatedAt <= y.updatedAt)
    && (x.releasableAt == y.releasableAt && x.updatedAt == y.updatedAt ==> x.bytes >= y.bytes)
  }

  function BytesOf(was: Models, keys: seq<Key>): int {
    if keys == [] then 0
    else
      var k := keys[|keys| - 1];
      BytesOf(was, keys[..|keys| - 1]) + if k in was && was[k].record.Some? then was[k].record.value.bytes else 0
  }

  predicate DeletedAt(was: Models, deleted: seq<Key>, i: nat) {
    i < |deleted| ==> Goes(was, deleted[i])
  }

  predicate DeletedInOrder(was: Models, deleted: seq<Key>, i: nat, j: nat) {
    i < j < |deleted| && Goes(was, deleted[i]) && Goes(was, deleted[j]) ==>
      deleted[i] != deleted[j] && GoesFirst(was[deleted[i]].record.value, was[deleted[j]].record.value)
  }

  predicate StaysBehind(was: Models, deleted: seq<Key>, x: Key, y: Key) {
    x in deleted && Goes(was, x) && Goes(was, y) && y !in deleted ==>
      GoesFirst(was[x].record.value, was[y].record.value)
  }

  /** What any run deletes: models that may go, each once, oldest first and before all that stay;
      the report gives their bytes. */
  ghost predicate OldestSoFar(was: Models, r: GcResult) {
    && (forall i: nat :: DeletedAt(was, r.deleted, i))
    && (forall i: nat, j: nat :: DeletedInOrder(was, r.deleted, i, j))
    && (forall x: Key, y: Key :: StaysBehind(was, r.deleted, x, y))
    && r.freed == BytesOf(was, r.deleted)
  }

  /** What a complete run deletes: besides, no more than the target asks for, and not less unless
      there was nothing left that may go. */
  ghost predicate OldestDeleted(was: Models, r: GcResult, free: int, target: int) {
    && OldestSoFar(was, r)
    && (r.deleted != [] ==> free + BytesOf(was, r.deleted[..|r.deleted| - 1]) < target)
    && (free + r.freed >= target || forall y: Key :: Goes(was, y) ==> y in r.deleted)
  }

  lemma {:induction false} KeysAt(cs: seq<Candidate>, i: nat)
    ensures |KeysOf(cs)| == |cs| && (i < |cs| ==> KeysOf(cs)[i] == cs[i].key)
  {
    if cs != [] { KeysAt(cs[..|cs| - 1], i); }
  }

  lemma {:induction false} CandidateListed(listing: seq<Key>, s: Models, k: Key)
    requires k in listing && Goes(s, k)
    ensures Candidate(k, s[k].record.value) in CandidatesOf(listing, s)
  {
    var n := |listing| - 1;
    if listing[n] != k {
      assert listing == listing[..n] + [listing[n]];
      CandidateListed(listing[..n], s, k);
    }
  }

  lemma {:induction false} BytesOfKeys(was: Models, cs: seq<Candidate>, n: nat)
    requires n <= |cs| && forall i :: 0 <= i < |cs| ==> Stands(was, cs[i])
    ensures Bytes(cs[..n]) == BytesOf(was, KeysOf(cs[..n]))
  {
    if n > 0 {
      var m := n - 1;
      BytesOfKeys(was, cs, m);
      PrefixStep(cs, m);
      assert Stands(was, cs[m]);
      BytesOfMore(was, KeysOf(cs[..m]), cs[m].key);
    }
  }

  lemma BytesOfMore(was: Models, keys: seq<Key>, k: Key)
    requires k in was && was[k].record.Some?
    ensures BytesOf(was, keys + [k]) == BytesOf(was, keys) + was[k].record.value.bytes
  {
    assert (keys + [k])[..|keys|] == keys;
  }

  lemma NotBefore(a: Candidate, b: Candidate)
    requires !Before(b, a)
    ensures GoesFirst(a.rec, b.rec)
  {
  }

  /** The plan a report follows. */
  ghost predicate Planned(was: Models, sorted: seq<Candidate>) {
    && Apart(sorted) && Ordered(Before, sorted)
    && (forall i :: 0 <= i < |sorted| ==> Stands(was, sorted[i]))
    && (forall k: Key :: Goes(was, k) ==> Candidate(k, was[k].record.value) in sorted)
  }

  lemma ListingPlans(sort: Sort, was: Models, listing: seq<Key>)
    requires Sorts(sort) && IsListing(KeyLess, listing, was.Keys)
    ensures Planned(was, sort(CandidatesOf(listing, was)))
  {
    var cs := CandidatesOf(listing, was);
    var sorted := sort(cs);
    assert IsSorted(sorted, cs);
    ListingApart(listing, was.Keys);
    CandidatesApart(listing, was);
    forall i | 0 <= i < |cs| ensures Stands(was, cs[i]) { CandidatesListed(listing, was, cs[i]); }
    SortedSound(sorted, cs, was);
    forall k: Key | Goes(was, k) ensures Candidate(k, was[k].record.value) in sorted {
      var c := Candidate(k, was[k].record.value);
      CandidateListed(listing, was, k);
      assert c in multiset(cs);
      assert c in multiset(sorted);
    }
  }

  lemma PlannedPrefix(was: Models, sorted: seq<Candidate>, n: nat, i: nat)
    requires Planned(was, sorted) && i < n <= |sorted|
    ensures KeysOf(sorted[..n])[..] == KeysOf(sorted[..n]) && |KeysOf(sorted[..n])| == n
    ensures KeysOf(sorted[..n])[i] == sorted[i].key && Goes(was, sorted[i].key)
    ensures was[sorted[i].key].record.value == sorted[i].rec
  {
    KeysAt(sorted[..n], i);
    assert Stands(was, sorted[i]);
  }

  lemma PlannedOrder(was: Models, sorted: seq<Candidate>, i: nat, j: nat)
    requires Planned(was, sorted) && i < j < |sorted|
    ensures sorted[i].key != sorted[j].key && GoesFirst(sorted[i].rec, sorted[j].rec)
  {
    assert ApartAt(sorted, i, j) && InOrder(Before, sorted, i, j);
    NotBefore(sorted[i], sorted[j]);
  }

  lemma PlannedBehind(was: Models, sorted: seq<Candidate>, n: nat, x: Key, y: Key)
    requires Planned(was, sorted) && n <= |sorted|
    ensures StaysBehind(was, KeysOf(sorted[..n]), x, y)
  {
    var deleted := KeysOf(sorted[..n]);
    KeysAt(sorted[..n], 0);
    if x in deleted && Goes(was, y) && y !in deleted {
      var i: nat :| i < |deleted| && deleted[i] == x;
      PlannedPrefix(was, sorted, n, i);
      var c := Candidate(y, was[y].record.value);
      assert c in sorted;
      var j: nat :| j < |sorted| && sorted[j] == c;
      if j < n {
        PlannedPrefix(was, sorted, n, j);
      } else {
        PlannedOrder(was, sorted, i, j);
      }
    }
  }

  /** What is reported, in terms of the records alone. */
  lemma ReportMeans(sort: Sort, was: Models, free: int, target: int, r: GcResult)
    requires Sorts(sort) && Reported(sort, was, free, target, r)
    ensures OldestDeleted(was, r, free, target)
  {
    var listing, n :| ReportedFrom(sort, was, listing, n, free, target, r);
    ReportFromMeans(sort, was, listing, n, free, target, r);
  }

  lemma ReportFromMeans(sort: Sort, was: Models, listing: seq<Key>, n: nat, free: int, target: int, r: GcResult)
    requires Sorts(sort) && ReportedFrom(sort, was, listing, n, free, target, r)
    ensures OldestDeleted(was, r, free, target)
  {
    var sorted := sort(CandidatesOf(listing, was));
    ListingPlans(sort, was, listing);
    PrefixMeans(was, sorted, n, r);
    ReportedBytes(was, sorted, n, free, target, r);
  }

  lemma PrefixMeans(was: Models, sorted: seq<Candidate>, n: nat, r: GcResult)
    requires Planned(was, sorted) && n <= |sorted|
    requires r.deleted == KeysOf(sorted[..n]) && r.freed == Bytes(sorted[..n])
    ensures OldestSoFar(was, r)
  {
    KeysAt(sorted[..n], 0);
    forall i: nat ensures DeletedAt(was, r.deleted, i) {
      if i < n { PlannedPrefix(was, sorted, n, i); }
    }
    forall i: nat, j: nat ensures DeletedInOrder(was, r.deleted, i, j) {
      if i < j < n {
        PlannedPrefix(was, sorted, n, i);
        PlannedPrefix(was, sorted, n, j);
        PlannedOrder(was, sorted, i, j);
      }
    }
    forall x: Key, y: Key ensures StaysBehind(was, r.deleted, x, y) { PlannedBehind(was, sorted, n, x, y); }
    BytesOfKeys(was, sorted, n);
  }

  lemma ReportedBytes(was: Models, sorted: seq<Candidate>, n: nat, free: int, target: int, r: GcResult)
    requires Planned(was, sorted) && ShortestPrefix(sorted, free, target, n)
    requires r.deleted == KeysOf(sorted[..n]) && r.freed == Bytes(sorted[..n])
    ensures r.deleted != [] ==> free + BytesOf(was, r.deleted[..|r.deleted| - 1]) < target
    ensures free + r.freed >= target || forall y: Key :: Goes(was, y) ==> y in r.deleted
  {
    BytesOfKeys(was, sorted, n);
    KeysAt(sorted[..n], 0);
    if n > 0 { LastIsNeeded(was, sorted, n, free, target); }
    if n == |sorted| {
      assert sorted[..n] == sorted;
      forall y: Key | Goes(was, y) ensures y in r.deleted {
        var c := Candidate(y, was[y].record.value);
        var j: nat :| j < |sorted| && sorted[j] == c;
        KeysAt(sorted, j);
      }
    } else {
      assert !Short(sorted, free, target, n);
    }
  }

  lemma LastIsNeeded(was: Models, sorted: seq<Candidate>, n: nat, free: int, target: int)
    requires Planned(was, sorted) && ShortestPrefix(sorted, free, target, n) && n > 0
    ensures var deleted := KeysOf(sorted[..n]);
      deleted != [] && free + BytesOf(was, deleted[..|deleted| - 1]) < target
  {
    var m := n - 1;
    assert Short(sorted, free, target, m);
    BytesOfKeys(was, sorted, m);
    PrefixStep(sorted, m);
  }

  // ---- The candidates -------------------------------------------------------------------------

  predicate Listed(c: Candidate, listing: seq<Key>, s: Models) {
    c.key in listing && Stands(s, c)
  }

  lemma {:induction false} CandidatesListed(listing: seq<Key>, s: Models, c: Candidate)
    requires c in CandidatesOf(listing, s)
    ensures Listed(c, listing, s)
  {
    if listing != [] {
      var n := |listing| - 1;
      if c in CandidatesOf(listing[..n], s) { CandidatesListed(listing[..n], s, c); }
    }
  }

  lemma {:induction false} CandidatesApart(listing: seq<Key>, s: Models)
    requires forall i, j :: 0 <= i < j < |listing| ==> listing[i] != listing[j]
    ensures Apart(CandidatesOf(listing, s))
  {
    if listing != [] {
      var n := |listing| - 1;
      CandidatesApart(listing[..n], s);
      var front, all := CandidatesOf(listing[..n], s), CandidatesOf(listing, s);
      assert listing[n] !in listing[..n];
      forall i: nat, j: nat ensures ApartAt(all, i, j) {
        assert ApartAt(front, i, j);
        if i < |front| { CandidatesListed(listing[..n], s, front[i]); }
      }
    }
  }

  /** The candidate's record is the stored one, and eligible. */
  predicate Stands(s: Models, c: Candidate) {
    c.key in s && Eligible(s[c.key]) && s[c.key].record == Some(c.rec)
  }

  ghost predicate Apart(cs: seq<Candidate>) {
    forall i: nat, j: nat :: ApartAt(cs, i, j)
  }

  predicate ApartAt(cs: seq<Candidate>, i: nat, j: nat) {
    i < j < |cs| ==> cs[i].key != cs[j].key
  }

  /** Sorting keeps candidates sound and apart. */
  lemma SortedSound(sorted: seq<Candidate>, cs: seq<Candidate>, s: Models)
    requires Apart(cs) && forall i :: 0 <= i < |cs| ==> Stands(s, cs[i])
    requires IsSorted(sorted, cs)
    ensures Apart(sorted) && forall i :: 0 <= i < |sorted| ==> Stands(s, sorted[i])
  {
    forall i | 0 <= i < |sorted| ensures Stands(s, sorted[i]) { SameMember(sorted, cs, i); }
    forall i: nat, j: nat ensures ApartAt(sorted, i, j) {
      if i < j < |sorted| && sorted[i].key == sorted[j].key { SameKeyTwice(sorted, cs, s, i, j); }
    }
  }

  lemma SameKeyTwice(sorted: seq<Candidate>, cs: seq<Candidate>, s: Models, i: nat, j: nat)
    requires Apart(cs) && forall i :: 0 <= i < |cs| ==> Stands(s, cs[i])
    requires IsSorted(sorted, cs) && i < j < |sorted|
    ensures sorted[i].key != sorted[j].key
  {
    SameMember(sorted, cs, i);
    SameMember(sorted, cs, j);
    if sorted[i].key == sorted[j].key {
      assert Stands(s, sorted[i]) && Stands(s, sorted[j]);
      TwicePresent(sorted, i, j);
      forall k, l | 0 <= k < l < |cs| ensures cs[k] != cs[l] { assert ApartAt(cs, k, l); }
      OnceIsOne(cs, sorted[i]);
    }
  }

  // ---- GC ---------------------------------------------------------------------------------------

  /** The store's list, by model id and then by digest. */
  method List(s: Service) returns (listing: seq<Key>)
    ensures IsListing(KeyLess, listing, s.records.Keys)
  {
    var left := s.records.Keys;
    var all := [];
    while left != {}
      invariant left <= s.records.Keys
      invariant forall k :: k in all <==> k in s.records.Keys - left
      invariant forall i, j :: 0 <= i < j < |all| ==> all[i] != all[j]
      decreases |left|
    {
      var k :| k in left;
      assert k !in all;
      ghost var longer := all + [k];
      assert forall i :: 0 <= i < |all| ==> longer[i] == all[i] && all[i] in all;
      all := all + [k];
      left := left - {k};
    }
    KeyOrder();
    SortedIsListing(KeyLess, all, s.records.Keys);
    return SortBy(KeyLess, all);
  }

  method Candidates(s: Service, listing: seq<Key>) returns (cs: seq<Candidate>)
    requires forall k :: k in listing ==> k in s.records
    ensures cs == CandidatesOf(listing, s.Stored())
  {
    cs := [];
    for i := 0 to |listing|
      invariant cs == CandidatesOf(listing[..i], s.Stored())
    {
      assert listing[..i + 1][..i] == listing[..i];
      var k := listing[i];
      assert s.Stored()[k] == s.At(k);
      var candidate := s.IsCandidate(k);
      if candidate { cs := cs + [Candidate(k, s.records[k])]; }
    }
    assert listing[..|listing|] == listing;
  }

  // ---- The deletion loop --------------------------------------------------------------------

  /** After GC has dealt with a candidate: gone and RELEASED, or untouched by a dry run. */
  ghost predicate Dealt(before: Durable, after: Durable, dryRun: bool) {
    if dryRun then after == before else before.record.Some? && Vanished(before.record.value, after)
  }

  lemma PrefixStep(cs: seq<Candidate>, i: nat)
    requires i < |cs|
    ensures Bytes(cs[..i + 1]) == Bytes(cs[..i]) + cs[i].rec.bytes
    ensures KeysOf(cs[..i + 1]) == KeysOf(cs[..i]) + [cs[i].key]
  {
    assert cs[..i + 1][..i] == cs[..i];
  }

  type Snapshot = f: imap<Key, Durable> | forall k: Key :: k in f
    ghost witness imap k: Key | true :: Durable(None, {}, None)

  ghost function SnapshotOf(s: Service): Snapshot
    reads s
  {
    imap k: Key | true :: s.At(k)
  }

  predicate Among(cs: seq<Candidate>, n: nat, k: Key)
    requires n <= |cs|
  {
    exists i :: 0 <= i < n && cs[i].key == k
  }

  /** The models of the first n candidates have been dealt with, all others are untouched. */
  ghost predicate DealtWith(s: Service, before: Snapshot, cs: seq<Candidate>, n: nat, dryRun: bool)
    requires n <= |cs|
    reads s
  {
    DealtIn(SnapshotOf(s), before, cs, n, dryRun)
  }

  ghost predicate DealtIn(now: Snapshot, before: Snapshot, cs: seq<Candidate>, n: nat, dryRun: bool)
    requires n <= |cs|
  {
    forall k: Key :: DealtAt(now[k], before, cs, n, dryRun, k)
  }

  ghost predicate DealtAt(now: Durable, before: Snapshot, cs: seq<Candidate>, n: nat, dryRun: bool, k: Key)
    requires n <= |cs|
  {
    if Among(cs, n, k) then Dealt(before[k], now, dryRun) else now == before[k]
  }

  ghost predicate Sound(before: Snapshot, cs: seq<Candidate>) {
    Apart(cs) && forall i: nat :: SoundAt(before, cs, i)
  }

  ghost predicate SoundAt(before: Snapshot, cs: seq<Candidate>, i: nat) {
    i < |cs| ==> Eligible(before[cs[i].key]) && before[cs[i].key].record == Some(cs[i].rec)
  }

  ghost predicate Fit(before: Snapshot) {
    forall k: Key :: FitAt(before, k)
  }

  ghost predicate FitAt(before: Snapshot, k: Key) {
    before[k].tree.Some? ==> DirectoriesFit(before[k].tree.value)
  }

  lemma NotYetAmong(cs: seq<Candidate>, n: nat)
    requires Apart(cs) && n < |cs|
    ensures !Among(cs, n, cs[n].key)
  {
    forall i: nat | i < n ensures cs[i].key != cs[n].key { assert ApartAt(cs, i, n); }
  }

  ghost predicate SameBut(was: Snapshot, now: Snapshot, key: Key) {
    forall k: Key :: SameAt(was, now, key, k)
  }

  ghost predicate SameAt(was: Snapshot, now: Snapshot, key: Key, k: Key) {
    k != key ==> now[k] == was[k]
  }

  /** An eligible model is not skipped. */
  method CollectEligible(s: Service, dryRun: bool, key: Key, ghost was: Snapshot) returns (r: Collected)
    requires was == SnapshotOf(s) && Eligible(was[key]) && FitAt(was, key)
    modifies s
    ensures SameBut(was, SnapshotOf(s), key)
    ensures r == Deleted(was[key].record.value.bytes) || r == GcFailed
    ensures r.Deleted? ==> Dealt(was[key], s.At(key), dryRun)
    ensures r == GcFailed ==> s.At(key).record == was[key].record
    ensures if r == GcFailed then s.faults > old(s.faults) else s.faults == old(s.faults)
  {
    assert was[key] == s.At(key);
    r := s.CollectOne(key, dryRun);
    s.OthersKept(key);
    ghost var now := SnapshotOf(s);
    forall k: Key ensures SameAt(was, now, key, k) { assert was[k] == old(s.At(k)); }
  }

  /** One round. A candidate is never skipped: nobody else has touched its model. */
  method DeleteOne(s: Service, dryRun: bool, key: Key, ghost before: Snapshot, ghost cs: seq<Candidate>, ghost n: nat)
    returns (r: Collected)
    requires n < |cs| && cs[n].key == key && Sound(before, cs) && Fit(before) && DealtWith(s, before, cs, n, dryRun)
    modifies s
    ensures r == Deleted(cs[n].rec.bytes) || r == GcFailed
    ensures r.Deleted? ==> DealtWith(s, before, cs, n + 1, dryRun)
    ensures r == GcFailed ==> DealtBut(SnapshotOf(s), before, cs, n, dryRun)
    ensures if r == GcFailed then s.faults > old(s.faults) else s.faults == old(s.faults)
  {
    NotYetAmong(cs, n);
    ghost var was := SnapshotOf(s);
    assert SoundAt(before, cs, n) && FitAt(before, key) && DealtAt(was[key], before, cs, n, dryRun, key);
    r := CollectEligible(s, dryRun, key, was);
    if r.Deleted? {
      RoundDeals(was, SnapshotOf(s), before, cs, n, dryRun);
    } else {
      FailedRound(was, SnapshotOf(s), before, cs, n, dryRun);
    }
  }

  /** A run that stopped at candidate n: its record is as it was, whatever is left of its tree. */
  ghost predicate DealtBut(now: Snapshot, before: Snapshot, cs: seq<Candidate>, n: nat, dryRun: bool)
    requires n < |cs|
  {
    && now[cs[n].key].record == before[cs[n].key].record
    && forall k: Key :: k == cs[n].key || DealtAt(now[k], before, cs, n, dryRun, k)
  }

  lemma FailedRound(was: Snapshot, now: Snapshot, before: Snapshot, cs: seq<Candidate>, n: nat, dryRun: bool)
    requires n < |cs| && DealtIn(was, before, cs, n, dryRun) && SameBut(was, now, cs[n].key)
    requires now[cs[n].key].record == was[cs[n].key].record && was[cs[n].key] == before[cs[n].key]
    ensures DealtBut(now, before, cs, n, dryRun)
  {
    var key := cs[n].key;
    forall k: Key ensures k == key || DealtAt(now[k], before, cs, n, dryRun, k) {
      assert DealtAt(was[k], before, cs, n, dryRun, k) && SameAt(was, now, key, k);
    }
  }

  lemma RoundDeals(was: Snapshot, now: Snapshot, before: Snapshot, cs: seq<Candidate>, n: nat, dryRun: bool)
    requires n < |cs| && DealtIn(was, before, cs, n, dryRun) && SameBut(was, now, cs[n].key)
    requires Dealt(before[cs[n].key], now[cs[n].key], dryRun)
    ensures DealtIn(now, before, cs, n + 1, dryRun)
  {
    var m := n + 1;
    forall k: Key ensures DealtAt(now[k], before, cs, m, dryRun, k) {
      AmongStep(cs, n, k);
      assert DealtAt(was[k], before, cs, n, dryRun, k) && SameAt(was, now, cs[n].key, k);
    }
  }

  lemma AmongStep(cs: seq<Candidate>, n: nat, k: Key)
    requires n < |cs|
    ensures Among(cs, n + 1, k) <==> Among(cs, n, k) || cs[n].key == k
  {
    if Among(cs, n, k) {
      var i :| 0 <= i < n && cs[i].key == k;
      assert 0 <= i < n + 1 && cs[i].key == k;
    }
  }

  /** The result so far covers the first n candidates, none of which reached the target
      before the last. */
  ghost predicate Tally(cs: seq<Candidate>, n: nat, r: GcResult, free: int, diskFree: int, target: int) {
    && n <= |cs| && r.deleted == KeysOf(cs[..n]) && r.freed == Bytes(cs[..n]) && free == diskFree + r.freed
    && forall m: nat :: m < n ==> Short(cs, diskFree, target, m)
  }

  lemma TallyStep(cs: seq<Candidate>, n: nat, r: GcResult, free: int, diskFree: int, target: int)
    requires n < |cs| && Tally(cs, n, r, free, diskFree, target) && free < target
    ensures var bytes := cs[n].rec.bytes;
      Tally(cs, n + 1, r.(deleted := r.deleted + [cs[n].key], freed := r.freed + bytes), free + bytes, diskFree, target)
  {
    PrefixStep(cs, n);
    assert Short(cs, diskFree, target, n);
  }

  lemma TallyEnd(cs: seq<Candidate>, n: nat, r: GcResult, free: int, diskFree: int, target: int)
    requires Tally(cs, n, r, free, diskFree, target) && (free >= target || n == |cs|)
    ensures ShortestPrefix(cs, diskFree, target, n)
  {
  }

  method DeleteRound(s: Service, cs: seq<Candidate>, i: nat, result: GcResult, free: int, dryRun: bool,
                     ghost before: Snapshot, ghost diskFree: int, ghost target: int)
    returns (ok: bool, result': GcResult, free': int)
    requires i < |cs| && Sound(before, cs) && Fit(before) && DealtWith(s, before, cs, i, dryRun)
    requires Tally(cs, i, result, free, diskFree, target) && free < target
    modifies s
    ensures ok ==> DealtWith(s, before, cs, i + 1, dryRun) && Tally(cs, i + 1, result', free', diskFree, target)
    ensures !ok ==> result' == result && DealtBut(SnapshotOf(s), before, cs, i, dryRun)
    ensures if ok then s.faults == old(s.faults) else s.faults > old(s.faults)
  {
    result', free' := result, free;
    var r := DeleteOne(s, dryRun, cs[i].key, before, cs, i);
    if r == GcFailed { return false, result', free'; }
    TallyStep(cs, i, result, free, diskFree, target);
    result' := result.(deleted := result.deleted + [cs[i].key], freed := result.freed + r.bytes);
    free' := free + r.bytes;
    ok := true;
  }

  method Delete(s: Service, cs: seq<Candidate>, diskFree: int, target: int, dryRun: bool, ghost before: Snapshot)
    returns (complete: bool, result: GcResult, ghost n: nat)
    requires Sound(before, cs) && Fit(before) && DealtWith(s, before, cs, 0, dryRun)
    modifies s
    ensures n <= |cs| && result.deleted == KeysOf(cs[..n]) && result.freed == Bytes(cs[..n])
    ensures complete ==> ShortestPrefix(cs, diskFree, target, n) && DealtWith(s, before, cs, n, dryRun)
    ensures !complete ==> n < |cs| && diskFree + result.freed < target && DealtBut(SnapshotOf(s), before, cs, n, dryRun)
    ensures if complete then s.faults == old(s.faults) else s.faults > old(s.faults)
  {
    var free := diskFree;
    result := GcResult([], 0, 0);
    var i := 0;
    while i < |cs| && free < target
      invariant Tally(cs, i, result, free, diskFree, target)
      invariant DealtWith(s, before, cs, i, dryRun)
      invariant s.faults == old(s.faults)
    {
      complete, result, free := DeleteRound(s, cs, i, result, free, dryRun, before, diskFree, target);
      if !complete { return false, result, i; }
      i := i + 1;
    }
    TallyEnd(cs, i, result, free, diskFree, target);
    return true, result, i;
  }

  /** How much must be free: what the caller asks for, or what is configured. */
  function Target(minFreeBytes: int, configured: int): int {
    if minFreeBytes <= 0 then configured else minFreeBytes
  }

  const LRU := "lru_no_lease"

  /** The policy that applies: the caller's, else the configured one, else the default. */
  function Policy(policy: string, configPolicy: string): string {
    if policy != "" then policy else if configPolicy != "" then configPolicy else LRU
  }

  /** The candidates in deletion order. */
  method Plan(s: Service, sort: Sort) returns (sorted: seq<Candidate>, ghost listing: seq<Key>)
    requires Sorts(sort)
    ensures IsListing(KeyLess, listing, s.records.Keys) && sorted == sort(CandidatesOf(listing, s.Stored()))
    ensures Sound(SnapshotOf(s), sorted)
  {
    var all := List(s);
    listing := all;
    var cs := Candidates(s, all);
    sorted := sort(cs);
    PlanSound(s, listing, cs, sorted);
  }

  lemma PlanSound(s: Service, listing: seq<Key>, cs: seq<Candidate>, sorted: seq<Candidate>)
    requires IsListing(KeyLess, listing, s.records.Keys) && cs == CandidatesOf(listing, s.Stored())
    requires IsSorted(sorted, cs)
    ensures Sound(SnapshotOf(s), sorted)
  {
    var stored, before := s.Stored(), SnapshotOf(s);
    ListingApart(listing, s.records.Keys);
    CandidatesApart(listing, stored);
    forall i | 0 <= i < |cs| ensures Stands(stored, cs[i]) { CandidatesListed(listing, stored, cs[i]); }
    SortedSound(sorted, cs, stored);
    forall i: nat ensures SoundAt(before, sorted, i) {
      if i < |sorted| { assert Stands(stored, sorted[i]); }
    }
  }

  lemma NothingDealtYet(s: Service, cs: seq<Candidate>, dryRun: bool)
    ensures DealtWith(s, SnapshotOf(s), cs, 0, dryRun)
  {
    var before := SnapshotOf(s);
    forall k: Key ensures DealtAt(before[k], before, cs, 0, dryRun, k) { assert !Among(cs, 0, k); }
  }

  /** GC. `configured` is retention.min_free_bytes, `diskFree` what the file system reports,
      `sort` the library's sort by the comparator. */
  method GC(s: Service, policy: string, configPolicy: string, minFreeBytes: int, configured: int,
            diskFree: int, dryRun: bool, sort: Sort) returns (a: GcAnswer)
    requires Sorts(sort)
    requires forall k :: k in s.trees ==> DirectoriesFit(s.trees[k])
    modifies s
    ensures a.UnsupportedPolicy? <==>
              (policy != "" && policy != "lru_no_lease")
              || (policy == "" && configPolicy != "" && configPolicy != "lru_no_lease")
    ensures a.UnsupportedPolicy? ==> SnapshotOf(s) == old(SnapshotOf(s))
    ensures a.Complete? ==> Reported(sort, old(s.Stored()), diskFree, Target(minFreeBytes, configured), a.result)
    ensures a.Complete? ==> OldestDeleted(old(s.Stored()), a.result, diskFree,
                                          if minFreeBytes > 0 then minFreeBytes else configured)
    ensures a.Complete? ==> a.result.remaining == |s.records|
    ensures a.Complete? ==> forall k: Key ::
              if k in a.result.deleted then Dealt(old(s.At(k)), s.At(k), dryRun) else s.At(k) == old(s.At(k))
    ensures a.Stopped? ==> OldestSoFar(old(s.Stored()), a.result)
    ensures a.Stopped? ==> diskFree + a.result.freed < if minFreeBytes > 0 then minFreeBytes else configured
    ensures a.Stopped? ==> StoppedShort(old(SnapshotOf(s)), SnapshotOf(s), a.result.deleted, dryRun)
    ensures if a.Stopped? then s.faults > old(s.faults) else s.faults == old(s.faults)
  {
    if Policy(policy, configPolicy) != LRU { return UnsupportedPolicy; }
    ghost var was := s.Stored();
    a := Collect(s, Target(minFreeBytes, configured), diskFree, dryRun, sort);
    if a.Complete? { ReportMeans(sort, was, diskFree, Target(minFreeBytes, configured), a.result); }
  }

  method Collect(s: Service, target: int, diskFree: int, dryRun: bool, sort: Sort) returns (a: GcAnswer)
    requires Sorts(sort)
    requires forall k :: k in s.trees ==> DirectoriesFit(s.trees[k])
    modifies s
    ensures a.Complete? || a.Stopped?
    ensures a.Complete? ==> Reported(sort, old(s.Stored()), diskFree, target, a.result)
    ensures a.Complete? ==> a.result.remaining == |s.records|
    ensures a.Complete? ==> forall k: Key ::
              if k in a.result.deleted then Dealt(old(s.At(k)), s.At(k), dryRun) else s.At(k) == old(s.At(k))
    ensures a.Stopped? ==> OldestSoFar(old(s.Stored()), a.result) && diskFree + a.result.freed < target
    ensures a.Stopped? ==> StoppedShort(old(SnapshotOf(s)), SnapshotOf(s), a.result.deleted, dryRun)
    ensures if a.Stopped? then s.faults > old(s.faults) else s.faults == old(s.faults)
  {
    ghost var before, stored := SnapshotOf(s), s.Stored();
    var sorted;
    ghost var listing, n;
    sorted, listing := Plan(s, sort);
    NothingDealtYet(s, sorted, dryRun);
    var complete, result;
    complete, result, n := Delete(s, sorted, diskFree, target, dryRun, before);
    if !complete {
      ListingPlans(sort, stored, listing);
      PrefixMeans(stored, sorted, n, result);
      StoppedThere(before, SnapshotOf(s), sorted, n, dryRun);
      return Stopped(result);
    }
    result := result.(remaining := |s.records|);
    assert ReportedFrom(sort, stored, listing, n, diskFree, target, result);
    AllDealt(s, before, sorted, n, dryRun);
    return Complete(result);
  }

  /** One model that may go was not dealt with, and keeps its record; all others are dealt with
      if they are reported and untouched if not. */
  ghost predicate StoppedShort(was: Snapshot, now: Snapshot, deleted: seq<Key>, dryRun: bool) {
    exists y: Key :: StoppedAt(was, now, deleted, dryRun, y)
  }

  ghost predicate StoppedAt(was: Snapshot, now: Snapshot, deleted: seq<Key>, dryRun: bool, y: Key) {
    && Eligible(was[y]) && y !in deleted && now[y].record == was[y].record
    && forall k: Key :: LeftAt(was, now, deleted, dryRun, y, k)
  }

  ghost predicate LeftAt(was: Snapshot, now: Snapshot, deleted: seq<Key>, dryRun: bool, y: Key, k: Key) {
    if k in deleted then Dealt(was[k], now[k], dryRun) else k == y || now[k] == was[k]
  }

  lemma StoppedThere(before: Snapshot, now: Snapshot, cs: seq<Candidate>, n: nat, dryRun: bool)
    requires n < |cs| && Sound(before, cs) && DealtBut(now, before, cs, n, dryRun)
    ensures StoppedShort(before, now, KeysOf(cs[..n]), dryRun)
  {
    var deleted, y := KeysOf(cs[..n]), cs[n].key;
    assert SoundAt(before, cs, n);
    NotYetAmong(cs, n);
    KeysAmong(cs, n, y);
    forall k: Key ensures LeftAt(before, now, deleted, dryRun, y, k) {
      KeysAmong(cs, n, k);
      assert k == y || DealtAt(now[k], before, cs, n, dryRun, k);
    }
    assert StoppedAt(before, now, deleted, dryRun, y);
  }

  lemma AllDealt(s: Service, before: Snapshot, cs: seq<Candidate>, n: nat, dryRun: bool)
    requires n <= |cs| && DealtWith(s, before, cs, n, dryRun)
    ensures forall k: Key ::
              if k in KeysOf(cs[..n]) then Dealt(before[k], s.At(k), dryRun) else s.At(k) == before[k]
  {
    var deleted := KeysOf(cs[..n]);
    forall k: Key ensures if k in deleted then Dealt(before[k], s.At(k), dryRun) else s.At(k) == before[k] {
      assert DealtAt(SnapshotOf(s)[k], before, cs, n, dryRun, k);
      KeysAmong(cs, n, k);
    }
  }

  lemma ListingApart(listing: seq<Key>, of: set<Key>)
    requires IsListing(KeyLess, listing, of)
    ensures forall i, j :: 0 <= i < j < |listing| ==> listing[i] != listing[j]
  {
    KeyOrder();
    forall i, j | 0 <= i < j < |listing| ensures listing[i] != listing[j] { assert !KeyLess(listing[i], listing[i]); }
  }

  lemma {:induction false} KeysAmong(cs: seq<Candidate>, n: nat, k: Key)
    requires n <= |cs|
    ensures k in KeysOf(cs[..n]) <==> Among(cs, n, k)
  {
    if n > 0 {
      KeysAmong(cs, n - 1, k);
      PrefixStep(cs, n - 1);
      AmongStep(cs, n - 1, k);
    }
  }
}
