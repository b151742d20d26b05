/** Dropping the oldest entries of a cache: the candidates sorted by age and key, and what is
    left when the first few are deleted. Both caches evict this way
    (internal/app/runtime_bundle_token.go:120-168, internal/app/gpu_tensor_map.go:213-250). */
module OldestFirst {
  import opened Sorting

  datatype Aged = Aged(key: string, age: int)

  /** The age of every entry of a cache. */
  function Ages<V>(m: map<string, V>, age: V -> int): (ages: map<string, int>)
    ensures ages.Keys == m.Keys
  {
    map k | k in m :: age(m[k])
  }

  /** The eviction order: age, then key. */
  predicate Older(a: Aged, b: Aged) {
    if a.age == b.age then StringLess(a.key, b.key) else a.age < b.age
  }

  lemma OlderIsOrder()
    ensures StrictWeakOrder(Older)
  {
    StringOrder();
  }

  /** Each of the given keys once, with its age. */
  ghost predicate Lists(cs: seq<Aged>, ages: map<string, int>, of: set<string>) {
    && (forall i: nat :: EntryAt(cs, ages, of, i))
    && (forall i: nat, j: nat :: ApartAt(cs, i, j))
    && (forall k :: ListedIn(cs, of, k))
  }

  predicate EntryAt(cs: seq<Aged>, ages: map<string, int>, of: set<string>, i: nat) {
    i < |cs| ==> cs[i].key in of && cs[i].key in ages && ages[cs[i].key] == cs[i].age
  }

  predicate ApartAt(cs: seq<Aged>, i: nat, j: nat) {
    i < j < |cs| ==> cs[i].key != cs[j].key
  }

  predicate ListedIn(cs: seq<Aged>, of: set<string>, k: string) {
    k in of ==> Listed(cs, k)
  }

  predicate Listed(cs: seq<Aged>, k: string) {
    exists i :: 0 <= i < |cs| && cs[i].key == k
  }

  ghost predicate IsAgeOrder(cs: seq<Aged>, ages: map<string, int>) {
    Lists(cs, ages, ages.Keys) && Ordered(Older, cs)
  }

  /** All entries, oldest first. */
  method Candidates(ages: map<string, int>) returns (cs: seq<Aged>)
    ensures IsAgeOrder(cs, ages) && |cs| == |ages|
  {
    var all := Unsorted(ages);
    SortedLists(all, ages);
    cs := SortBy(Older, all);
    ListsSize(cs, ages, ages.Keys);
  }

  method Unsorted(ages: map<string, int>) returns (all: seq<Aged>)
    ensures Lists(all, ages, ages.Keys)
  {
    var left := ages.Keys;
    ghost var done: set<string> := {};
    all := [];
    while left != {}
      invariant done !! left && done + left == ages.Keys
      invariant Lists(all, ages, done)
      decreases |left|
    {
      var k :| k in left;
      ListsMore(all, ages, done, k);
      all := all + [Aged(k, ages[k])];
      left := left - {k};
      done := done + {k};
    }
  }

  lemma ListsMore(cs: seq<Aged>, ages: map<string, int>, of: set<string>, k: string)
    requires Lists(cs, ages, of) && k in ages && k !in of
    ensures Lists(cs + [Aged(k, ages[k])], ages, of + {k})
  {
    var longer := cs + [Aged(k, ages[k])];
    assert longer[|cs|].key == k;
    forall i: nat ensures EntryAt(longer, ages, of + {k}, i) { assert EntryAt(cs, ages, of, i); }
    forall i: nat, j: nat ensures ApartAt(longer, i, j) { assert ApartAt(cs, i, j) && EntryAt(cs, ages, of, i); }
    forall u ensures ListedIn(longer, of + {k}, u) {
      assert ListedIn(cs, of, u);
      if u != k && u in of {
        var i :| 0 <= i < |cs| && cs[i].key == u;
        assert longer[i].key == u;
      }
    }
  }

  lemma SortedLists(cs: seq<Aged>, ages: map<string, int>)
    requires Lists(cs, ages, ages.Keys)
    ensures IsAgeOrder(SortBy(Older, cs), ages)
  {
    OlderIsOrder();
    SortByIsSort(Older, cs);
    RearrangedLists(SortBy(Older, cs), cs, ages);
  }

  lemma RearrangedLists(r: seq<Aged>, cs: seq<Aged>, ages: map<string, int>)
    requires Lists(cs, ages, ages.Keys) && multiset(r) == multiset(cs)
    ensures Lists(r, ages, ages.Keys)
  {
    forall i: nat ensures EntryAt(r, ages, ages.Keys, i) {
      if i < |r| {
        SameMember(r, cs, i);
        var j :| 0 <= j < |cs| && cs[j] == r[i];
        assert EntryAt(cs, ages, ages.Keys, j);
      }
    }
    forall i: nat, j: nat ensures ApartAt(r, i, j) {
      if i < j < |r| {
        assert EntryAt(r, ages, ages.Keys, i) && EntryAt(r, ages, ages.Keys, j);
        RearrangedApart(r, cs, i, j);
      }
    }
    forall k ensures ListedIn(r, ages.Keys, k) {
      assert ListedIn(cs, ages.Keys, k);
      if k in ages { RearrangedListed(r, cs, k); }
    }
  }

  lemma RearrangedApart(r: seq<Aged>, cs: seq<Aged>, i: nat, j: nat)
    requires multiset(r) == multiset(cs) && i < j < |r|
    requires forall m: nat, n: nat :: ApartAt(cs, m, n)
    ensures r[i] != r[j]
  {
    forall m, n | 0 <= m < n < |cs| ensures cs[m] != cs[n] { assert ApartAt(cs, m, n); }
    OnceIsOne(cs, r[i]);
    if r[i] == r[j] { TwicePresent(r, i, j); }
  }

  lemma RearrangedListed(r: seq<Aged>, cs: seq<Aged>, k: string)
    requires multiset(r) == multiset(cs) && Listed(cs, k)
    ensures Listed(r, k)
  {
    var i :| 0 <= i < |cs| && cs[i].key == k;
    SameMember(cs, r, i);
    var j :| 0 <= j < |r| && r[j] == cs[i];
    assert r[j].key == k;
  }

  lemma {:induction false} ListsSize(cs: seq<Aged>, ages: map<string, int>, of: set<string>)
    requires Lists(cs, ages, of)
    ensures |cs| == |of|
  {
    if cs == [] {
      ListsNothing(cs, ages, of);
    } else {
      var n := |cs| - 1;
      ListsFewer(cs, ages, of);
      ListsSize(cs[..n], ages, of - {cs[n].key});
      assert EntryAt(cs, ages, of, n);
    }
  }

  lemma ListsNothing(cs: seq<Aged>, ages: map<string, int>, of: set<string>)
    requires Lists(cs, ages, of) && cs == []
    ensures of == {}
  {
    forall k ensures k !in of { assert ListedIn(cs, of, k); }
  }

  lemma ListsFewer(cs: seq<Aged>, ages: map<string, int>, of: set<string>)
    requires Lists(cs, ages, of) && cs != []
    ensures var n := |cs| - 1; Lists(cs[..n], ages, of - {cs[n].key})
  {
    var n := |cs| - 1;
    var front, rest := cs[..n], of - {cs[n].key};
    forall i: nat ensures EntryAt(front, ages, rest, i) { assert EntryAt(cs, ages, of, i) && ApartAt(cs, i, n); }
    forall i: nat, j: nat ensures ApartAt(front, i, j) { assert ApartAt(cs, i, j); }
    forall k ensures ListedIn(front, rest, k) {
      assert ListedIn(cs, of, k);
      if k in rest {
        var i :| 0 <= i < |cs| && cs[i].key == k;
        assert front[i].key == k;
      }
    }
  }

  predicate Dropped(cs: seq<Aged>, n: nat, k: string)
    requires n <= |cs|
  {
    exists i :: 0 <= i < n && cs[i].key == k
  }

  ghost predicate RemainAt<V>(left: map<string, V>, m: map<string, V>, cs: seq<Aged>, n: nat, k: string)
    requires n <= |cs|
  {
    && (k in left <==> k in m && !Dropped(cs, n, k))
    && (k in left ==> left[k] == m[k])
  }

  /** left is what remains of a cache when the first n of an age order are dropped. */
  ghost predicate Remain<V>(left: map<string, V>, m: map<string, V>, cs: seq<Aged>, n: nat)
    requires n <= |cs|
  {
    forall k :: RemainAt(left, m, cs, n, k)
  }

  lemma NoneDropped<V>(m: map<string, V>, cs: seq<Aged>)
    ensures Remain(m, m, cs, 0)
  {
  }

  lemma SameSize<K, V, W>(a: map<K, V>, b: map<K, W>)
    requires a.Keys == b.Keys
    ensures |a| == |b|
  {
    assert |a.Keys| == |a| && |b.Keys| == |b|;
  }

  lemma GrownSize<K, V>(m: map<K, V>, k: K, v: V)
    requires k !in m
    ensures |m[k := v]| == |m| + 1
  {
    RemovedSize(m[k := v], k);
    assert m[k := v] - {k} == m;
  }

  lemma DroppedStep(cs: seq<Aged>, n: nat, k: string)
    requires n < |cs|
    ensures Dropped(cs, n + 1, k) <==> Dropped(cs, n, k) || k == cs[n].key
  {
    if Dropped(cs, n, k) {
      var i :| 0 <= i < n && cs[i].key == k;
      assert 0 <= i < n + 1 && cs[i].key == k;
    }
  }

  lemma NotYetDropped(cs: seq<Aged>, ages: map<string, int>, n: nat)
    requires Lists(cs, ages, ages.Keys) && n < |cs|
    ensures cs[n].key in ages && !Dropped(cs, n, cs[n].key)
  {
    assert EntryAt(cs, ages, ages.Keys, n);
    forall i | 0 <= i < n ensures cs[i].key != cs[n].key { assert ApartAt(cs, i, n); }
  }

  lemma RemainStep<V>(left: map<string, V>, m: map<string, V>, cs: seq<Aged>, ages: map<string, int>, n: nat)
    requires ages.Keys == m.Keys && IsAgeOrder(cs, ages) && n < |cs| && Remain(left, m, cs, n)
    ensures cs[n].key in left && Remain(left - {cs[n].key}, m, cs, n + 1)
    ensures |left - {cs[n].key}| == |left| - 1
  {
    var gone := cs[n].key;
    NotYetDropped(cs, ages, n);
    assert RemainAt(left, m, cs, n, gone);
    var rest, next := left - {gone}, n + 1;
    forall k: string ensures RemainAt(rest, m, cs, next, k) {
      assert RemainAt(left, m, cs, n, k);
      DroppedStep(cs, n, k);
    }
    RemovedSize(left, gone);
  }

  lemma RemovedSize<K, V>(m: map<K, V>, k: K)
    requires k in m
    ensures |m - {k}| == |m| - 1
  {
    assert (m - {k}).Keys == m.Keys - {k};
  }

  /** What was dropped is older than anything that stayed, or as old and first by key. */
  ghost predicate OldestGone(ages: map<string, int>, left: set<string>) {
    left <= ages.Keys && forall k: string, u: string :: NoYounger(ages, left, k, u)
  }

  /** k did not go while u stayed, unless it is older, or as old with the smaller key. */
  predicate NoYounger(ages: map<string, int>, left: set<string>, k: string, u: string) {
    k in ages && k !in left && u in left && u in ages ==>
      ages[k] < ages[u] || (ages[k] == ages[u] && StringLess(k, u))
  }

  lemma SurvivorsAreYounger<V>(left: map<string, V>, m: map<string, V>, cs: seq<Aged>, ages: map<string, int>, n: nat)
    requires ages.Keys == m.Keys && IsAgeOrder(cs, ages) && n <= |cs| && Remain(left, m, cs, n)
    ensures OldestGone(ages, left.Keys) && forall k :: k in left ==> k in m && left[k] == m[k]
  {
    assert forall k :: k in left ==> RemainAt(left, m, cs, n, k);
    forall k: string, u: string ensures NoYounger(ages, left.Keys, k, u) {
      assert RemainAt(left, m, cs, n, k) && RemainAt(left, m, cs, n, u);
      if k in ages && k !in left && u in left { DroppedBefore(cs, ages, n, k, u); }
    }
  }

  lemma DroppedBefore(cs: seq<Aged>, ages: map<string, int>, n: nat, k: string, u: string)
    requires IsAgeOrder(cs, ages) && n <= |cs| && k in ages && u in ages && Dropped(cs, n, k) && !Dropped(cs, n, u)
    ensures ages[k] < ages[u] || (ages[k] == ages[u] && StringLess(k, u))
  {
    assert ListedIn(cs, ages.Keys, u);
    var i :| 0 <= i < n && cs[i].key == k;
    var j :| 0 <= j < |cs| && cs[j].key == u;
    assert n <= j;
    assert InOrder(Older, cs, i, j);
    assert EntryAt(cs, ages, ages.Keys, i) && EntryAt(cs, ages, ages.Keys, j) && ApartAt(cs, i, j);
    StringLessTotal(k, u);
  }

  /** Deletes so many of the oldest entries of a map, one by one. */
  method DropOldest<V>(m: map<string, V>, ages: map<string, int>, toEvict: nat)
    returns (left: map<string, V>, evicted: nat)
    requires ages.Keys == m.Keys
    ensures evicted == (if toEvict <= |m| then toEvict else |m|) && |left| + evicted == |m|
    ensures forall k :: k in left ==> k in m && left[k] == m[k]
    ensures OldestGone(ages, left.Keys)
  {
    var cs := Candidates(ages);
    SameSize(ages, m);
    evicted, left := 0, m;
    NoneDropped(m, cs);
    while evicted < |cs| && evicted < toEvict
      invariant evicted <= |cs| && evicted <= toEvict
      invariant Remain(left, m, cs, evicted) && |left| + evicted == |m|
    {
      RemainStep(left, m, cs, ages, evicted);
      left := left - {cs[evicted].key};
      evicted := evicted + 1;
    }
    SurvivorsAreYounger(left, m, cs, ages, evicted);
  }
}
