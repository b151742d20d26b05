/** sort.Slice as the service uses it, and the order of strings. Any deterministic sort would
    do: what is used of the result is that it is an ordered rearrangement. */
module Sorting {

  ghost predicate StrictWeakOrder<T(!new)>(less: (T, T) -> bool) {
    && (forall a :: !less(a, a))
    && (forall a, b, c :: less(a, b) && less(b, c) ==> less(a, c))
    && (forall a, b, c :: less(a, b) ==> less(a, c) || less(c, b))
  }

  /** ... in which different elements are never tied. */
  ghost predicate StrictTotalOrder<T(!new)>(less: (T, T) -> bool) {
    StrictWeakOrder(less) && forall a, b :: Comparable(less, a, b)
  }

  predicate Comparable<T(==)>(less: (T, T) -> bool, a: T, b: T) {
    a == b || less(a, b) || less(b, a)
  }

  /** No element is less than one before it. */
  ghost predicate Ordered<T>(less: (T, T) -> bool, s: seq<T>) {
    forall i: nat, j: nat :: InOrder(less, s, i, j)
  }

  predicate InOrder<T>(less: (T, T) -> bool, s: seq<T>, i: nat, j: nat) {
    i < j < |s| ==> !less(s[j], s[i])
  }

  function Insert<T>(less: (T, T) -> bool, x: T, s: seq<T>): seq<T> {
    if s == [] then [x]
    else if less(x, s[|s| - 1]) then Insert(less, x, s[..|s| - 1]) + [s[|s| - 1]]
    else s + [x]
  }

  function SortBy<T>(less: (T, T) -> bool, s: seq<T>): seq<T> {
    if s == [] then [] else Insert(less, s[|s| - 1], SortBy(less, s[..|s| - 1]))
  }

  lemma {:induction false} InsertKeepsElements<T>(less: (T, T) -> bool, x: T, s: seq<T>)
    ensures multiset(Insert(less, x, s)) == multiset(s) + multiset{x}
    ensures |Insert(less, x, s)| == |s| + 1
  {
    if s != [] && less(x, s[|s| - 1]) {
      InsertKeepsElements(less, x, s[..|s| - 1]);
      assert s == s[..|s| - 1] + [s[|s| - 1]];
    }
  }

  lemma {:induction false} InsertMember<T>(less: (T, T) -> bool, x: T, s: seq<T>, y: T)
    ensures y in Insert(less, x, s) <==> y == x || y in s
  {
    InsertKeepsElements(less, x, s);
    assert y in Insert(less, x, s) <==> y in multiset(Insert(less, x, s));
    assert y in s <==> y in multiset(s);
  }

  lemma {:induction false} InsertKeepsOrder<T(!new)>(less: (T, T) -> bool, x: T, s: seq<T>)
    requires StrictWeakOrder(less) && Ordered(less, s)
    ensures Ordered(less, Insert(less, x, s))
  {
    if s != [] {
      var n := |s| - 1;
      if less(x, s[n]) {
        PrefixInOrder(less, s, n);
        InsertKeepsOrder(less, x, s[..n]);
        var front := Insert(less, x, s[..n]);
        forall i | 0 <= i < |front| ensures !less(s[n], front[i]) {
          InsertMember(less, x, s[..n], front[i]);
          if front[i] in s[..n] {
            var k :| 0 <= k < n && s[k] == front[i];
            assert InOrder(less, s, k, n);
          }
        }
        AppendInOrder(less, front, s[n]);
      } else {
        forall i | 0 <= i < |s| ensures !less(x, s[i]) {
          var y, z := s[i], s[n];
          assert InOrder(less, s, i, n);
          assert less(x, y) ==> less(x, z) || less(z, y);
        }
        AppendInOrder(less, s, x);
      }
    }
  }

  lemma PrefixInOrder<T>(less: (T, T) -> bool, s: seq<T>, n: nat)
    requires Ordered(less, s) && n <= |s|
    ensures Ordered(less, s[..n])
  {
    forall i: nat, j: nat ensures InOrder(less, s[..n], i, j) { assert InOrder(less, s, i, j); }
  }

  lemma AppendInOrder<T>(less: (T, T) -> bool, s: seq<T>, x: T)
    requires Ordered(less, s) && forall i :: 0 <= i < |s| ==> !less(x, s[i])
    ensures Ordered(less, s + [x])
  {
    forall i: nat, j: nat ensures InOrder(less, s + [x], i, j) { assert InOrder(less, s, i, j); }
  }

  /** Sorting rearranges, and the result is in order. */
  lemma {:induction false} SortByIsSort<T(!new)>(less: (T, T) -> bool, s: seq<T>)
    requires StrictWeakOrder(less)
    ensures Ordered(less, SortBy(less, s)) && multiset(SortBy(less, s)) == multiset(s)
    ensures |SortBy(less, s)| == |s|
  {
    if s != [] {
      var n := |s| - 1;
      SortByIsSort(less, s[..n]);
      InsertKeepsOrder(less, s[n], SortBy(less, s[..n]));
      InsertKeepsElements(less, s[n], SortBy(less, s[..n]));
      assert s == s[..n] + [s[n]];
    }
  }

  // ---- Strings ------------------------------------------------------------------------------

  predicate StringLess(a: string, b: string) {
    b != "" && (a == "" || a[0] < b[0] || (a[0] == b[0] && StringLess(a[1..], b[1..])))
  }

  /** The strings are alike up to n, where a ends or has the smaller character. */
  predicate LessAt(a: string, b: string, n: nat) {
    n <= |a| && n < |b| && a[..n] == b[..n] && (n == |a| || a[n] < b[n])
  }

  /** What the order is: a proper prefix first, and otherwise by the first difference. */
  lemma {:induction false} StringLessMeans(a: string, b: string)
    ensures StringLess(a, b) <==> exists n: nat :: LessAt(a, b, n)
  {
    if b != "" {
      if a == "" {
        assert LessAt(a, b, 0);
      } else {
        StringLessMeans(a[1..], b[1..]);
        LessAtFront(a, b);
      }
    }
  }

  lemma LessAtFront(a: string, b: string)
    requires a != "" && b != ""
    ensures (exists n: nat :: LessAt(a, b, n)) <==>
              a[0] < b[0] || (a[0] == b[0] && exists n: nat :: LessAt(a[1..], b[1..], n))
  {
    if a[0] < b[0] { assert LessAt(a, b, 0); }
    if a[0] == b[0] && exists n: nat :: LessAt(a[1..], b[1..], n) {
      var n: nat :| LessAt(a[1..], b[1..], n);
      assert a[..n + 1] == [a[0]] + a[1..][..n] && b[..n + 1] == [b[0]] + b[1..][..n];
      var m := n + 1;
      assert LessAt(a, b, m);
    }
    if exists n: nat :: LessAt(a, b, n) {
      var n: nat :| LessAt(a, b, n);
      if n > 0 {
        var m := n - 1;
        assert a[..n][0] == a[0] && b[..n][0] == b[0];
        assert a[1..][..m] == a[..n][1..] && b[1..][..m] == b[..n][1..];
        assert LessAt(a[1..], b[1..], m);
      }
    }
  }

  lemma {:induction false} StringLessTotal(a: string, b: string)
    ensures a == b || StringLess(a, b) || StringLess(b, a)
    ensures !(StringLess(a, b) && StringLess(b, a))
  {
    if a != "" && b != "" {
      StringLessTotal(a[1..], b[1..]);
      assert a == [a[0]] + a[1..] && b == [b[0]] + b[1..];
    }
  }

  lemma {:induction false} StringLessTransitive(a: string, b: string, c: string)
    requires StringLess(a, b) && StringLess(b, c)
    ensures StringLess(a, c)
  {
    if a != "" && a[0] == b[0] == c[0] { StringLessTransitive(a[1..], b[1..], c[1..]); }
  }

  lemma StringOrder()
    ensures StrictTotalOrder(StringLess)
  {
    forall a ensures !StringLess(a, a) { StringLessTotal(a, a); }
    forall a, b, c | StringLess(a, b) && StringLess(b, c) ensures StringLess(a, c) { StringLessTransitive(a, b, c); }
    forall a, b, c | StringLess(a, b) ensures StringLess(a, c) || StringLess(c, b) {
      StringLessTotal(a, c);
      if a != c && !StringLess(a, c) { StringLessTransitive(c, a, b); }
    }
    forall a, b ensures Comparable(StringLess, a, b) { StringLessTotal(a, b); }
  }

  // ---- The listing of a set -------------------------------------------------------------------

  /** The elements of a set, each once, in ascending order. */
  ghost predicate IsListing<T(!new)>(less: (T, T) -> bool, keys: seq<T>, of: set<T>) {
    && (forall k :: k in keys <==> k in of)
    && (forall i, j :: 0 <= i < j < |keys| ==> less(keys[i], keys[j]))
  }

  lemma ListingEmpty<T(!new)>(less: (T, T) -> bool, a: seq<T>, of: set<T>)
    requires IsListing(less, a, of)
    ensures a == [] <==> of == {}
  {
    if a != [] { assert a[0] in of; }
  }

  /** A set has one listing. */
  lemma {:induction false} ListingUnique<T(!new)>(less: (T, T) -> bool, a: seq<T>, b: seq<T>, of: set<T>)
    requires StrictTotalOrder(less)
    requires IsListing(less, a, of) && IsListing(less, b, of)
    ensures a == b
    decreases |a|
  {
    ListingEmpty(less, a, of);
    ListingEmpty(less, b, of);
    if a != [] {
      FirstIsLeast(less, a, b, of);
      TailListing(less, a, of);
      TailListing(less, b, of);
      ListingUnique(less, a[1..], b[1..], of - {a[0]});
      assert a == [a[0]] + a[1..] && b == [b[0]] + b[1..];
    }
  }

  lemma FirstIsLeast<T(!new)>(less: (T, T) -> bool, a: seq<T>, b: seq<T>, of: set<T>)
    requires StrictTotalOrder(less)
    requires IsListing(less, a, of) && IsListing(less, b, of) && a != [] && b != []
    ensures a[0] == b[0]
  {
    assert a[0] in a && b[0] in b;
    var i :| 0 <= i < |b| && b[i] == a[0];
    var j :| 0 <= j < |a| && a[j] == b[0];
    assert Comparable(less, a[0], b[0]);
  }

  lemma TailListing<T(!new)>(less: (T, T) -> bool, a: seq<T>, of: set<T>)
    requires StrictTotalOrder(less)
    requires IsListing(less, a, of) && a != []
    ensures IsListing(less, a[1..], of - {a[0]})
  {
    forall k ensures k in a[1..] <==> k in of - {a[0]} {
      if k in a[1..] { TailMember(less, a, of, k); }
      if k in of - {a[0]} { StaysInTail(a, k); }
    }
  }

  lemma TailMember<T(!new)>(less: (T, T) -> bool, a: seq<T>, of: set<T>, k: T)
    requires StrictTotalOrder(less)
    requires IsListing(less, a, of) && a != [] && k in a[1..]
    ensures k in of && k != a[0]
  {
    var i :| 0 < i < |a| && a[i] == k;
    assert less(a[0], a[i]) && a[i] in a;
  }

  lemma StaysInTail<T>(a: seq<T>, k: T)
    requires k in a && k != a[0]
    ensures k in a[1..]
  {
    var i :| 0 <= i < |a| && a[i] == k;
    assert a[1..][i - 1] == k;
  }

  /** Sorting the elements of a set, each once, gives its listing. */
  lemma SortedIsListing<T(!new)>(less: (T, T) -> bool, s: seq<T>, of: set<T>)
    requires StrictTotalOrder(less)
    requires forall k :: k in s <==> k in of
    requires forall i, j :: 0 <= i < j < |s| ==> s[i] != s[j]
    ensures IsListing(less, SortBy(less, s), of)
  {
    SortByIsSort(less, s);
    var r := SortBy(less, s);
    forall k ensures k in r <==> k in of {
      assert k in r <==> k in multiset(r);
      assert k in s <==> k in multiset(s);
    }
    forall i, j | 0 <= i < j < |r| ensures less(r[i], r[j]) {
      assert InOrder(less, r, i, j) && Comparable(less, r[i], r[j]);
      if r[i] == r[j] {
        TwicePresent(r, i, j);
        OnceIsOne(s, r[i]);
      }
    }
  }

  lemma {:induction false} OnceIsOne<T>(s: seq<T>, x: T)
    requires forall i, j :: 0 <= i < j < |s| ==> s[i] != s[j]
    ensures multiset(s)[x] <= 1
  {
    if s != [] {
      var n := |s| - 1;
      OnceIsOne(s[..n], x);
      assert s == s[..n] + [s[n]];
      if s[n] == x { assert x !in s[..n]; }
    }
  }

  /** A rearrangement has the same members. */
  lemma SameMember<T>(a: seq<T>, b: seq<T>, i: nat)
    requires multiset(a) == multiset(b) && i < |a|
    ensures a[i] in b
  {
    assert a[i] in multiset(a);
    assert a[i] in multiset(b);
  }

  lemma TwicePresent<T>(s: seq<T>, i: nat, j: nat)
    requires i < j < |s| && s[i] == s[j]
    ensures multiset(s)[s[i]] >= 2
  {
    assert s == s[..j] + [s[j]] + s[j + 1..];
    assert s[..j][i] == s[i];
  }

  lemma {:induction false} DistinctElements(of: set<string>) returns (s: seq<string>)
    ensures forall k :: k in s <==> k in of
    ensures forall i, j :: 0 <= i < j < |s| ==> s[i] != s[j]
  {
    if of == {} {
      s := [];
    } else {
      var k :| k in of;
      var rest := DistinctElements(of - {k});
      s := rest + [k];
      assert s[|rest|] == k && forall j :: j in s <==> j in rest || j == k;
    }
  }

  ghost function Listing(of: set<string>): (s: seq<string>)
    ensures IsListing(StringLess, s, of)
  {
    ListingExists(of);
    var s :| IsListing(StringLess, s, of);
    s
  }

  lemma ListingExists(of: set<string>)
    ensures exists s :: IsListing(StringLess, s, of)
  {
    var s := DistinctElements(of);
    StringOrder();
    SortedIsListing(StringLess, s, of);
  }
}
