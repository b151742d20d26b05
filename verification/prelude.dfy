/** Shared data types and the counting facts the other modules rest on. */
module Prelude {

  newtype byte = x: int | 0 <= x < 0x100

  datatype Option<+T> = None | Some(value: T)

  /** The entry at k, or a default when there is none: Go's map index expression. */
  function GetOr<K, V>(m: map<K, V>, k: K, default: V): V {
    if k in m then m[k] else default
  }

  /** Sum of all values of a map. */
  ghost function Sum<K>(m: map<K, nat>): nat
    decreases |m|
  {
    if m == map[] then 0
    else
      var k :| k in m;
      m[k] + Sum(m - {k})
  }

  /** The sum does not depend on the order in which keys are taken out. */
  lemma {:induction false} SumSplit<K>(m: map<K, nat>, k: K)
    requires k in m
    ensures Sum(m) == m[k] + Sum(m - {k})
    decreases |m|
  {
    var j :| j in m && Sum(m) == m[j] + Sum(m - {j});
    if j != k {
      SumSplit(m - {j}, k);
      SumSplit(m - {k}, j);
      assert m - {j} - {k} == m - {k} - {j};
    }
  }

  lemma SumUpdate<K>(m: map<K, nat>, k: K, v: nat)
    ensures Sum(m[k := v]) + GetOr(m, k, 0) == Sum(m) + v
  {
    var n := m[k := v];
    SumSplit(n, k);
    if k in m {
      SumSplit(m, k);
      assert n - {k} == m - {k};
    } else {
      assert n - {k} == m;
    }
  }

  lemma SumRemove<K>(m: map<K, nat>, k: K)
    ensures Sum(m - {k}) + GetOr(m, k, 0) == Sum(m)
  {
    if k in m {
      SumSplit(m, k);
    } else {
      assert m - {k} == m;
    }
  }

  lemma {:induction false} SumZero<K>(m: map<K, nat>)
    ensures Sum(m) == 0 <==> forall k :: k in m ==> m[k] == 0
    decreases |m|
  {
    if m != map[] {
      var k :| k in m && Sum(m) == m[k] + Sum(m - {k});
      SumZero(m - {k});
      assert forall j :: j in m <==> j == k || j in m - {k};
    }
  }

  /** A single entry never exceeds the sum. */
  lemma SumBounds<K>(m: map<K, nat>, k: K)
    requires k in m
    ensures m[k] <= Sum(m)
  {
    SumSplit(m, k);
  }

  /** How often x occurs in s. */
  function Occurs<T(==)>(s: seq<T>, x: T): nat {
    if s == [] then 0
    else Occurs(s[..|s| - 1], x) + if s[|s| - 1] == x then 1 else 0
  }

  lemma {:induction false} OccursAppend<T>(a: seq<T>, b: seq<T>, x: T)
    ensures Occurs(a + b, x) == Occurs(a, x) + Occurs(b, x)
    decreases |b|
  {
    if b == [] {
      assert a + b == a;
    } else {
      OccursAppend(a, b[..|b| - 1], x);
      assert (a + b)[..|a + b| - 1] == a + b[..|b| - 1];
    }
  }

  lemma OccursFirst<T>(s: seq<T>, x: T)
    requires s != []
    ensures Occurs(s, x) == Occurs(s[1..], x) + if s[0] == x then 1 else 0
  {
    OccursAppend([s[0]], s[1..], x);
    assert [s[0]] + s[1..] == s;
    assert Occurs([s[0]], x) == Occurs([], x) + if s[0] == x then 1 else 0;
  }

  lemma OccursPrefix<T>(s: seq<T>, n: nat, x: T)
    requires n < |s|
    ensures Occurs(s[..n + 1], x) == Occurs(s[..n], x) + if s[n] == x then 1 else 0
  {
    assert s[..n + 1][..n] == s[..n];
  }

  lemma {:induction false} OccursMember<T>(s: seq<T>, x: T)
    ensures Occurs(s, x) > 0 <==> x in s
  {
    if s != [] {
      OccursMember(s[..|s| - 1], x);
      assert s == s[..|s| - 1] + [s[|s| - 1]];
    }
  }

  /** Adds up the values of a map, one entry at a time. */
  method AddUp<K>(m: map<K, nat>) returns (total: nat)
    ensures total == Sum(m)
  {
    total := 0;
    var left := m;
    while left.Keys != {}
      invariant total + Sum(left) == Sum(m)
      decreases |left|
    {
      var d :| d in left;
      SumRemove(left, d);
      total := total + left[d];
      left := left - {d};
    }
    assert left == map[];
  }

  ghost function Image<A, B>(s: set<A>, f: A --> B): set<B>
    requires forall x :: x in s ==> f.requires(x)
  {
    set x | x in s :: f(x)
  }

  /** An injective function keeps the size of a set. */
  lemma {:induction false} ImageSize<A, B>(s: set<A>, f: A --> B)
    requires forall x :: x in s ==> f.requires(x)
    requires forall x, y :: x in s && y in s && f(x) == f(y) ==> x == y
    ensures |Image(s, f)| == |s|
  {
    if s != {} {
      var a :| a in s;
      ImageSize(s - {a}, f);
      assert Image(s, f) == Image(s - {a}, f) + {f(a)};
    }
  }
}
