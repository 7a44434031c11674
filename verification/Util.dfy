// Small facts about finite collections that several components need.
module Util {

  datatype Option<+T> = None | Some(value: T)

  // What PostgreSQL accepts as text.
  predicate NoNul(text: string) {
    forall i :: 0 <= i < |text| ==> text[i] != '\0'
  }

  lemma SubsetSize<T>(a: set<T>, b: set<T>)
    requires a <= b
    ensures |a| <= |b|
  {
    assert b == a + (b - a);
  }

  ghost predicate Distinct<T>(s: seq<T>) {
    forall i, j :: 0 <= i < j < |s| ==> s[i] != s[j]
  }

  lemma {:induction false} DistinctMultiplicity<T>(s: seq<T>, x: T)
    requires Distinct(s)
    ensures multiset(s)[x] == if x in s then 1 else 0
  {
    if s != [] {
      var init, last := s[..|s| - 1], s[|s| - 1];
      DistinctMultiplicity(init, x);
      assert s == init + [last];
    }
  }

  // Two duplicate-free sequences with the same elements are permutations of one another.
  lemma SameElementsPermutation<T>(a: seq<T>, b: seq<T>)
    requires Distinct(a) && Distinct(b)
    requires forall x :: x in a <==> x in b
    ensures multiset(a) == multiset(b)
  {
    forall x ensures multiset(a)[x] == multiset(b)[x] {
      DistinctMultiplicity(a, x);
      DistinctMultiplicity(b, x);
    }
  }

  // The lists f yields for the elements of s, one after the other.
  function FlatMap<T, U>(s: seq<T>, f: T -> seq<U>): seq<U> {
    if s == [] then [] else FlatMap(s[..|s| - 1], f) + f(s[|s| - 1])
  }

  lemma {:induction false} FlatMapConcat<T, U>(a: seq<T>, b: seq<T>, f: T -> seq<U>)
    ensures FlatMap(a + b, f) == FlatMap(a, f) + FlatMap(b, f)
  {
    if b == [] {
      assert a + b == a;
    } else {
      var n := |b| - 1;
      FlatMapConcat(a, b[..n], f);
      assert (a + b)[..|a + b| - 1] == a + b[..n];
    }
  }

  lemma FlatMapSingle<T, U>(x: T, f: T -> seq<U>)
    ensures FlatMap([x], f) == f(x)
  {
    assert [x][..0] == [];
  }

  lemma {:induction false} FlatMapPermutation<T, U>(a: seq<T>, b: seq<T>, f: T -> seq<U>)
    requires multiset(a) == multiset(b)
    ensures multiset(FlatMap(a, f)) == multiset(FlatMap(b, f))
    decreases |a|
  {
    assert |a| == |multiset(a)| == |multiset(b)| == |b|;
    if a != [] {
      var init, last := a[..|a| - 1], a[|a| - 1];
      assert a == init + [last];
      var before, after := Extract(b, last);
      assert multiset(init) == multiset(a) - multiset{last};
      FlatMapPermutation(init, before + after, f);
      FlatMapConcat(before, after, f);
      FlatMapConcat(before + [last], after, f);
      FlatMapConcat(before, [last], f);
      FlatMapSingle(last, f);
    }
  }

  lemma Extract<T>(s: seq<T>, x: T) returns (before: seq<T>, after: seq<T>)
    requires x in multiset(s)
    ensures s == before + [x] + after
    ensures multiset(before + after) == multiset(s) - multiset{x}
  {
    var j :| 0 <= j < |s| && s[j] == x;
    before, after := s[..j], s[j + 1..];
    assert s == before + [x] + after;
  }

  // The sum of the values of a map.
  ghost function SumValues<K>(m: map<K, nat>): nat {
    if m == map[] then 0
    else
      var k :| k in m;
      m[k] + SumValues(m - {k})
  }

  lemma {:induction false} SumValuesTake<K>(m: map<K, nat>, k: K)
    requires k in m
    ensures SumValues(m) == m[k] + SumValues(m - {k})
    decreases |m|
  {
    var j :| j in m && SumValues(m) == m[j] + SumValues(m - {j});
    if j != k {
      SumValuesTake(m - {j}, k);
      SumValuesTake(m - {k}, j);
      assert m - {j} - {k} == m - {k} - {j};
    }
  }

  // Adding n to one entry, or starting it at n, adds n to the sum.
  lemma SumValuesAdd<K>(m: map<K, nat>, k: K, n: nat)
    ensures SumValues(m[k := (if k in m then m[k] else 0) + n]) == SumValues(m) + n
  {
    var m' := m[k := (if k in m then m[k] else 0) + n];
    SumValuesTake(m', k);
    assert m' - {k} == m - {k};
    if k in m {
      SumValuesTake(m, k);
    } else {
      assert m - {k} == m;
    }
  }
}
