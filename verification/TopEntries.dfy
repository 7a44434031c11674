// The sorted breakdowns of the analytics handler: exchange sort in place, then a cut
// (internal/handler/analytics.go).
module TopEntries {
  import opened Util

  datatype Entry = Entry(name: string, clicks: nat)

  ghost predicate Descending(s: seq<Entry>) {
    forall i, j :: 0 <= i < j < |s| ==> s[i].clicks >= s[j].clicks
  }

  // Each of the first n entries has at least as many clicks as all that follow it.
  ghost predicate Front(s: seq<Entry>, n: nat) {
    forall k, l :: 0 <= k < l < |s| && k < n ==> s[k].clicks >= s[l].clicks
  }

  function Swapped(s: seq<Entry>, i: nat, j: nat): seq<Entry>
    requires i < j < |s|
  {
    s[i := s[j]][j := s[i]]
  }

  // Among i..j, entry i has the most clicks.
  ghost predicate LargestUpTo(s: seq<Entry>, i: nat, j: nat) {
    i < |s| && forall k :: i < k < j && k < |s| ==> s[i].clicks >= s[k].clicks
  }

  lemma SwapSelects(s: seq<Entry>, i: nat, j: nat)
    requires i < j < |s| && Front(s, i) && LargestUpTo(s, i, j) && s[j].clicks > s[i].clicks
    ensures var t := Swapped(s, i, j);
            Front(t, i) && LargestUpTo(t, i, j + 1) && multiset(t) == multiset(s)
  {
  }

  method ExchangeSort(a: array<Entry>)
    modifies a
    ensures Descending(a[..])
    ensures multiset(a[..]) == multiset(old(a[..]))
  {
    for i := 0 to a.Length
      invariant Front(a[..], i)
      invariant multiset(a[..]) == multiset(old(a[..]))
    {
      for j := i + 1 to a.Length
        invariant Front(a[..], i) && LargestUpTo(a[..], i, j)
        invariant multiset(a[..]) == multiset(old(a[..]))
      {
        if a[j].clicks > a[i].clicks {
          ghost var s := a[..];
          SwapSelects(s, i, j);
          a[i], a[j] := a[j], a[i];
          assert a[..] == Swapped(s, i, j);
        }
      }
    }
  }

  // The entries of a map, each once, in some order.
  ghost predicate Lists(s: seq<Entry>, m: map<string, nat>) {
    && |s| == |m|
    && Distinct(s)
    && forall e :: e in s <==> e.name in m && m[e.name] == e.clicks
  }

  lemma DistinctPermutation(a: seq<Entry>, b: seq<Entry>)
    requires Distinct(a) && multiset(a) == multiset(b)
    ensures Distinct(b)
  {
    forall i, j | 0 <= i < j < |b| ensures b[i] != b[j] {
      DistinctMultiplicity(a, b[i]);
      assert b == b[..j] + b[j..];
      assert b[i] in b[..j] && b[j] in b[j..];
    }
  }

  lemma PermutationLists(a: seq<Entry>, b: seq<Entry>, m: map<string, nat>)
    requires Lists(a, m) && multiset(a) == multiset(b)
    ensures Lists(b, m)
  {
    DistinctPermutation(a, b);
    assert |a| == |multiset(a)| == |multiset(b)| == |b|;
    forall e ensures e in b <==> e in a {
      assert e in b <==> e in multiset(b);
      assert e in a <==> e in multiset(a);
    }
  }

  // The k largest entries of a map, largest first; only ties leave a choice.
  ghost predicate IsTop(kept: seq<Entry>, m: map<string, nat>, limit: nat) {
    && |kept| == (if |m| < limit then |m| else limit)
    && Distinct(kept) && Descending(kept)
    && (forall e :: e in kept ==> e.name in m && m[e.name] == e.clicks)
    && (forall e, name :: e in kept && name in m && Entry(name, m[name]) !in kept ==> m[name] <= e.clicks)
  }

  lemma CutIsTop(s: seq<Entry>, m: map<string, nat>, limit: nat)
    requires Lists(s, m) && Descending(s)
    ensures IsTop(if |s| > limit then s[..limit] else s, m, limit)
  {
    if |s| > limit {
      PrefixIsTop(s, m, limit);
    }
  }

  lemma DroppedAtMost(s: seq<Entry>, limit: nat, e: Entry, d: Entry)
    requires Descending(s) && |s| > limit && e in s[..limit] && d in s[limit..]
    ensures d.clicks <= e.clicks
  {
    var i :| 0 <= i < limit && s[i] == e;
    var j :| 0 <= j < |s[limit..]| && s[limit..][j] == d;
    assert s[limit + j] == d;
  }

  lemma PrefixOrdered(s: seq<Entry>, limit: nat)
    requires Distinct(s) && Descending(s) && |s| > limit
    ensures Distinct(s[..limit]) && Descending(s[..limit])
    ensures forall e :: e in s <==> e in s[..limit] || e in s[limit..]
  {
    assert s == s[..limit] + s[limit..];
  }

  lemma PrefixIsTop(s: seq<Entry>, m: map<string, nat>, limit: nat)
    requires Lists(s, m) && Descending(s) && |s| > limit
    ensures IsTop(s[..limit], m, limit)
  {
    PrefixOrdered(s, limit);
    var kept := s[..limit];
    forall e, name | e in kept && name in m && Entry(name, m[name]) !in kept ensures m[name] <= e.clicks {
      assert Entry(name, m[name]) in s;
      DroppedAtMost(s, limit, e, Entry(name, m[name]));
    }
    hide Distinct, Descending;
  }

  method SortedBreakdown(m: map<string, nat>, limit: nat) returns (kept: seq<Entry>)
    ensures IsTop(kept, m, limit)
  {
    var result: seq<Entry> := [];
    var left := m;
    while left != map[]
      invariant left.Keys <= m.Keys && forall k :: k in left ==> left[k] == m[k]
      invariant |result| + |left| == |m| && Distinct(result)
      invariant forall e :: e in result <==> e.name in m && e.name !in left && m[e.name] == e.clicks
      decreases |left|
    {
      var name :| name in left;
      result := result + [Entry(name, left[name])];
      left := left - {name};
    }
    var a := new Entry[|result|](i requires 0 <= i < |result| => result[i]);
    assert a[..] == result;
    ExchangeSort(a);
    PermutationLists(result, a[..], m);
    CutIsTop(a[..], m, limit);
    kept := if a.Length > limit then a[..limit] else a[..];
  }

  function SumClicks(s: seq<Entry>): nat {
    if s == [] then 0 else SumClicks(s[..|s| - 1]) + s[|s| - 1].clicks
  }

  lemma {:induction false} KeptAtMost(kept: seq<Entry>, m: map<string, nat>)
    requires Distinct(kept) && forall e :: e in kept ==> e.name in m && m[e.name] == e.clicks
    ensures SumClicks(kept) <= SumValues(m) && |kept| <= |m|
    ensures |kept| == |m| ==> SumClicks(kept) == SumValues(m)
    ensures |kept| < |m| && (forall k :: k in m ==> m[k] > 0) ==> SumClicks(kept) < SumValues(m)
    decreases |kept|
  {
    if kept == [] {
      if m != map[] {
        var k :| k in m;
        SumValuesTake(m, k);
      }
    } else {
      var init, last := kept[..|kept| - 1], kept[|kept| - 1];
      SumValuesTake(m, last.name);
      forall e | e in init ensures e.name in m - {last.name} {
        assert last in kept;
        assert e in kept;
        assert e.name == last.name ==> e == last;
      }
      KeptAtMost(init, m - {last.name});
    }
  }

  // With positive counts, the listed entries account for all clicks exactly when nothing was cut off.
  lemma ListedClicks(kept: seq<Entry>, m: map<string, nat>, limit: nat)
    requires IsTop(kept, m, limit) && forall k :: k in m ==> m[k] > 0
    ensures SumClicks(kept) <= SumValues(m)
    ensures SumClicks(kept) == SumValues(m) <==> |m| <= limit
  {
    KeptAtMost(kept, m);
  }
}
