// The daily aggregate of a window of clicks: accumulateDailyStats in
// internal/repository/click_event.go, and what its result means.
module DailyStats {
  import opened Util
  import opened Clicks

  datatype Stats = Stats(total: nat, unique: nat, referrers: map<string, nat>, countries: map<string, nat>)

  // ---- the referrer domain ----

  predicate SchemeAt(url: string, i: nat) {
    i + 3 <= |url| && url[i..i + 3] == "://"
  }

  // Where the host starts: behind the first "://" at or after i, else 0.
  function HostStart(url: string, i: nat): (start: nat)
    requires i <= |url|
    ensures start <= |url|
    decreases |url| - i
  {
    if i + 3 > |url| then 0 else if SchemeAt(url, i) then i + 3 else HostStart(url, i + 1)
  }

  // Where the host ends: at the first slash at or after i, else at the end.
  function HostEnd(url: string, i: nat): (end: nat)
    requires i <= |url|
    ensures i <= end <= |url|
    decreases |url| - i
  {
    if i == |url| || url[i] == '/' then i else HostEnd(url, i + 1)
  }

  function Domain(url: string): string {
    if |url| < 10 then "(unknown)"
    else
      var start := HostStart(url, 0);
      var end := HostEnd(url, start);
      if start >= end then "(unknown)" else url[start..end]
  }

  method ExtractDomain(url: string) returns (domain: string)
    ensures domain == Domain(url)
  {
    if |url| < 10 {
      return "(unknown)";
    }
    var start := 0;
    var i := 0;
    while i < |url| - 2
      invariant 0 <= i <= |url| - 2 && start == 0
      invariant HostStart(url, 0) == HostStart(url, i)
    {
      if url[i..i + 3] == "://" {
        start := i + 3;
        break;
      }
      i := i + 1;
    }
    var end := |url|;
    i := start;
    while i < |url|
      invariant start <= i <= |url| && end == |url|
      invariant HostEnd(url, start) == HostEnd(url, i)
    {
      if url[i] == '/' {
        end := i;
        break;
      }
      i := i + 1;
    }
    if start >= end {
      return "(unknown)";
    }
    return url[start..end];
  }

  // ---- the aggregate, by what it counts ----

  function ReferrerLabel(c: Click): string {
    if c.referrer != "" then Domain(c.referrer) else "(direct)"
  }

  function ReferrerLabels(c: Click): seq<string> {
    [ReferrerLabel(c)]
  }

  function CountryLabels(c: Click): seq<string> {
    if c.countryCode != "" then [c.countryCode] else []
  }

  function Visitors(clicks: seq<Click>): set<string> {
    if clicks == [] then {}
    else
      var seen, hash := Visitors(clicks[..|clicks| - 1]), clicks[|clicks| - 1].visitorHash;
      if hash != "" then seen + {hash} else seen
  }

  // The visitors are the non-empty hashes that occur.
  lemma {:induction false} VisitorsMeaning(clicks: seq<Click>, hash: string)
    ensures hash in Visitors(clicks) <==> hash != "" && exists c :: c in clicks && c.visitorHash == hash
  {
    if clicks != [] {
      var init, last := clicks[..|clicks| - 1], clicks[|clicks| - 1];
      VisitorsMeaning(init, hash);
      assert clicks == init + [last];
    }
  }

  function Bump(m: map<string, nat>, name: string): map<string, nat> {
    m[name := (if name in m then m[name] else 0) + 1]
  }

  function Counts(labels: seq<string>): map<string, nat> {
    if labels == [] then map[] else Bump(Counts(labels[..|labels| - 1]), labels[|labels| - 1])
  }

  // Each label is mapped to the number of times it occurs, and no other label is.
  lemma {:induction false} CountsMeaning(labels: seq<string>, name: string)
    ensures name in Counts(labels) <==> name in labels
    ensures name in labels ==> Counts(labels)[name] == multiset(labels)[name]
  {
    if labels != [] {
      var init, last := labels[..|labels| - 1], labels[|labels| - 1];
      CountsMeaning(init, name);
      assert labels == init + [last];
    }
  }

  function ReferrerCounts(clicks: seq<Click>): map<string, nat> {
    if clicks == [] then map[]
    else Bump(ReferrerCounts(clicks[..|clicks| - 1]), ReferrerLabel(clicks[|clicks| - 1]))
  }

  function CountryCounts(clicks: seq<Click>): map<string, nat> {
    if clicks == [] then map[]
    else
      var counts, country := CountryCounts(clicks[..|clicks| - 1]), clicks[|clicks| - 1].countryCode;
      if country != "" then Bump(counts, country) else counts
  }

  function Aggregate(clicks: seq<Click>): Stats {
    Stats(|clicks|, |Visitors(clicks)|, ReferrerCounts(clicks), CountryCounts(clicks))
  }

  // What the stats row of a bucket should say, given the rows of click_events.
  function DayStats(clicks: seq<Click>, key: DayKey): Stats {
    Aggregate(Window(clicks, key))
  }

  // ---- the loop ----

  lemma CountsAppend(labels: seq<string>, name: string)
    ensures Counts(labels + [name]) == Bump(Counts(labels), name)
  {
    assert (labels + [name])[..|labels|] == labels;
  }

  // The label a click is counted under.
  method ReferrerDomain(event: Click) returns (domain: string)
    ensures domain == ReferrerLabel(event)
  {
    if event.referrer != "" {
      domain := ExtractDomain(event.referrer);
    } else {
      domain := "(direct)";
    }
  }

  datatype Accumulator = Accumulator(stats: Stats, visitorSeen: set<string>)

  // The accumulator after the given clicks.
  ghost predicate Accumulated(acc: Accumulator, clicks: seq<Click>) {
    acc.stats == Aggregate(clicks) && acc.visitorSeen == Visitors(clicks)
  }

  // accumulateDailyStats, over the rows in whatever order the query returns them.
  method AccumulateDailyStats(rows: seq<Click>) returns (stats: Stats)
    ensures stats == Aggregate(rows)
  {
    var acc := Accumulator(Stats(0, 0, map[], map[]), {});
    for i := 0 to |rows|
      invariant Accumulated(acc, rows[..i])
    {
      acc := AddClick(acc, rows[i], rows[..i]);
      assert rows[..i + 1] == rows[..i] + [rows[i]];
    }
    assert rows[..|rows|] == rows;
    stats := acc.stats;
  }

  // One turn of the loop.
  method AddClick(before: Accumulator, event: Click, ghost clicks: seq<Click>) returns (acc: Accumulator)
    requires Accumulated(before, clicks)
    ensures Accumulated(acc, clicks + [event])
  {
    var Accumulator(Stats(total, unique, referrers, countries), visitorSeen) := before;
    total := total + 1;
    if event.visitorHash != "" && event.visitorHash !in visitorSeen {
      visitorSeen := visitorSeen + {event.visitorHash};
      unique := unique + 1;
    }
    var domain := ReferrerDomain(event);
    referrers := Bump(referrers, domain);
    if event.countryCode != "" {
      countries := Bump(countries, event.countryCode);
    }
    assert (clicks + [event])[..|clicks|] == clicks;
    acc := Accumulator(Stats(total, unique, referrers, countries), visitorSeen);
  }

  lemma CountsOfLabels(clicks: seq<Click>)
    ensures ReferrerCounts(clicks) == Counts(FlatMap(clicks, ReferrerLabels))
    ensures CountryCounts(clicks) == Counts(FlatMap(clicks, CountryLabels))
  {
    if clicks != [] {
      var init, last := clicks[..|clicks| - 1], clicks[|clicks| - 1];
      CountsOfLabels(init);
      CountsAppend(FlatMap(init, ReferrerLabels), ReferrerLabel(last));
      if last.countryCode != "" {
        CountsAppend(FlatMap(init, CountryLabels), last.countryCode);
      } else {
        assert FlatMap(init, CountryLabels) + [] == FlatMap(init, CountryLabels);
      }
    }
  }

  // ---- conservation ----

  lemma {:induction false} SumOfCounts(labels: seq<string>)
    ensures SumValues(Counts(labels)) == |labels|
  {
    if labels != [] {
      var init, last := labels[..|labels| - 1], labels[|labels| - 1];
      SumOfCounts(init);
      SumValuesAdd(Counts(init), last, 1);
    }
  }

  function WithCountry(clicks: seq<Click>): nat {
    if clicks == [] then 0
    else WithCountry(clicks[..|clicks| - 1]) + if clicks[|clicks| - 1].countryCode != "" then 1 else 0
  }

  lemma {:induction false} LabelSizes(clicks: seq<Click>)
    ensures |FlatMap(clicks, ReferrerLabels)| == |clicks|
    ensures |FlatMap(clicks, CountryLabels)| == WithCountry(clicks)
  {
    if clicks != [] {
      LabelSizes(clicks[..|clicks| - 1]);
    }
  }

  lemma {:induction false} VisitorsBound(clicks: seq<Click>)
    ensures |Visitors(clicks)| <= |clicks|
  {
    if clicks != [] {
      VisitorsBound(clicks[..|clicks| - 1]);
    }
  }

  // Every click is counted once under a referrer label, once under its country if it has one,
  // and visitors are never more than clicks.
  lemma ClicksConserved(clicks: seq<Click>)
    ensures var s := Aggregate(clicks);
            && s.total == SumValues(s.referrers) == |clicks|
            && SumValues(s.countries) == WithCountry(clicks)
            && s.unique <= s.total
  {
    LabelSizes(clicks);
    CountsOfLabels(clicks);
    SumOfCounts(FlatMap(clicks, ReferrerLabels));
    SumOfCounts(FlatMap(clicks, CountryLabels));
    VisitorsBound(clicks);
  }

  // ---- row order does not matter ----

  lemma CountsPermutation(a: seq<string>, b: seq<string>)
    requires multiset(a) == multiset(b)
    ensures Counts(a) == Counts(b)
  {
    forall l ensures l in Counts(a) <==> l in Counts(b)
             ensures l in Counts(a) ==> Counts(a)[l] == Counts(b)[l]
    {
      CountsMeaning(a, l);
      CountsMeaning(b, l);
      assert l in a <==> l in multiset(a);
      assert l in b <==> l in multiset(b);
    }
  }

  // The aggregate is a function of the set of rows, not of the order they are read in.
  lemma AggregatePermutation(a: seq<Click>, b: seq<Click>)
    requires multiset(a) == multiset(b)
    ensures Aggregate(a) == Aggregate(b)
  {
    hide Counts, Visitors, ReferrerCounts, CountryCounts, FlatMap;
    CountsOfLabels(a);
    CountsOfLabels(b);
    FlatMapPermutation(a, b, ReferrerLabels);
    FlatMapPermutation(a, b, CountryLabels);
    CountsPermutation(FlatMap(a, ReferrerLabels), FlatMap(b, ReferrerLabels));
    CountsPermutation(FlatMap(a, CountryLabels), FlatMap(b, CountryLabels));
    assert |a| == |multiset(a)| == |multiset(b)| == |b|;
    forall c ensures c in a <==> c in b {
      assert c in a <==> c in multiset(a);
      assert c in b <==> c in multiset(b);
    }
    forall h ensures h in Visitors(a) <==> h in Visitors(b) {
      VisitorsMeaning(a, h);
      VisitorsMeaning(b, h);
    }
    assert Visitors(a) == Visitors(b);
  }

  // ---- growth ----

  ghost predicate CountsBelow(a: map<string, nat>, b: map<string, nat>) {
    forall l :: l in a ==> l in b && a[l] <= b[l]
  }

  // s never over-counts t, in any figure.
  ghost predicate Below(s: Stats, t: Stats) {
    && s.total <= t.total
    && s.unique <= t.unique
    && CountsBelow(s.referrers, t.referrers)
    && CountsBelow(s.countries, t.countries)
  }

  lemma CountsGrow(a: seq<string>, added: seq<string>)
    ensures CountsBelow(Counts(a), Counts(a + added))
  {
    assert multiset(a + added) == multiset(a) + multiset(added);
    forall l | l in Counts(a) ensures l in Counts(a + added) && Counts(a)[l] <= Counts(a + added)[l] {
      CountsMeaning(a, l);
      CountsMeaning(a + added, l);
    }
  }

  lemma AggregateGrows(a: seq<Click>, b: seq<Click>)
    requires a <= b
    ensures Below(Aggregate(a), Aggregate(b))
  {
    var added := b[|a|..];
    assert b == a + added;
    CountsOfLabels(a);
    CountsOfLabels(b);
    FlatMapConcat(a, added, ReferrerLabels);
    FlatMapConcat(a, added, CountryLabels);
    CountsGrow(FlatMap(a, ReferrerLabels), FlatMap(added, ReferrerLabels));
    CountsGrow(FlatMap(a, CountryLabels), FlatMap(added, CountryLabels));
    forall h | h in Visitors(a) ensures h in Visitors(b) {
      VisitorsMeaning(a, h);
      VisitorsMeaning(b, h);
    }
    SubsetSize(Visitors(a), Visitors(b));
  }

  lemma WindowEmptyIff(clicks: seq<Click>, key: DayKey)
    ensures Window(clicks, key) == [] <==> forall c :: c in clicks ==> KeyOf(c) != key
  {
    if Window(clicks, key) == [] {
      forall c | c in clicks ensures KeyOf(c) != key {
        WindowMembers(clicks, key, c);
      }
    } else {
      WindowMembers(clicks, key, Window(clicks, key)[0]);
    }
  }

  // A row computed from an earlier snapshot is exact if and only if no click has landed
  // in its window since: two aggregates of one growing window agree just when it has not grown.
  lemma SnapshotExactIff(earlier: seq<Click>, later: seq<Click>, key: DayKey)
    requires earlier <= later
    ensures DayStats(earlier, key) == DayStats(later, key)
       <==> forall c :: c in later[|earlier|..] ==> KeyOf(c) != key
  {
    var added := later[|earlier|..];
    assert later == earlier + added;
    WindowConcat(earlier, added, key);
    WindowEmptyIff(added, key);
    var before, after := Window(earlier, key), Window(later, key);
    if Window(added, key) == [] {
      assert after == before;
    } else {
      assert Aggregate(after).total == |after| > |before| == Aggregate(before).total;
    }
  }

  // ---- windows partition time ----

  // The clicks of one link in the days [from, to).
  function InDays(table: seq<Click>, linkId: string, from: int, to: int): nat {
    if table == [] then 0
    else
      var key := KeyOf(table[|table| - 1]);
      InDays(table[..|table| - 1], linkId, from, to) + if key.linkId == linkId && from <= key.day < to then 1 else 0
  }

  // The sum of a link's exact daily totals over the days [from, to).
  function SumOfDays(table: seq<Click>, linkId: string, from: int, to: int): nat
    decreases if from < to then to - from else 0
  {
    if from >= to then 0
    else DayStats(table, DayKey(linkId, to - 1)).total + SumOfDays(table, linkId, from, to - 1)
  }

  lemma {:induction false} DaysPartition(table: seq<Click>, linkId: string, from: int, to: int)
    ensures SumOfDays(table, linkId, from, to) == InDays(table, linkId, from, to)
    decreases if from < to then to - from else 0
  {
    if from >= to {
      NoDays(table, linkId, from, to);
    } else {
      DaysPartition(table, linkId, from, to - 1);
      SplitDay(table, linkId, from, to);
    }
  }

  lemma {:induction false} NoDays(table: seq<Click>, linkId: string, from: int, to: int)
    requires from >= to
    ensures InDays(table, linkId, from, to) == 0
  {
    if table != [] {
      NoDays(table[..|table| - 1], linkId, from, to);
    }
  }

  lemma {:induction false} SplitDay(table: seq<Click>, linkId: string, from: int, to: int)
    requires from < to
    ensures InDays(table, linkId, from, to)
         == InDays(table, linkId, from, to - 1) + |Window(table, DayKey(linkId, to - 1))|
  {
    if table != [] {
      SplitDay(table[..|table| - 1], linkId, from, to);
    }
  }
}
