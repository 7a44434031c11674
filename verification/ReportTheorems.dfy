// The analytics report against the clicks it reports on.
module ReportTheorems {
  import opened Util
  import opened Clicks
  import opened DailyStats
  import opened TopEntries
  import opened AnalyticsReports
  import opened IngestionProtocol
  import opened IngestionTheorems

  // ---- the three totals of one report ----

  function SumTotals(rows: seq<DailyRow>): nat {
    if rows == [] then 0 else SumTotals(rows[..|rows| - 1]) + rows[|rows| - 1].stats.total
  }

  function SumUniques(rows: seq<DailyRow>): nat {
    if rows == [] then 0 else SumUniques(rows[..|rows| - 1]) + rows[|rows| - 1].stats.unique
  }

  lemma {:induction false} SumsPrepend(r: DailyRow, rows: seq<DailyRow>)
    ensures SumTotals([r] + rows) == r.stats.total + SumTotals(rows)
    ensures SumUniques([r] + rows) == r.stats.unique + SumUniques(rows)
  {
    if rows == [] {
      assert ([r] + rows)[..0] == [];
    } else {
      var init := rows[..|rows| - 1];
      SumsPrepend(r, init);
      assert ([r] + rows)[..|rows|] == [r] + init;
    }
  }

  lemma OneMoreDay(table: StatsTable, linkId: string, from: int, to: int)
    requires from <= to
    ensures var rows, rest := DailyRows(table, linkId, from, to), DailyRows(table, linkId, from, to - 1);
            var key := DayKey(linkId, to);
            var s := if key in table then table[key] else Stats(0, 0, map[], map[]);
            SumTotals(rows) == SumTotals(rest) + s.total && SumUniques(rows) == SumUniques(rest) + s.unique
  {
    hide SumTotals, SumUniques;
    var rest := DailyRows(table, linkId, from, to - 1);
    var key := DayKey(linkId, to);
    if key in table {
      SumsPrepend(DailyRow(to, table[key]), rest);
    } else {
      assert [] + rest == rest;
    }
  }

  // The daily rows of a report: those of the link in the range, latest first, each once.
  lemma {:induction false} DailyRowsAre(table: StatsTable, linkId: string, from: int, to: int)
    ensures var rows := DailyRows(table, linkId, from, to);
            && (forall r :: r in rows ==>
                  from <= r.day <= to && DayKey(linkId, r.day) in table && r.stats == table[DayKey(linkId, r.day)])
            && (forall i, j :: 0 <= i < j < |rows| ==> rows[i].day > rows[j].day)
    decreases if from <= to then to - from + 1 else 0
  {
    if from <= to {
      DailyRowsAre(table, linkId, from, to - 1);
      LastDayFirst(table, linkId, from, to);
      hide DailyRows;
      var rows, rest := DailyRows(table, linkId, from, to), DailyRows(table, linkId, from, to - 1);
      if DayKey(linkId, to) in table {
        assert forall j :: 0 < j < |rows| ==> rows[j] in rest;
      }
    }
  }

  lemma LastDayFirst(table: StatsTable, linkId: string, from: int, to: int)
    requires from <= to
    ensures var rows, rest := DailyRows(table, linkId, from, to), DailyRows(table, linkId, from, to - 1);
            var key := DayKey(linkId, to);
            if key in table then rows == [DailyRow(to, table[key])] + rest else rows == rest
  {
  }

  lemma {:induction false} NoDailyRowMissing(table: StatsTable, linkId: string, from: int, to: int, day: int)
    requires from <= day <= to && DayKey(linkId, day) in table
    ensures exists r :: r in DailyRows(table, linkId, from, to) && r.day == day
    decreases -day + to
  {
    LastDayFirst(table, linkId, from, to);
    if day == to {
      assert DailyRows(table, linkId, from, to)[0].day == day;
    } else {
      NoDailyRowMissing(table, linkId, from, to - 1, day);
    }
  }

  // The summary's total is the sum of the daily rows.
  lemma {:induction false} SummaryIsSumOfDays(table: StatsTable, linkId: string, from: int, to: int)
    ensures SumValues(Totals(InRange(table, linkId, from, to))) == SumTotals(DailyRows(table, linkId, from, to))
    ensures SumValues(Uniques(InRange(table, linkId, from, to))) == SumUniques(DailyRows(table, linkId, from, to))
    decreases if from <= to then to - from + 1 else 0
  {
    hide InRange, Totals, Uniques, SumValues;
    if from > to {
      NoRows(table, linkId, from, to);
    } else {
      hide DailyRows, SumTotals, SumUniques;
      SummaryIsSumOfDays(table, linkId, from, to - 1);
      NextDay(table, linkId, from, to);
      OneMoreDay(table, linkId, from, to);
    }
  }

  // ---- rows that are aggregates of some clicks ----

  // Row by row, the clicks the figures were taken from.
  ghost predicate Explains(parts: seq<seq<Click>>, rows: seq<DailyRow>) {
    |parts| == |rows| && forall i :: 0 <= i < |rows| ==> rows[i].stats == Aggregate(parts[i])
  }

  function Concat(parts: seq<seq<Click>>): seq<Click> {
    if parts == [] then [] else Concat(parts[..|parts| - 1]) + parts[|parts| - 1]
  }

  lemma CountsConcat(a: seq<string>, b: seq<string>)
    ensures Counts(a + b) == Added(Counts(a), Counts(b))
  {
    assert multiset(a + b) == multiset(a) + multiset(b);
    forall name ensures name in Counts(a + b) <==> name in Added(Counts(a), Counts(b))
                ensures name in Counts(a + b) ==> Counts(a + b)[name] == Added(Counts(a), Counts(b))[name]
    {
      CountsMeaning(a, name);
      CountsMeaning(b, name);
      CountsMeaning(a + b, name);
    }
  }

  lemma AggregateConcat(a: seq<Click>, b: seq<Click>)
    ensures var s, t, u := Aggregate(a), Aggregate(b), Aggregate(a + b);
            && u.total == s.total + t.total && u.unique <= s.unique + t.unique
            && u.referrers == Added(s.referrers, t.referrers) && u.countries == Added(s.countries, t.countries)
  {
    hide Counts, Added, ReferrerCounts, CountryCounts;
    CountsOfLabels(a);
    CountsOfLabels(b);
    CountsOfLabels(a + b);
    FlatMapConcat(a, b, ReferrerLabels);
    FlatMapConcat(a, b, CountryLabels);
    CountsConcat(FlatMap(a, ReferrerLabels), FlatMap(b, ReferrerLabels));
    CountsConcat(FlatMap(a, CountryLabels), FlatMap(b, CountryLabels));
    VisitorsConcat(a, b);
  }

  lemma VisitorsConcat(a: seq<Click>, b: seq<Click>)
    ensures |Visitors(a + b)| <= |Visitors(a)| + |Visitors(b)|
  {
    forall hash | hash in Visitors(a + b) ensures hash in Visitors(a) + Visitors(b) {
      VisitorsMeaning(a, hash);
      VisitorsMeaning(b, hash);
      VisitorsMeaning(a + b, hash);
    }
    SubsetSize(Visitors(a + b), Visitors(a) + Visitors(b));
    assert Visitors(a) + Visitors(b) == Visitors(a) + (Visitors(b) - Visitors(a));
    SubsetSize(Visitors(b) - Visitors(a), Visitors(b));
  }

  // Adding up daily rows gives the aggregate of all their clicks taken together, except that a
  // visitor of several days is counted on each.
  lemma {:induction false} MergedIsAggregate(parts: seq<seq<Click>>, rows: seq<DailyRow>)
    requires Explains(parts, rows)
    ensures var all := Aggregate(Concat(parts));
            && SumTotals(rows) == all.total && SumUniques(rows) >= all.unique
            && Merged(Referrers(rows)) == all.referrers && Merged(Countries(rows)) == all.countries
  {
    hide Aggregate, Added;
    if rows == [] {
      NothingCounted();
    } else {
      var n := |rows| - 1;
      assert Explains(parts[..n], rows[..n]);
      MergedIsAggregate(parts[..n], rows[..n]);
      AggregateConcat(Concat(parts[..n]), parts[n]);
      assert Referrers(rows)[..n] == Referrers(rows[..n]) by { PartsLength(rows[..n]); }
      assert Countries(rows)[..n] == Countries(rows[..n]) by { PartsLength(rows[..n]); }
      PartsLength(rows);
    }
  }

  lemma NothingCounted()
    ensures Aggregate([]) == Stats(0, 0, map[], map[])
  {
  }

  lemma {:induction false} PartsLength(rows: seq<DailyRow>)
    ensures |Referrers(rows)| == |Countries(rows)| == |rows|
  {
    if rows != [] {
      PartsLength(rows[..|rows| - 1]);
    }
  }

  lemma CountsPositive(clicks: seq<Click>)
    ensures forall name :: name in Aggregate(clicks).referrers ==> Aggregate(clicks).referrers[name] > 0
  {
    CountsOfLabels(clicks);
    forall name | name in Aggregate(clicks).referrers ensures Aggregate(clicks).referrers[name] > 0 {
      CountsMeaning(FlatMap(clicks, ReferrerLabels), name);
    }
  }

  lemma RowHasPart(run: seq<State>, key: DayKey) returns (part: seq<Click>)
    requires IsRun(run) && key in Last(run).stats
    ensures Last(run).stats[key] == Aggregate(part)
  {
    hide IsRun, Aggregate, Window;
    var i := StatsRowIsSnapshot(run, key);
    part := Window(run[i].table.clicks, key);
  }

  lemma {:induction false} RowsHaveParts(run: seq<State>, linkId: string, from: int, to: int) returns (parts: seq<seq<Click>>)
    requires IsRun(run)
    ensures Explains(parts, DailyRows(Last(run).stats, linkId, from, to))
    decreases if from <= to then to - from + 1 else 0
  {
    assert run != [];
    hide IsRun, Aggregate, Explains;
    if from > to {
      parts := [];
      assert Explains([], []) by { NothingToExplain(); }
    } else {
      parts := RowsHaveParts(run, linkId, from, to - 1);
      var rows := DailyRows(Last(run).stats, linkId, from, to - 1);
      var key := DayKey(linkId, to);
      if key in Last(run).stats {
        var part := RowHasPart(run, key);
        ExplainsPrepend(part, DailyRow(to, Last(run).stats[key]), parts, rows);
        parts := [part] + parts;
      } else {
        assert [] + rows == rows;
      }
    }
  }

  lemma NothingToExplain()
    ensures Explains([], [])
  {
  }

  // In every reachable state, exact or not, one report is consistent with itself: the summary's
  // total is the sum of the daily rows and of the merged referrers, and the referrers shown account for
  // it exactly when there are no more than ten.
  lemma ReportAddsUp(run: seq<State>, linkId: string, from: int, to: int, shown: seq<Entry>)
    requires IsRun(run)
    requires IsTop(shown, Merged(Referrers(DailyRows(Last(run).stats, linkId, from, to))), TOP_LIMIT)
    ensures var table := Last(run).stats;
            var rows := DailyRows(table, linkId, from, to);
            var total := SumValues(Totals(InRange(table, linkId, from, to)));
            && total == SumTotals(rows) == SumValues(Merged(Referrers(rows)))
            && SumValues(Merged(Countries(rows))) <= total
            && SumValues(Uniques(InRange(table, linkId, from, to))) == SumUniques(rows)
            && (SumClicks(shown) == total <==> |Merged(Referrers(rows))| <= TOP_LIMIT)
  {
    assert run != [];
    hide IsRun, InRange, Totals, Uniques, SumValues, Aggregate, Merged, Referrers, Countries, IsTop;
    var table := Last(run).stats;
    var rows := DailyRows(table, linkId, from, to);
    SummaryIsSumOfDays(table, linkId, from, to);
    var parts := RowsHaveParts(run, linkId, from, to);
    MergedIsAggregate(parts, rows);
    ClicksConserved(Concat(parts));
    WithCountryBound(Concat(parts));
    CountsPositive(Concat(parts));
    ListedClicks(shown, Merged(Referrers(rows)), TOP_LIMIT);
  }

  lemma {:induction false} WithCountryBound(clicks: seq<Click>)
    ensures WithCountry(clicks) <= |clicks|
  {
    if clicks != [] {
      WithCountryBound(clicks[..|clicks| - 1]);
    }
  }

  // ---- the clicks of a period ----

  predicate InPeriod(c: Click, linkId: string, from: int, to: int) {
    c.linkId == linkId && from <= KeyOf(c).day <= to
  }

  function Period(clicks: seq<Click>, linkId: string, from: int, to: int): seq<Click> {
    if clicks == [] then []
    else
      var last := clicks[|clicks| - 1];
      Period(clicks[..|clicks| - 1], linkId, from, to) + if InPeriod(last, linkId, from, to) then [last] else []
  }

  // The clicks of the period are those between its first and its last midnight.
  lemma PeriodIsTheDays(clicks: seq<Click>, linkId: string, from: int, to: int, c: Click)
    ensures c in Period(clicks, linkId, from, to)
       <==> c in clicks && c.linkId == linkId && from * 86_400_000 <= c.clickedAt < (to + 1) * 86_400_000
  {
    PeriodMembers(clicks, linkId, from, to, c);
  }

  lemma {:induction false} PeriodSplit(clicks: seq<Click>, linkId: string, from: int, to: int)
    requires from <= to
    ensures multiset(Period(clicks, linkId, from, to))
         == multiset(Window(clicks, DayKey(linkId, to))) + multiset(Period(clicks, linkId, from, to - 1))
  {
    if clicks != [] {
      PeriodSplit(clicks[..|clicks| - 1], linkId, from, to);
    }
  }

  lemma {:induction false} NoPeriod(clicks: seq<Click>, linkId: string, from: int, to: int)
    requires from > to
    ensures Period(clicks, linkId, from, to) == []
  {
    if clicks != [] {
      NoPeriod(clicks[..|clicks| - 1], linkId, from, to);
    }
  }

  lemma {:induction false} ConcatPrepend(part: seq<Click>, parts: seq<seq<Click>>)
    ensures Concat([part] + parts) == part + Concat(parts)
  {
    if parts == [] {
      assert ([part] + parts)[..0] == [];
    } else {
      var init := parts[..|parts| - 1];
      ConcatPrepend(part, init);
      assert ([part] + parts)[..|parts|] == [part] + init;
    }
  }

  ghost predicate AllExact(s: State, linkId: string) {
    forall day :: Exact(s, DayKey(linkId, day))
  }

  // When the rows of a link are exact, they were taken from exactly the clicks of the period.
  lemma {:induction false} ExactParts(s: State, linkId: string, from: int, to: int) returns (parts: seq<seq<Click>>)
    requires AllExact(s, linkId)
    ensures Explains(parts, DailyRows(s.stats, linkId, from, to))
    ensures multiset(Concat(parts)) == multiset(Period(s.table.clicks, linkId, from, to))
    decreases if from <= to then to - from + 1 else 0
  {
    hide Aggregate, Window, Period, Concat, Exact;
    if from > to {
      NoPeriod(s.table.clicks, linkId, from, to);
      EmptyConcat();
      parts := [];
    } else {
      var rest := ExactParts(s, linkId, from, to - 1);
      PeriodSplit(s.table.clicks, linkId, from, to);
      var key := DayKey(linkId, to);
      assert Exact(s, key);
      ExactMeans(s, key);
      hide AllExact;
      if key in s.stats {
        ConcatPrepend(Window(s.table.clicks, key), rest);
        parts := [Window(s.table.clicks, key)] + rest;
        ExplainsPrepend(Window(s.table.clicks, key), DailyRow(to, s.stats[key]), rest, DailyRows(s.stats, linkId, from, to - 1));
      } else {
        parts := rest;
        assert DailyRows(s.stats, linkId, from, to) == DailyRows(s.stats, linkId, from, to - 1);
      }
    }
  }

  lemma ExplainsPrepend(part: seq<Click>, r: DailyRow, parts: seq<seq<Click>>, rows: seq<DailyRow>)
    requires Explains(parts, rows) && r.stats == Aggregate(part)
    ensures Explains([part] + parts, [r] + rows)
  {
  }

  lemma ExactMeans(s: State, key: DayKey)
    requires Exact(s, key)
    ensures if key in s.stats then s.stats[key] == Aggregate(Window(s.table.clicks, key)) else Window(s.table.clicks, key) == []
  {
  }

  lemma EmptyConcat()
    ensures Concat([]) == []
  {
  }

  // With nothing pending, the report of a period is what counting the period's clicks directly
  // would give, in totals, referrers and countries. Visitor hashes are counted per day, so the
  // summary never has fewer than the period, and has as many exactly when no hash occurs on two days.
  lemma QuietReportIsExact(run: seq<State>, linkId: string, from: int, to: int)
    requires IsRun(run) && (forall s :: s in run ==> KeyExclusive(s)) && Last(run).pending == {}
    ensures var table := Last(run).stats;
            var rows := DailyRows(table, linkId, from, to);
            var all := Aggregate(Period(Last(run).table.clicks, linkId, from, to));
            && SumValues(Totals(InRange(table, linkId, from, to))) == SumTotals(rows) == all.total
            && SumValues(Uniques(InRange(table, linkId, from, to))) == SumUniques(rows) >= all.unique
            && (SumUniques(rows) == all.unique <==> NoHashReturns(Last(run).table.clicks, linkId, from, to))
            && Merged(Referrers(rows)) == all.referrers && Merged(Countries(rows)) == all.countries
  {
    assert run != [];
    hide NoHashReturns, KeyExclusive, IsRun, InRange, Totals, Uniques, SumValues, Merged, Exact, Period;
    hide Visitors, ReferrerCounts, CountryCounts, Referrers, Countries;
    forall day ensures Exact(Last(run), DayKey(linkId, day)) {
      ExactOrAwaiting(run, DayKey(linkId, day));
    }
    var table := Last(run).stats;
    SummaryIsSumOfDays(table, linkId, from, to);
    var parts := ExactParts(Last(run), linkId, from, to);
    MergedIsAggregate(parts, DailyRows(table, linkId, from, to));
    AggregatePermutation(Concat(parts), Period(Last(run).table.clicks, linkId, from, to));
    UniquesExactIff(Last(run), linkId, from, to);
  }

  // ---- hashes of several days ----

  lemma {:induction false} PeriodMembers(clicks: seq<Click>, linkId: string, from: int, to: int, c: Click)
    ensures c in Period(clicks, linkId, from, to) <==> c in clicks && InPeriod(c, linkId, from, to)
  {
    if clicks != [] {
      var init, last := clicks[..|clicks| - 1], clicks[|clicks| - 1];
      PeriodMembers(init, linkId, from, to, c);
      assert clicks == init + [last];
    }
  }

  ghost predicate Visited(clicks: seq<Click>, linkId: string, day: int, hash: string) {
    exists c :: c in clicks && KeyOf(c) == DayKey(linkId, day) && c.visitorHash == hash
  }

  ghost predicate NoHashReturns(clicks: seq<Click>, linkId: string, from: int, to: int) {
    forall d, e, hash :: from <= d < e <= to && hash != "" ==>
      !(Visited(clicks, linkId, d, hash) && Visited(clicks, linkId, e, hash))
  }

  lemma PeriodVisitor(clicks: seq<Click>, linkId: string, from: int, to: int, hash: string)
    ensures hash in Visitors(Period(clicks, linkId, from, to))
       <==> hash != "" && exists d :: from <= d <= to && Visited(clicks, linkId, d, hash)
  {
    var period := Period(clicks, linkId, from, to);
    VisitorsMeaning(period, hash);
    if c :| c in period && c.visitorHash == hash {
      PeriodMembers(clicks, linkId, from, to, c);
      assert Visited(clicks, linkId, KeyOf(c).day, hash);
    }
    if d :| from <= d <= to && Visited(clicks, linkId, d, hash) {
      var c :| c in clicks && KeyOf(c) == DayKey(linkId, d) && c.visitorHash == hash;
      PeriodMembers(clicks, linkId, from, to, c);
    }
  }

  lemma DayVisitor(clicks: seq<Click>, linkId: string, day: int, hash: string)
    ensures hash in Visitors(Window(clicks, DayKey(linkId, day))) <==> hash != "" && Visited(clicks, linkId, day, hash)
  {
    var window := Window(clicks, DayKey(linkId, day));
    VisitorsMeaning(window, hash);
    if c :| c in window && c.visitorHash == hash {
      WindowMembers(clicks, DayKey(linkId, day), c);
    }
    if c :| c in clicks && KeyOf(c) == DayKey(linkId, day) && c.visitorHash == hash {
      WindowMembers(clicks, DayKey(linkId, day), c);
    }
  }

  lemma UnionSize(a: set<string>, b: set<string>)
    ensures |a + b| <= |a| + |b|
    ensures |a + b| == |a| + |b| <==> a !! b
  {
    assert a + b == a + (b - a);
    assert b == (b - a) + (a * b);
    assert |b| == |b - a| + |a * b|;
    if a * b != {} {
      var x :| x in a * b;
    }
  }

  // One more day: its visitors join, and no hash has returned if none had and none of them is known.
  lemma VisitorsJoin(clicks: seq<Click>, linkId: string, from: int, to: int)
    requires from <= to
    ensures var known, today := Visitors(Period(clicks, linkId, from, to - 1)), Visitors(Window(clicks, DayKey(linkId, to)));
            && Visitors(Period(clicks, linkId, from, to)) == known + today
            && (NoHashReturns(clicks, linkId, from, to) <==> NoHashReturns(clicks, linkId, from, to - 1) && known !! today)
  {
    hide Visitors, Period, Window, Visited;
    var known, today := Visitors(Period(clicks, linkId, from, to - 1)), Visitors(Window(clicks, DayKey(linkId, to)));
    forall hash ensures hash in Visitors(Period(clicks, linkId, from, to)) <==> hash in known + today
                ensures hash in known <==> hash != "" && exists d :: from <= d <= to - 1 && Visited(clicks, linkId, d, hash)
                ensures hash in today <==> hash != "" && Visited(clicks, linkId, to, hash)
    {
      PeriodVisitor(clicks, linkId, from, to, hash);
      PeriodVisitor(clicks, linkId, from, to - 1, hash);
      DayVisitor(clicks, linkId, to, hash);
    }
  }

  lemma {:induction false} UniquesExactIff(s: State, linkId: string, from: int, to: int)
    requires AllExact(s, linkId)
    ensures var sum, visitors := SumUniques(DailyRows(s.stats, linkId, from, to)), Visitors(Period(s.table.clicks, linkId, from, to));
            && sum >= |visitors|
            && (sum == |visitors| <==> NoHashReturns(s.table.clicks, linkId, from, to))
    decreases if from <= to then to - from + 1 else 0
  {
    hide Period, Window, Exact;
    var clicks := s.table.clicks;
    if from > to {
      NoPeriod(clicks, linkId, from, to);
    } else {
      var key := DayKey(linkId, to);
      assert Exact(s, key);
      ExactMeans(s, key);
      UniquesExactIff(s, linkId, from, to - 1);
      VisitorsJoin(clicks, linkId, from, to);
      hide AllExact, NoHashReturns;
      UnionSize(Visitors(Period(clicks, linkId, from, to - 1)), Visitors(Window(clicks, key)));
      OneMoreDay(s.stats, linkId, from, to);
    }
  }

  // The publisher salts the hash with the UTC day of the click: short of a collision, a hash belongs to one
  // day. So for clicks the service publishes the two figures agree, in every quiet state and for every
  // period. Neither of them recognises a person who comes back on another day.
  lemma RotatingHashesAddUp(run: seq<State>, linkId: string, from: int, to: int)
    requires IsRun(run) && (forall s :: s in run ==> KeyExclusive(s)) && Last(run).pending == {}
    requires forall c, d :: c in Last(run).table.clicks && d in Last(run).table.clicks
                            && c.visitorHash == d.visitorHash && c.visitorHash != ""
               ==> c.clickedAt / 86_400_000 == d.clickedAt / 86_400_000
    ensures SumValues(Uniques(InRange(Last(run).stats, linkId, from, to)))
         == Aggregate(Period(Last(run).table.clicks, linkId, from, to)).unique
  {
    assert run != [];
    hide IsRun, KeyExclusive, InRange, Uniques, SumValues, Aggregate, Period;
    QuietReportIsExact(run, linkId, from, to);
    var clicks := Last(run).table.clicks;
    forall d, e, hash | from <= d < e <= to && hash != ""
      ensures !(Visited(clicks, linkId, d, hash) && Visited(clicks, linkId, e, hash))
    {
    }
  }
}
