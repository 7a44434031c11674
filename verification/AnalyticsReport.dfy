// The analytics report of a link: summary and daily rows from daily_link_stats
// (internal/repository/click_event.go), breakdowns summed over days (internal/handler/analytics.go).
module AnalyticsReports {
  import opened Util
  import opened Clicks
  import opened DailyStats
  import opened TopEntries

  const TOP_LIMIT: nat := 10

  type StatsTable = map<DayKey, Stats>

  datatype DailyRow = DailyRow(day: int, stats: Stats)

  datatype Summary = Summary(total: nat, unique: nat, average: real)

  // The rows of one link with a date in [from, to], latest first.
  function DailyRows(table: StatsTable, linkId: string, from: int, to: int): seq<DailyRow>
    decreases if from <= to then to - from + 1 else 0
  {
    if from > to then []
    else
      var key := DayKey(linkId, to);
      (if key in table then [DailyRow(to, table[key])] else []) + DailyRows(table, linkId, from, to - 1)
  }

  // The rows a summary groups, by day.
  ghost function InRange(table: StatsTable, linkId: string, from: int, to: int): map<int, Stats> {
    map day | from <= day <= to && DayKey(linkId, day) in table :: table[DayKey(linkId, day)]
  }

  ghost function Totals(rows: map<int, Stats>): map<int, nat> {
    map day | day in rows :: rows[day].total
  }

  ghost function Uniques(rows: map<int, Stats>): map<int, nat> {
    map day | day in rows :: rows[day].unique
  }

  lemma PutRow(rows: map<int, Stats>, day: int, s: Stats)
    requires day !in rows
    ensures SumValues(Totals(rows[day := s])) == SumValues(Totals(rows)) + s.total
    ensures SumValues(Uniques(rows[day := s])) == SumValues(Uniques(rows)) + s.unique
  {
    assert Totals(rows[day := s]) == Totals(rows)[day := s.total];
    assert Uniques(rows[day := s]) == Uniques(rows)[day := s.unique];
    SumValuesAdd(Totals(rows), day, s.total);
    SumValuesAdd(Uniques(rows), day, s.unique);
  }

  lemma NextDay(table: StatsTable, linkId: string, from: int, to: int)
    requires from <= to
    ensures var before, after := InRange(table, linkId, from, to - 1), InRange(table, linkId, from, to);
            var key := DayKey(linkId, to);
            var s := if key in table then table[key] else Stats(0, 0, map[], map[]);
            && SumValues(Totals(after)) == SumValues(Totals(before)) + s.total
            && SumValues(Uniques(after)) == SumValues(Uniques(before)) + s.unique
            && |after| == |before| + (if key in table then 1 else 0)
  {
    var before, after := InRange(table, linkId, from, to - 1), InRange(table, linkId, from, to);
    var key := DayKey(linkId, to);
    hide SumValues;
    if key in table {
      assert after == before[to := table[key]];
      PutRow(before, to, table[key]);
    } else {
      assert after == before;
    }
  }

  lemma NoRows(table: StatsTable, linkId: string, from: int, to: int)
    requires to < from
    ensures var rows := InRange(table, linkId, from, to);
            |rows| == SumValues(Totals(rows)) == SumValues(Uniques(rows)) == 0
  {
    assert InRange(table, linkId, from, to) == map[];
  }

  function Average(total: nat, count: nat): real {
    if count > 0 then total as real / count as real else 0.0
  }

  lemma AverageTimesCount(total: nat, count: nat)
    requires count == 0 ==> total == 0
    ensures Average(total, count) * count as real == total as real
    ensures count == 0 ==> Average(total, count) == 0.0
  {
  }

  // GetAnalyticsSummary: the sums the database takes over the rows, and their average.
  method GetAnalyticsSummary(table: StatsTable, linkId: string, from: int, to: int) returns (summary: Summary, ghost days: nat)
    ensures summary.total == SumValues(Totals(InRange(table, linkId, from, to)))
    ensures summary.unique == SumValues(Uniques(InRange(table, linkId, from, to)))
    ensures days == |InRange(table, linkId, from, to)|
    ensures summary.average * days as real == summary.total as real
    ensures days == 0 ==> summary.average == 0.0
  {
    hide InRange, Totals, Uniques, Average, SumValues;
    var total, unique, count := 0, 0, 0;
    var day := from;
    NoRows(table, linkId, from, from - 1);
    NoRows(table, linkId, from, if to < from then to else from - 1);
    while day <= to
      invariant from <= day && (day <= to + 1 || day == from)
      invariant total == SumValues(Totals(InRange(table, linkId, from, day - 1)))
      invariant unique == SumValues(Uniques(InRange(table, linkId, from, day - 1)))
      invariant count == |InRange(table, linkId, from, day - 1)|
      invariant count == 0 ==> total == 0
    {
      NextDay(table, linkId, from, day);
      var key := DayKey(linkId, day);
      if key in table {
        total, unique, count := total + table[key].total, unique + table[key].unique, count + 1;
      }
      day := day + 1;
    }
    days := count;
    AverageTimesCount(total, count);
    summary := Summary(total, unique, Average(total, count));
  }

  // ---- breakdowns over several days ----

  type Breakdown = map<string, nat>

  function Get(m: Breakdown, name: string): nat {
    if name in m then m[name] else 0
  }

  function Added(a: Breakdown, b: Breakdown): Breakdown {
    map name | name in a.Keys + b.Keys :: Get(a, name) + Get(b, name)
  }

  function Merged(parts: seq<Breakdown>): Breakdown {
    if parts == [] then map[] else Added(Merged(parts[..|parts| - 1]), parts[|parts| - 1])
  }

  function Referrers(rows: seq<DailyRow>): seq<Breakdown> {
    if rows == [] then [] else Referrers(rows[..|rows| - 1]) + [rows[|rows| - 1].stats.referrers]
  }

  function Countries(rows: seq<DailyRow>): seq<Breakdown> {
    if rows == [] then [] else Countries(rows[..|rows| - 1]) + [rows[|rows| - 1].stats.countries]
  }

  lemma AddedStep(a: Breakdown, b: Breakdown, name: string, n: nat)
    requires name !in b
    ensures var sum := Added(a, b); Added(a, b[name := n]) == sum[name := Get(sum, name) + n]
  {
  }

  lemma AddedNothing(a: Breakdown)
    ensures Added(a, map[]) == a
  {
  }

  lemma {:induction false} SumAdded(a: Breakdown, b: Breakdown)
    ensures SumValues(Added(a, b)) == SumValues(a) + SumValues(b)
    decreases |b|
  {
    hide Added;
    AddedNothing(a);
    if b != map[] {
      var name :| name in b;
      var rest := b - {name};
      assert b == rest[name := b[name]];
      SumAdded(a, rest);
      SumValuesTake(b, name);
      SumValuesAdd(Added(a, rest), name, b[name]);
      AddedStep(a, rest, name, b[name]);
    }
  }

  lemma OneLess(part: Breakdown, left: set<string>, name: string)
    requires name in left && left <= part.Keys
    ensures part - (left - {name}) == (part - left)[name := part[name]]
  {
  }

  // The inner loop: totals[name] += count for every entry of one row, in any order.
  method AddBreakdown(before: Breakdown, part: Breakdown) returns (totals: Breakdown)
    ensures totals == Added(before, part)
  {
    hide Added;
    totals := before;
    var left := part.Keys;
    assert part - left == map[];
    AddedNothing(before);
    while left != {}
      invariant left <= part.Keys
      invariant totals == Added(before, part - left)
      decreases left
    {
      var name :| name in left;
      AddedStep(before, part - left, name, part[name]);
      OneLess(part, left, name);
      totals := totals[name := Get(totals, name) + part[name]];
      left := left - {name};
    }
    assert part - {} == part;
  }

  datatype Includes = Includes(daily: bool, referrers: bool, countries: bool)

  datatype DailyBreakdown = DailyBreakdown(day: int, total: nat, unique: nat)

  datatype Response = Response(
    summary: Summary, daily: seq<DailyBreakdown>, referrers: seq<Entry>, countries: seq<Entry>)

  method MergeReferrers(rows: seq<DailyRow>) returns (totals: Breakdown)
    ensures totals == Merged(Referrers(rows))
  {
    totals := map[];
    for i := 0 to |rows|
      invariant totals == Merged(Referrers(rows[..i]))
    {
      assert rows[..i + 1][..i] == rows[..i];
      totals := AddBreakdown(totals, rows[i].stats.referrers);
    }
    assert rows[..|rows|] == rows;
  }

  method MergeCountries(rows: seq<DailyRow>) returns (totals: Breakdown)
    ensures totals == Merged(Countries(rows))
  {
    totals := map[];
    for i := 0 to |rows|
      invariant totals == Merged(Countries(rows[..i]))
    {
      assert rows[..i + 1][..i] == rows[..i];
      totals := AddBreakdown(totals, rows[i].stats.countries);
    }
    assert rows[..|rows|] == rows;
  }

  method BuildAnalyticsResponse(summary: Summary, rows: seq<DailyRow>, includes: Includes) returns (r: Response)
    ensures r.summary == summary
    ensures |r.daily| == if includes.daily then |rows| else 0
    ensures forall i :: 0 <= i < |r.daily| ==> r.daily[i] == DailyBreakdown(rows[i].day, rows[i].stats.total, rows[i].stats.unique)
    ensures if includes.referrers then IsTop(r.referrers, Merged(Referrers(rows)), TOP_LIMIT) else r.referrers == []
    ensures if includes.countries then IsTop(r.countries, Merged(Countries(rows)), TOP_LIMIT) else r.countries == []
    ensures |r.referrers| <= 10 && |r.countries| <= 10
    ensures |r.referrers| < 10 && includes.referrers ==> |r.referrers| == |Merged(Referrers(rows))|
    ensures |r.countries| < 10 && includes.countries ==> |r.countries| == |Merged(Countries(rows))|
    ensures forall i, j :: 0 <= i < j < |r.referrers| ==> r.referrers[i].clicks >= r.referrers[j].clicks
    ensures forall i, j :: 0 <= i < j < |r.countries| ==> r.countries[i].clicks >= r.countries[j].clicks
  {
    hide Merged, Distinct;
    var daily: seq<DailyBreakdown> := [];
    if includes.daily {
      for i := 0 to |rows|
        invariant |daily| == i
        invariant forall j :: 0 <= j < i ==> daily[j] == DailyBreakdown(rows[j].day, rows[j].stats.total, rows[j].stats.unique)
      {
        daily := daily + [DailyBreakdown(rows[i].day, rows[i].stats.total, rows[i].stats.unique)];
      }
    }
    var referrers: seq<Entry> := [];
    if includes.referrers {
      var totals := MergeReferrers(rows);
      referrers := SortedBreakdown(totals, TOP_LIMIT);
    }
    var countries: seq<Entry> := [];
    if includes.countries {
      var totals := MergeCountries(rows);
      countries := SortedBreakdown(totals, TOP_LIMIT);
    }
    r := Response(summary, daily, referrers, countries);
  }
}
