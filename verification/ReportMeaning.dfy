// The report of a period in plain terms: counted from the clicks themselves.
module ReportMeaning {
  import opened Util
  import opened Clicks
  import opened DailyStats
  import opened ClickEvents
  import opened IngestionProtocol
  import opened IngestionTheorems
  import opened IngestionWorker
  import opened TopEntries
  import opened AnalyticsReports
  import opened ReportTheorems
  import opened ClickStreams
  import IngestionMeaning

  // The clicks of one link from the midnight before one day to the midnight after another.
  ghost function ClicksOfPeriod(table: seq<Click>, linkId: string, from: int, to: int): set<Click> {
    set c | c in table && c.linkId == linkId && from * 86_400_000 <= c.clickedAt < (to + 1) * 86_400_000
  }

  // The name a click is counted under.
  ghost function Source(c: Click): string {
    if c.referrer == "" then "(direct)" else Domain(c.referrer)
  }

  lemma {:induction false} PeriodUnique(clicks: seq<Click>, linkId: string, from: int, to: int)
    requires UniqueIds(clicks)
    ensures UniqueIds(Period(clicks, linkId, from, to))
  {
    if clicks != [] {
      var init, last := clicks[..|clicks| - 1], clicks[|clicks| - 1];
      PeriodUnique(init, linkId, from, to);
      forall c | c in Period(init, linkId, from, to) ensures c.eventId != last.eventId {
        PeriodMembers(init, linkId, from, to, c);
      }
    }
  }

  lemma PeriodIsClicksOfPeriod(table: seq<Click>, linkId: string, from: int, to: int)
    requires UniqueIds(table)
    ensures Distinct(Period(table, linkId, from, to))
    ensures forall c :: c in Period(table, linkId, from, to) <==> c in ClicksOfPeriod(table, linkId, from, to)
    ensures |Period(table, linkId, from, to)| == |ClicksOfPeriod(table, linkId, from, to)|
  {
    var period := Period(table, linkId, from, to);
    PeriodUnique(table, linkId, from, to);
    UniqueIsDistinct(period);
    forall c ensures c in period <==> c in ClicksOfPeriod(table, linkId, from, to) {
      PeriodIsTheDays(table, linkId, from, to, c);
    }
    hide Period;
    IngestionMeaning.DistinctSize(period);
    assert IngestionMeaning.Elements(period) == ClicksOfPeriod(table, linkId, from, to);
  }

  lemma ReferrersOfPeriod(table: seq<Click>, linkId: string, from: int, to: int, name: string)
    requires UniqueIds(table)
    ensures var m := ReferrerCounts(Period(table, linkId, from, to));
            && (name in m ==> m[name] == |set c | c in ClicksOfPeriod(table, linkId, from, to) && Source(c) == name|)
            && (name in m <==> exists c :: c in ClicksOfPeriod(table, linkId, from, to) && Source(c) == name)
  {
    var period, clicks := Period(table, linkId, from, to), ClicksOfPeriod(table, linkId, from, to);
    PeriodIsClicksOfPeriod(table, linkId, from, to);
    hide ClicksOfPeriod, Period, ReferrerCounts, Domain;
    IngestionMeaning.ReferrersCount(period, name);
    assert (set c | c in period && ReferrerLabel(c) == name) == (set c | c in clicks && Source(c) == name);
  }

  lemma CountriesOfPeriod(table: seq<Click>, linkId: string, from: int, to: int, name: string)
    requires UniqueIds(table)
    ensures var m := CountryCounts(Period(table, linkId, from, to));
            && (name in m ==> m[name] == |set c | c in ClicksOfPeriod(table, linkId, from, to) && c.countryCode == name|)
            && (name in m <==> name != "" && exists c :: c in ClicksOfPeriod(table, linkId, from, to) && c.countryCode == name)
  {
    var period, clicks := Period(table, linkId, from, to), ClicksOfPeriod(table, linkId, from, to);
    PeriodIsClicksOfPeriod(table, linkId, from, to);
    IngestionMeaning.NoNamelessCountry(period);
    hide ClicksOfPeriod, Period, CountryCounts;
    if name != "" {
      IngestionMeaning.CountriesCount(period, name);
      assert (set c | c in period && c.countryCode == name) == (set c | c in clicks && c.countryCode == name);
    }
  }

  lemma VisitorsOfPeriod(table: seq<Click>, linkId: string, from: int, to: int)
    requires UniqueIds(table)
    ensures Aggregate(Period(table, linkId, from, to)).unique
         == |set c | c in ClicksOfPeriod(table, linkId, from, to) && c.visitorHash != "" :: c.visitorHash|
  {
    var period, clicks := Period(table, linkId, from, to), ClicksOfPeriod(table, linkId, from, to);
    PeriodIsClicksOfPeriod(table, linkId, from, to);
    hide ClicksOfPeriod, Period, Visitors;
    var hashes := set c | c in clicks && c.visitorHash != "" :: c.visitorHash;
    forall hash ensures hash in Visitors(period) <==> hash in hashes {
      VisitorsMeaning(period, hash);
    }
    assert Visitors(period) == hashes;
  }

  // What the worker's tables say of a quiet moment.
  lemma QuietTables(worker: Worker, linkId: string, from: int, to: int)
    requires worker.Valid() && worker.stream.pending == map[]
    ensures var clicks, stats := worker.repo.clickEvents.clicks, worker.repo.dailyStats;
            var rows := DailyRows(stats, linkId, from, to);
            var all := Aggregate(Period(clicks, linkId, from, to));
            && UniqueIds(clicks)
            && SumValues(Totals(InRange(stats, linkId, from, to))) == all.total
            && SumValues(Uniques(InRange(stats, linkId, from, to))) >= all.unique
            && Merged(Referrers(rows)) == all.referrers && Merged(Countries(rows)) == all.countries
            && forall day :: Exact(worker.Current(), DayKey(linkId, day))
  {
    hide Next, Period, Exact, InRange, Totals, Uniques, SumValues, Merged, Referrers, Countries, Aggregate, Storable, Indexed;
    forall s | s in worker.run ensures KeyExclusive(s) {
      assert forall c, d :: c in s.batches && d in s.batches ==> c == d;
    }
    assert Last(worker.run).pending == {};
    QuietReportIsExact(worker.run, linkId, from, to);
    forall day ensures Exact(worker.Current(), DayKey(linkId, day)) {
      worker.QuietStatsAreExact(DayKey(linkId, day));
    }
  }

  // A day's row, counted from the day's clicks.
  lemma DayOfQuietReport(worker: Worker, linkId: string, from: int, to: int, row: DailyRow)
    requires worker.Valid() && (forall day :: Exact(worker.Current(), DayKey(linkId, day)))
    requires row in DailyRows(worker.repo.dailyStats, linkId, from, to)
    ensures from <= row.day <= to
    ensures var clicks := IngestionMeaning.ClicksOfDay(worker.repo.clickEvents.clicks, linkId, row.day);
            && row.stats.total == |clicks|
            && row.stats.unique == |set c | c in clicks && c.visitorHash != "" :: c.visitorHash|
  {
    hide DailyRows, DayStats, Window, Storable, Indexed, IsRun;
    DailyRowsAre(worker.repo.dailyStats, linkId, from, to);
    assert Exact(worker.Current(), DayKey(linkId, row.day));
    IngestionMeaning.TotalOfDay(worker.repo.clickEvents.clicks, linkId, row.day);
    IngestionMeaning.VisitorsOfDay(worker.repo.clickEvents.clicks, linkId, row.day);
  }

  // Every day with a click has a row.
  lemma DayIsListed(worker: Worker, linkId: string, from: int, to: int, c: Click)
    requires worker.Valid() && (forall day :: Exact(worker.Current(), DayKey(linkId, day)))
    requires c in ClicksOfPeriod(worker.repo.clickEvents.clicks, linkId, from, to)
    ensures exists r :: r in DailyRows(worker.repo.dailyStats, linkId, from, to) && r.day == c.clickedAt / 86_400_000
  {
    hide DailyRows, DayStats, Window, IsRun, TableOk;
    var day := c.clickedAt / 86_400_000;
    IngestionMeaning.WindowIsTheDay(worker.repo.clickEvents.clicks, linkId, day, c);
    assert Exact(worker.Current(), DayKey(linkId, day));
    NoDailyRowMissing(worker.repo.dailyStats, linkId, from, to, day);
  }

  // The daily entries of a quiet report, one for each row.
  lemma DailyInPlainTerms(worker: Worker, linkId: string, from: int, to: int, daily: seq<DailyBreakdown>)
    requires worker.Valid() && (forall day :: Exact(worker.Current(), DayKey(linkId, day)))
    requires var rows := DailyRows(worker.repo.dailyStats, linkId, from, to);
             |daily| <= |rows| && forall i :: 0 <= i < |daily| ==>
               daily[i] == DailyBreakdown(rows[i].day, rows[i].stats.total, rows[i].stats.unique)
    ensures forall d :: d in daily ==>
              var clicks := IngestionMeaning.ClicksOfDay(worker.repo.clickEvents.clicks, linkId, d.day);
              && from <= d.day <= to && d.total == |clicks|
              && d.unique == |set c | c in clicks && c.visitorHash != "" :: c.visitorHash|
    ensures forall i, j :: 0 <= i < j < |daily| ==> daily[i].day > daily[j].day
    ensures |daily| == |DailyRows(worker.repo.dailyStats, linkId, from, to)| ==>
              forall c :: c in ClicksOfPeriod(worker.repo.clickEvents.clicks, linkId, from, to) ==>
                exists d :: d in daily && d.day == c.clickedAt / 86_400_000
  {
    hide Worker.Valid, ClicksOfPeriod, IngestionMeaning.ClicksOfDay, Exact, DailyRows;
    var rows := DailyRows(worker.repo.dailyStats, linkId, from, to);
    DailyRowsAre(worker.repo.dailyStats, linkId, from, to);
    forall i | 0 <= i < |daily|
      ensures var clicks := IngestionMeaning.ClicksOfDay(worker.repo.clickEvents.clicks, linkId, daily[i].day);
              && from <= daily[i].day <= to && daily[i].total == |clicks|
              && daily[i].unique == |set c | c in clicks && c.visitorHash != "" :: c.visitorHash|
    {
      DayOfQuietReport(worker, linkId, from, to, rows[i]);
    }
    if |daily| == |rows| {
      forall c | c in ClicksOfPeriod(worker.repo.clickEvents.clicks, linkId, from, to)
        ensures exists d :: d in daily && d.day == c.clickedAt / 86_400_000
      {
        DayIsListed(worker, linkId, from, to, c);
        var i :| 0 <= i < |rows| && rows[i].day == c.clickedAt / 86_400_000;
        assert daily[i] in daily;
      }
    }
  }

  lemma {:induction false} RowsAreDays(table: StatsTable, linkId: string, from: int, to: int)
    ensures |DailyRows(table, linkId, from, to)| == |InRange(table, linkId, from, to)|
    decreases if from <= to then to - from + 1 else 0
  {
    hide InRange, Totals, Uniques, SumValues;
    if from > to {
      NoRows(table, linkId, from, to);
    } else {
      RowsAreDays(table, linkId, from, to - 1);
      NextDay(table, linkId, from, to);
    }
  }

  // Entries of the top ten that are entries of the map, and all of them if there are fewer than ten.
  lemma ListedSources(kept: seq<Entry>, clicks: seq<Click>, linkId: string, from: int, to: int)
    requires UniqueIds(clicks) && IsTop(kept, ReferrerCounts(Period(clicks, linkId, from, to)), TOP_LIMIT)
    ensures forall e :: e in kept ==> e.clicks == |set c | c in ClicksOfPeriod(clicks, linkId, from, to) && Source(c) == e.name|
    ensures |kept| < 10 ==>
              forall c :: c in ClicksOfPeriod(clicks, linkId, from, to) ==> exists e :: e in kept && e.name == Source(c)
  {
    var m := ReferrerCounts(Period(clicks, linkId, from, to));
    hide ReferrerCounts, Period, ClicksOfPeriod, Source;
    forall name { ReferrersOfPeriod(clicks, linkId, from, to, name); }
    if |kept| < 10 {
      forall c | c in ClicksOfPeriod(clicks, linkId, from, to) ensures exists e :: e in kept && e.name == Source(c) {
        AllKept(kept, m, Source(c));
      }
    }
  }

  lemma ListedCountries(kept: seq<Entry>, clicks: seq<Click>, linkId: string, from: int, to: int)
    requires UniqueIds(clicks) && IsTop(kept, CountryCounts(Period(clicks, linkId, from, to)), TOP_LIMIT)
    ensures forall e :: e in kept ==>
              e.name != "" && e.clicks == |set c | c in ClicksOfPeriod(clicks, linkId, from, to) && c.countryCode == e.name|
    ensures |kept| < 10 ==>
              forall c :: c in ClicksOfPeriod(clicks, linkId, from, to) && c.countryCode != "" ==>
                exists e :: e in kept && e.name == c.countryCode
  {
    var m := CountryCounts(Period(clicks, linkId, from, to));
    hide CountryCounts, Period, ClicksOfPeriod;
    forall name { CountriesOfPeriod(clicks, linkId, from, to, name); }
    if |kept| < 10 {
      forall c | c in ClicksOfPeriod(clicks, linkId, from, to) && c.countryCode != ""
        ensures exists e :: e in kept && e.name == c.countryCode
      {
        AllKept(kept, m, c.countryCode);
      }
    }
  }

  // As many different entries as the map has name every key.
  lemma {:induction false} AllKept(kept: seq<Entry>, m: map<string, nat>, name: string)
    requires Distinct(kept) && |kept| == |m| && (forall e :: e in kept ==> e.name in m && m[e.name] == e.clicks) && name in m
    ensures exists e :: e in kept && e.name == name
  {
    if kept != [] {
      var init, last := kept[..|kept| - 1], kept[|kept| - 1];
      assert kept == init + [last] && last !in init;
      if name != last.name {
        var rest := m - {last.name};
        assert rest.Keys == m.Keys - {last.name};
        assert forall e :: e in init && e.name == last.name ==> e == last;
        AllKept(init, rest, name);
      }
    }
  }

  // The figures of the summary, and the number of days it averages over.
  lemma FiguresInPlainTerms(worker: Worker, linkId: string, from: int, to: int)
    requires worker.Valid() && worker.stream.pending == map[]
    ensures var clicks := ClicksOfPeriod(worker.repo.clickEvents.clicks, linkId, from, to);
            var rows := InRange(worker.repo.dailyStats, linkId, from, to);
            && SumValues(Totals(rows)) == |clicks|
            && SumValues(Uniques(rows)) >= |set c | c in clicks && c.visitorHash != "" :: c.visitorHash|
            && |rows| == |DailyRows(worker.repo.dailyStats, linkId, from, to)|
            && forall day :: Exact(worker.Current(), DayKey(linkId, day))
  {
    hide Worker.Valid, ClicksOfPeriod, Exact, Merged, Referrers, Countries, DailyRows;
    hide InRange, Totals, Uniques, SumValues, Period, ReferrerCounts, CountryCounts, Visitors, UniqueIds;
    QuietTables(worker, linkId, from, to);
    PeriodIsClicksOfPeriod(worker.repo.clickEvents.clicks, linkId, from, to);
    VisitorsOfPeriod(worker.repo.clickEvents.clicks, linkId, from, to);
    RowsAreDays(worker.repo.dailyStats, linkId, from, to);
  }

  lemma ListsInPlainTerms(
    worker: Worker, linkId: string, from: int, to: int, includes: Includes, referrers: seq<Entry>, countries: seq<Entry>)
    requires worker.Valid() && worker.stream.pending == map[]
    requires var rows := DailyRows(worker.repo.dailyStats, linkId, from, to);
             && (if includes.referrers then IsTop(referrers, Merged(Referrers(rows)), TOP_LIMIT) else referrers == [])
             && (if includes.countries then IsTop(countries, Merged(Countries(rows)), TOP_LIMIT) else countries == [])
    ensures var clicks := ClicksOfPeriod(worker.repo.clickEvents.clicks, linkId, from, to);
            && (forall e :: e in referrers ==> e.clicks == |set c | c in clicks && Source(c) == e.name|)
            && (forall e :: e in countries ==> e.name != "" && e.clicks == |set c | c in clicks && c.countryCode == e.name|)
            && (includes.referrers && |referrers| < 10 ==>
                  forall c :: c in clicks ==> exists e :: e in referrers && e.name == Source(c))
            && (includes.countries && |countries| < 10 ==>
                  forall c :: c in clicks && c.countryCode != "" ==> exists e :: e in countries && e.name == c.countryCode)
  {
    hide Worker.Valid, ClicksOfPeriod, Source, Exact, Merged, Referrers, Countries, DailyRows, IsTop, UniqueIds;
    hide InRange, Totals, Uniques, SumValues, Period, ReferrerCounts, CountryCounts, Visitors;
    QuietTables(worker, linkId, from, to);
    if includes.referrers {
      ListedSources(referrers, worker.repo.clickEvents.clicks, linkId, from, to);
    }
    if includes.countries {
      ListedCountries(countries, worker.repo.clickEvents.clicks, linkId, from, to);
    }
  }

  // With nothing pending, the report of a period says what its clicks say: how many there are in all and on each
  // day, and how many came from each listed source and country.
  method QuietReport(worker: Worker, linkId: string, from: int, to: int, includes: Includes) returns (r: Response)
    requires worker.Valid() && worker.stream.pending == map[]
    ensures var clicks := ClicksOfPeriod(worker.repo.clickEvents.clicks, linkId, from, to);
            && r.summary.total == |clicks|
            && r.summary.unique >= |set c | c in clicks && c.visitorHash != "" :: c.visitorHash|
            && (forall e :: e in r.referrers ==> e.clicks == |set c | c in clicks && Source(c) == e.name|)
            && (forall e :: e in r.countries ==> e.name != "" && e.clicks == |set c | c in clicks && c.countryCode == e.name|)
            && (includes.daily ==> forall c :: c in clicks ==> exists d :: d in r.daily && d.day == c.clickedAt / 86_400_000)
            && (includes.referrers && |r.referrers| < 10 ==>
                  forall c :: c in clicks ==> exists e :: e in r.referrers && e.name == Source(c))
            && (includes.countries && |r.countries| < 10 ==>
                  forall c :: c in clicks && c.countryCode != "" ==> exists e :: e in r.countries && e.name == c.countryCode)
    ensures forall d :: d in r.daily ==>
              var clicks := IngestionMeaning.ClicksOfDay(worker.repo.clickEvents.clicks, linkId, d.day);
              && from <= d.day <= to && d.total == |clicks|
              && d.unique == |set c | c in clicks && c.visitorHash != "" :: c.visitorHash|
    ensures forall i, j :: 0 <= i < j < |r.daily| ==> r.daily[i].day > r.daily[j].day
  {
    hide Worker.Valid, ClicksOfPeriod, IngestionMeaning.ClicksOfDay, Source, Exact, Merged, Referrers, Countries, DailyRows;
    hide InRange, Totals, Uniques, SumValues, IsTop;
    var summary, days := GetAnalyticsSummary(worker.repo.dailyStats, linkId, from, to);
    var rows := DailyRows(worker.repo.dailyStats, linkId, from, to);
    r := BuildAnalyticsResponse(summary, rows, includes);
    FiguresInPlainTerms(worker, linkId, from, to);
    DailyInPlainTerms(worker, linkId, from, to, r.daily);
    ListsInPlainTerms(worker, linkId, from, to, includes, r.referrers, r.countries);
  }
}
