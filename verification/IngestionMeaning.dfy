// The ingestion in plain terms: what is stored of an entry, and what a day's figures count.
module IngestionMeaning {
  import opened Util
  import opened Clicks
  import opened DailyStats
  import opened ClickEvents
  import opened IngestionProtocol
  import opened IngestionTheorems
  import opened IngestionVetting
  import opened IngestionWorker
  import opened ClickStreams

  // ---- what is stored ----

  // An acknowledged entry has a row with each of its fields if and only if it meets the conditions of
  // validation; otherwise it was dead-lettered.
  lemma StoredFieldByField(run: seq<State>, id: StreamId, p: Payload)
    requires IsRun(run) && id in Last(run).acked && id in Last(run).stream && Last(run).stream[id] == Decoded(p)
    ensures var valid :=
              && 3 <= |p.shortCode| <= 50 && p.linkId != ""
              && |p.visitorHash| == 16
              && (forall i :: 0 <= i < 16 ==>
                    '0' <= p.visitorHash[i] <= '9' || 'a' <= p.visitorHash[i] <= 'f' || 'A' <= p.visitorHash[i] <= 'F')
              && (p.countryCode == "" || |p.countryCode| == 2)
              && p.clickedAt > 0 && |p.referrer| <= 500 && |p.userAgent| <= 500;
            && (valid <==> exists c :: c in Last(run).table.clicks
                                       && c.eventId == id && c.shortCode == p.shortCode && c.linkId == p.linkId
                                       && c.referrer == p.referrer && c.userAgent == p.userAgent
                                       && c.visitorHash == p.visitorHash && c.countryCode == p.countryCode
                                       && c.clickedAt == p.clickedAt)
            && (!valid ==> id in Last(run).deadLettered && forall c :: c in Last(run).table.clicks ==> c.eventId != id)
  {
    assert run != [];
    hide IsRun;
    AckedIsProcessed(run, id);
    RowsAreEntries(run);
    var s := Last(run);
    if AcceptedId(s.stream, id) {
      assert RowOf(s.stream, id) in s.table.clicks;
    }
  }

  // Every row has the fields of the entry it is named after, and no entry has two.
  lemma EveryRowIsSent(run: seq<State>, c: Click)
    requires IsRun(run) && c in Last(run).table.clicks
    ensures c.eventId in Last(run).stream && Last(run).stream[c.eventId].Decoded?
    ensures var p := Last(run).stream[c.eventId].payload;
            && c.shortCode == p.shortCode && c.linkId == p.linkId && c.referrer == p.referrer && c.userAgent == p.userAgent
            && c.visitorHash == p.visitorHash && c.countryCode == p.countryCode && c.clickedAt == p.clickedAt
    ensures forall d :: d in Last(run).table.clicks && d.eventId == c.eventId ==> d == c
  {
    assert run != [];
    hide IsRun, ValidPayload;
    RowsAreEntries(run);
  }

  // ---- what is refused ----

  // No text of the entry has a NUL, its day ends within the range of timestamps, its link id fits the indexes.
  ghost predicate Writable(p: Payload) {
    && '\0' !in p.shortCode && '\0' !in p.linkId && '\0' !in p.referrer && '\0' !in p.userAgent
    && '\0' !in p.visitorHash && '\0' !in p.countryCode && '\0' !in p.ownerId
    && (p.clickedAt / 86_400_000 + 1) * 86_400_000 < 9_224_318_016_000_000
    && (|p.linkId| <= 2_679 || p.longIdFits)
  }

  // It falls before the year 10000, or has no owner to tell.
  ghost predicate Expressible(p: Payload) {
    p.ownerId == "" || p.clickedAt < 253_402_300_800_000
  }

  // One turn succeeds only if every valid entry it takes is writable, and without a fault or a cancellation
  // it does if they are expressible too.
  method TurnOn(worker: Worker, now: int) returns (ok: bool, ghost ids: seq<StreamId>)
    requires worker.Valid() && worker.batch.None?
    modifies worker, worker.stream`lastDelivered, worker.stream`pending, worker.repo, worker.env
    ensures worker.Valid() && worker.batch.None?
    ensures forall id :: id in ids ==> id < |worker.stream.entries|
    ensures var good := forall id :: id in ids && worker.stream.entries[id].Decoded? && ValidPayload(worker.stream.entries[id].payload) ==>
                Writable(worker.stream.entries[id].payload);
            var early := forall id :: id in ids && worker.stream.entries[id].Decoded? && ValidPayload(worker.stream.entries[id].payload) ==>
                Expressible(worker.stream.entries[id].payload);
            && (ok ==> good)
            && (worker.env.faults == old(worker.env.faults) && worker.env.cancellations == old(worker.env.cancellations) ==>
                  good && early ==> ok)
  {
    ghost var events, applied, written;
    ok, ids, events, applied, written := worker.ProcessOnce(now);
    SoundEntriesInPlainTerms(worker.stream.entries, ids);
  }

  lemma SoundEntriesInPlainTerms(entries: seq<Message>, ids: seq<StreamId>)
    requires forall id :: id in ids ==> id < |entries|
    ensures SoundEntries(StreamOf(entries), ids) <==>
              forall id :: id in ids && entries[id].Decoded? && ValidPayload(entries[id].payload) ==>
                Writable(entries[id].payload)
    ensures AnnounceableEntries(StreamOf(entries), ids) <==>
              forall id :: id in ids && entries[id].Decoded? && ValidPayload(entries[id].payload) ==>
                Expressible(entries[id].payload)
  {
    hide Sound, ValidPayload;
    var s := StreamOf(entries);
    forall id | id in ids
      ensures AcceptedId(s, id) <==> entries[id].Decoded? && ValidPayload(entries[id].payload)
    {}
    forall e: ClickEvent { SoundInPlainTerms(e); }
  }

  // ---- what a day is ----

  // A window holds the clicks of one link from one UTC midnight to the next.
  lemma WindowIsTheDay(table: seq<Click>, linkId: string, day: int, c: Click)
    ensures c in Window(table, DayKey(linkId, day))
       <==> c in table && c.linkId == linkId && day * 86_400_000 <= c.clickedAt < (day + 1) * 86_400_000
  {
    WindowMembers(table, DayKey(linkId, day), c);
  }

  // The clicks of one link on one UTC day.
  ghost function ClicksOfDay(table: seq<Click>, linkId: string, day: int): set<Click> {
    set c | c in table && c.linkId == linkId && day * 86_400_000 <= c.clickedAt < (day + 1) * 86_400_000
  }

  ghost function Elements(s: seq<Click>): set<Click> {
    set c | c in s
  }

  lemma {:induction false} DistinctSize(s: seq<Click>)
    requires Distinct(s)
    ensures |Elements(s)| == |s|
  {
    if s != [] {
      var init, last := s[..|s| - 1], s[|s| - 1];
      DistinctSize(init);
      assert s == init + [last];
      assert Elements(s) == Elements(init) + {last};
      assert last !in init;
    }
  }

  // A breakdown, counted entry by entry.
  function Get(m: map<string, nat>, name: string): nat {
    if name in m then m[name] else 0
  }

  lemma {:induction false} ReferrersCount(s: seq<Click>, name: string)
    requires Distinct(s)
    ensures Get(ReferrerCounts(s), name) == |set c | c in s && ReferrerLabel(c) == name|
    ensures name in ReferrerCounts(s) <==> exists c :: c in s && ReferrerLabel(c) == name
  {
    hide ReferrerLabel;
    if s != [] {
      var init, last := s[..|s| - 1], s[|s| - 1];
      ReferrersCount(init, name);
      assert s == init + [last];
      assert last !in init;
      var before := set c | c in init && ReferrerLabel(c) == name;
      var after := set c | c in s && ReferrerLabel(c) == name;
      assert after == if ReferrerLabel(last) == name then before + {last} else before;
    }
  }

  lemma {:induction false} CountriesCount(s: seq<Click>, name: string)
    requires Distinct(s) && name != ""
    ensures Get(CountryCounts(s), name) == |set c | c in s && c.countryCode == name|
    ensures name in CountryCounts(s) <==> exists c :: c in s && c.countryCode == name
  {
    if s != [] {
      var init, last := s[..|s| - 1], s[|s| - 1];
      CountriesCount(init, name);
      OneMoreCountry(CountryCounts(init), last.countryCode, name);
      hide Bump;
      assert s == init + [last];
      assert last !in init;
      var before := set c | c in init && c.countryCode == name;
      var after := set c | c in s && c.countryCode == name;
      assert after == if last.countryCode == name then before + {last} else before;
    }
  }

  lemma OneMoreCountry(m: map<string, nat>, country: string, name: string)
    ensures Get(Bump(m, country), name) == Get(m, name) + if country == name then 1 else 0
    ensures name in Bump(m, country) <==> name in m || country == name
  {
  }

  lemma WindowIsClicksOfDay(table: seq<Click>, linkId: string, day: int)
    requires UniqueIds(table)
    ensures Distinct(Window(table, DayKey(linkId, day)))
    ensures Elements(Window(table, DayKey(linkId, day))) == ClicksOfDay(table, linkId, day)
  {
    var window := Window(table, DayKey(linkId, day));
    WindowUnique(table, DayKey(linkId, day));
    UniqueIsDistinct(window);
    forall c ensures c in window <==> c in ClicksOfDay(table, linkId, day) {
      WindowIsTheDay(table, linkId, day, c);
    }
    hide Window;
  }

  // A day's figures, from the clicks of the day. The total is how many there are.
  lemma TotalOfDay(table: seq<Click>, linkId: string, day: int)
    requires UniqueIds(table)
    ensures DayStats(table, DayKey(linkId, day)).total == |ClicksOfDay(table, linkId, day)|
  {
    hide ClicksOfDay, Window, Elements;
    WindowIsClicksOfDay(table, linkId, day);
    DistinctSize(Window(table, DayKey(linkId, day)));
    TotalIsWindowSize(table, DayKey(linkId, day));
  }

  // Unique visitors are the different visitor hashes, the empty one left out.
  lemma VisitorsOfDay(table: seq<Click>, linkId: string, day: int)
    requires UniqueIds(table)
    ensures DayStats(table, DayKey(linkId, day)).unique
         == |set c | c in ClicksOfDay(table, linkId, day) && c.visitorHash != "" :: c.visitorHash|
  {
    var window, clicks := Window(table, DayKey(linkId, day)), ClicksOfDay(table, linkId, day);
    WindowIsClicksOfDay(table, linkId, day);
    hide ClicksOfDay, Window, Visitors;
    assert forall c :: c in window <==> c in Elements(window);
    var hashes := set c | c in clicks && c.visitorHash != "" :: c.visitorHash;
    forall hash ensures hash in Visitors(window) <==> hash in hashes {
      VisitorsMeaning(window, hash);
    }
    assert Visitors(window) == hashes;
  }

  // Each referrer label counts its clicks, "(direct)" those without a referrer.
  lemma ReferrersOfDay(table: seq<Click>, linkId: string, day: int, name: string)
    requires UniqueIds(table)
    ensures Get(DayStats(table, DayKey(linkId, day)).referrers, name)
         == |set c | c in ClicksOfDay(table, linkId, day) && (if c.referrer == "" then "(direct)" else Domain(c.referrer)) == name|
  {
    var window, clicks := Window(table, DayKey(linkId, day)), ClicksOfDay(table, linkId, day);
    WindowIsClicksOfDay(table, linkId, day);
    hide ClicksOfDay, Window, Domain, ReferrerCounts;
    ReferrersCount(window, name);
    assert forall c :: c in window <==> c in Elements(window);
    assert (set c | c in window && ReferrerLabel(c) == name)
        == (set c | c in clicks && (if c.referrer == "" then "(direct)" else Domain(c.referrer)) == name);
  }

  // Each country counts its clicks; clicks without one count under none.
  lemma CountriesOfDay(table: seq<Click>, linkId: string, day: int, name: string)
    requires UniqueIds(table) && name != ""
    ensures Get(DayStats(table, DayKey(linkId, day)).countries, name)
         == |set c | c in ClicksOfDay(table, linkId, day) && c.countryCode == name|
  {
    var window, clicks := Window(table, DayKey(linkId, day)), ClicksOfDay(table, linkId, day);
    WindowIsClicksOfDay(table, linkId, day);
    hide ClicksOfDay, Window, CountryCounts;
    CountriesCount(window, name);
    assert forall c :: c in window <==> c in Elements(window);
    assert (set c | c in window && c.countryCode == name) == (set c | c in clicks && c.countryCode == name);
  }

  lemma {:induction false} NoNamelessCountry(clicks: seq<Click>)
    ensures "" !in Aggregate(clicks).countries
  {
    if clicks != [] {
      NoNamelessCountry(clicks[..|clicks| - 1]);
    }
  }

  // ---- what a domain is ----

  predicate MarkAt(url: string, i: int) {
    0 <= i && i + 3 <= |url| && url[i] == ':' && url[i + 1] == '/' && url[i + 2] == '/'
  }

  // The referrer's text behind the first "://", or all of it if there is none, up to the next slash; "(unknown)"
  // if that is empty or the referrer has fewer than ten characters.
  lemma DomainInPlainTerms(url: string) returns (start: nat, end: nat)
    ensures start <= end <= |url|
    ensures || (start == 0 && forall i :: 0 <= i ==> !MarkAt(url, i))
            || (start >= 3 && MarkAt(url, start - 3) && forall i :: 0 <= i < start - 3 ==> !MarkAt(url, i))
    ensures (end == |url| || url[end] == '/') && forall i :: start <= i < end ==> url[i] != '/'
    ensures Domain(url) == if |url| < 10 || start == end then "(unknown)" else url[start..end]
  {
    FirstMark(url, 0);
    start := HostStart(url, 0);
    FirstSlash(url, start);
    end := HostEnd(url, start);
  }

  lemma MarkIsScheme(url: string, i: nat)
    ensures SchemeAt(url, i) <==> MarkAt(url, i)
  {
    if i + 3 <= |url| {
      assert url[i..i + 3] == [url[i], url[i + 1], url[i + 2]];
      assert "://" == [':', '/', '/'];
    }
  }

  lemma {:induction false} FirstMark(url: string, i: nat)
    requires i <= |url|
    ensures var start := HostStart(url, i);
            || (start == 0 && forall k :: i <= k ==> !MarkAt(url, k))
            || (start >= i + 3 && MarkAt(url, start - 3) && forall k :: i <= k < start - 3 ==> !MarkAt(url, k))
    decreases |url| - i
  {
    MarkIsScheme(url, i);
    if i + 3 <= |url| && !SchemeAt(url, i) {
      FirstMark(url, i + 1);
    }
  }

  lemma {:induction false} FirstSlash(url: string, i: nat)
    requires i <= |url|
    ensures var end := HostEnd(url, i);
            (end == |url| || url[end] == '/') && forall k :: i <= k < end ==> url[k] != '/'
    decreases |url| - i
  {
    if i < |url| && url[i] != '/' {
      FirstSlash(url, i + 1);
    }
  }
}
