// What every run of the analytics consumers guarantees about rows, acknowledgements and daily stats.
module IngestionTheorems {
  import opened Util
  import opened Clicks
  import opened DailyStats
  import opened ClickEvents
  import opened IngestionProtocol

  function Last(run: seq<State>): State
    requires run != []
  {
    run[|run| - 1]
  }

  // ---- acknowledgement and idempotence ----

  // Nothing acknowledged is lost: for any number of consumers, any crash and any failing step,
  // an acknowledged entry is stored under its own id with the content its payload fixes,
  // or it was malformed and handed to deadLetterMessage.
  lemma AckedIsProcessed(run: seq<State>, id: StreamId)
    requires IsRun(run) && id in Last(run).acked
    ensures var s := Last(run);
            id in s.stream && if AcceptedId(s.stream, id) then RowOf(s.stream, id) in s.table.clicks
                              else id in s.deadLettered
  {
    hide Next;
    InvRun(run, |run| - 1);
    var s := Last(run);
    assert Processed(s, id);
    if AcceptedId(s.stream, id) {
      StoredRow(s, id);
    }
  }

  // At most one row per entry, never an invented one, and none for an entry nobody fetched.
  lemma RowsAreEntries(run: seq<State>)
    requires IsRun(run)
    ensures var s := Last(run);
            && UniqueIds(s.table.clicks)
            && forall c :: c in s.table.clicks
                 ==> AcceptedId(s.stream, c.eventId) && c == RowOf(s.stream, c.eventId)
                     && (c.eventId in s.pending || c.eventId in s.acked)
  {
    hide Next, AcceptedId, RowOf;
    InvRun(run, |run| - 1);
  }

  // An entry that was delivered stays pending until it is acknowledged.
  lemma {:induction false} PendingOrAcked(run: seq<State>, i: nat, j: nat, id: StreamId)
    requires IsRun(run) && i <= j < |run| && id in run[i].pending
    ensures run[j].stream == run[i].stream && (id in run[j].pending || id in run[j].acked)
  {
    hide Next;
    if i < j {
      PendingOrAcked(run, i, j - 1, id);
      PendingStep(run[j - 1], run[j], id);
    }
  }

  lemma PendingStep(s: State, t: State, id: StreamId)
    requires Next(s, t) && (id in s.pending || id in s.acked)
    ensures t.stream == s.stream && (id in t.pending || id in t.acked)
  {
    hide DayStats, InsertRow, Insertable, Parse, KeysOf;
    var step :| Enabled(s, step) && t == Apply(s, step);
  }

  lemma QuietRows(s: State, c: Click)
    requires Inv(s) && s.pending == {}
    ensures c in s.table.clicks <==> c.eventId in s.acked && AcceptedId(s.stream, c.eventId) && c == RowOf(s.stream, c.eventId)
  {
    hide TableOk, BatchOk, Parse;
    assert TableOk(s.table);
    if c.eventId in s.acked && AcceptedId(s.stream, c.eventId) && c == RowOf(s.stream, c.eventId) {
      assert Processed(s, c.eventId);
      StoredRow(s, c.eventId);
    }
    if c in s.table.clicks {
      IndexedRow(s.table, c);
    }
  }

  lemma IndexedRow(t: Table, c: Click)
    requires TableOk(t) && c in t.clicks
    ensures c.eventId in t.eventIds
  {
  }

  lemma UniqueIsDistinct(clicks: seq<Click>)
    requires UniqueIds(clicks)
    ensures Distinct(clicks)
  {
  }

  // Confluence: once nothing is pending, the table is determined by what was acknowledged, up to
  // row order, however the entries were batched, retried, reclaimed or shared among consumers.
  lemma Confluence(run: seq<State>, other: seq<State>)
    requires IsRun(run) && IsRun(other)
    requires Last(run).pending == Last(other).pending == {}
    requires Last(run).acked == Last(other).acked
    requires forall id :: id in Last(run).acked && id in Last(run).stream && id in Last(other).stream
               ==> Last(run).stream[id] == Last(other).stream[id]
    ensures multiset(Last(run).table.clicks) == multiset(Last(other).table.clicks)
  {
    hide Next, Inv;
    var s, t := Last(run), Last(other);
    InvRun(run, |run| - 1);
    InvRun(other, |other| - 1);
    forall c ensures c in s.table.clicks <==> c in t.table.clicks {
      SameRow(s, t, c);
    }
    RowsAreEntries(run);
    RowsAreEntries(other);
    UniqueIsDistinct(s.table.clicks);
    UniqueIsDistinct(t.table.clicks);
    SameElementsPermutation(s.table.clicks, t.table.clicks);
  }

  lemma SameRow(s: State, t: State, c: Click)
    requires Inv(s) && Inv(t) && s.pending == t.pending == {} && s.acked == t.acked
    requires forall id :: id in s.acked && id in s.stream && id in t.stream ==> s.stream[id] == t.stream[id]
    ensures c in s.table.clicks <==> c in t.table.clicks
  {
    hide Inv, Parse;
    QuietRows(s, c);
    QuietRows(t, c);
    if c.eventId in s.acked {
      AckedKnown(s, c.eventId);
      AckedKnown(t, c.eventId);
    }
  }

  lemma AckedKnown(s: State, id: StreamId)
    requires Inv(s) && id in s.acked
    ensures id in s.stream
  {
    hide TableOk, BatchOk, AcceptedId, RowOf;
  }

  // ---- stats rows under any interleaving ----

  // The row was computed from the table as it stood at some state of the run.
  ghost predicate FromSnapshot(run: seq<State>, key: DayKey, stats: Stats) {
    exists i :: 0 <= i < |run| && stats == DayStats(run[i].table.clicks, key)
  }

  ghost predicate Snapshots(run: seq<State>, s: State) {
    && (forall key :: key in s.stats ==> FromSnapshot(run, key, s.stats[key]))
    && (forall c :: c in s.batches && s.batches[c].read.Some?
          ==> FromSnapshot(run, s.batches[c].read.value.key, s.batches[c].read.value.stats))
  }

  lemma SnapshotsStep(run: seq<State>, s: State, t: State)
    requires Snapshots(run, s) && Next(s, t) && s in run
    ensures Snapshots(run, t)
  {
    hide DayStats, FromSnapshot, InsertRow, Insertable, KeysOf, Parse, ClickOf;
    var step :| Enabled(s, step) && t == Apply(s, step);
    if step.Recompute? {
      SnapshotTaken(run, s, step.key);
    }
    forall key | key in t.stats ensures FromSnapshot(run, key, t.stats[key]) {
      if step.Upsert? && key == s.batches[step.c].read.value.key {
      } else {
        assert key in s.stats && t.stats[key] == s.stats[key];
      }
    }
  }

  lemma SnapshotTaken(run: seq<State>, s: State, key: DayKey)
    requires s in run
    ensures FromSnapshot(run, key, DayStats(s.table.clicks, key))
  {
    hide DayStats;
    var i :| 0 <= i < |run| && run[i] == s;
  }

  lemma {:induction false} SnapshotsRun(run: seq<State>, i: nat)
    requires IsRun(run) && i < |run|
    ensures Snapshots(run, run[i])
  {
    hide DayStats, FromSnapshot, Next;
    if i > 0 {
      SnapshotsRun(run, i - 1);
      hide Snapshots;
      SnapshotsStep(run, run[i - 1], run[i]);
    }
  }

  // Every stored stats row is the exact aggregate of its window in an earlier state of the run, so
  // it never over-counts, even when a slow consumer overwrites a newer row with an older one; and
  // it is exact now if and only if no click has been inserted in its window since that state.
  lemma StatsRowIsSnapshot(run: seq<State>, key: DayKey) returns (i: nat)
    requires IsRun(run) && key in Last(run).stats
    ensures i < |run| && run[i].table.clicks <= Last(run).table.clicks
    ensures Last(run).stats[key] == DayStats(run[i].table.clicks, key)
    ensures Below(Last(run).stats[key], DayStats(Last(run).table.clicks, key))
    ensures Last(run).stats[key] == DayStats(Last(run).table.clicks, key)
       <==> forall c :: c in Last(run).table.clicks[|run[i].table.clicks|..] ==> KeyOf(c) != key
  {
    hide Next, Inv, Below, DayStats;
    SnapshotsRun(run, |run| - 1);
    i :| 0 <= i < |run| && Last(run).stats[key] == DayStats(run[i].table.clicks, key);
    InvRun(run, |run| - 1);
    hide IsRun;
    OlderIsBelow(run[i].table.clicks, Last(run).table.clicks, key);
    SnapshotExactIff(run[i].table.clicks, Last(run).table.clicks, key);
  }

  lemma OlderIsBelow(before: seq<Click>, now: seq<Click>, key: DayKey)
    requires before <= now
    ensures Below(DayStats(before, key), DayStats(now, key))
  {
    hide Below, Aggregate;
    assert now == before + now[|before|..];
    WindowConcat(before, now[|before|..], key);
    AggregateGrows(Window(before, key), Window(now, key));
  }

  // ---- exact stats when consumers do not share a bucket ----

  // The stored row says what the table says; no row is needed for an empty window.
  ghost predicate Exact(s: State, key: DayKey) {
    if key in s.stats then s.stats[key] == DayStats(s.table.clicks, key) else Window(s.table.clicks, key) == []
  }

  // An entry of this bucket is delivered and not yet acknowledged.
  ghost predicate Awaiting(s: State, key: DayKey) {
    exists id :: id in s.pending && AcceptedId(s.stream, id) && KeyOf(RowOf(s.stream, id)) == key
  }

  ghost predicate Fresh(s: State, b: Batch) {
    && (forall key :: key in b.settled ==> Exact(s, key))
    && (b.read.Some? ==> b.read.value.stats == DayStats(s.table.clicks, b.read.value.key))
  }

  ghost predicate Tracking(s: State) {
    && (forall key :: Exact(s, key) || Awaiting(s, key))
    && (forall c :: c in s.batches ==> Fresh(s, s.batches[c]))
  }

  // No two consumers hold events of the same bucket. One consumer at a time is the special case
  // of at most one batch.
  ghost predicate KeyExclusive(s: State) {
    forall c, d :: c in s.batches && d in s.batches && c != d
      ==> KeysOf(s.batches[c].events) !! KeysOf(s.batches[d].events)
  }

  // A batch's figures survive when its own buckets are left alone.
  lemma FreshFrame(s: State, t: State, b: Batch)
    requires Fresh(s, b)
    requires forall key :: key in b.settled || (b.read.Some? && key == b.read.value.key)
               ==> Window(t.table.clicks, key) == Window(s.table.clicks, key)
                   && (key in t.stats <==> key in s.stats) && (key in s.stats ==> t.stats[key] == s.stats[key])
    ensures Fresh(t, b)
  {
    hide Window, Aggregate;
    forall key | key in b.settled ensures Exact(t, key) {
      assert Exact(s, key);
    }
  }

  lemma TrackInsert(s: State, step: Step)
    requires Inv(s) && KeyExclusive(s) && Tracking(s) && Enabled(s, step) && step.InsertOne?
    ensures Tracking(Apply(s, step))
  {
    hide Aggregate, StoreOk, Window, AcceptedId, RowOf;
    var t := Apply(s, step);
    var b := s.batches[step.c];
    var e := b.events[b.inserted];
    assert BatchOk(s, b) && b.settled == {} && b.read.None?;
    hide BatchOk;
    InsertedBucket(s, step);
    forall key ensures Exact(t, key) || Awaiting(t, key) {
      assert Exact(s, key) || Awaiting(s, key);
      WindowAppend(s.table.clicks, e.click, key);
      assert Awaiting(s, key) ==> Awaiting(t, key);
      if t.table != s.table && key != KeyOf(e.click) {
        assert Window(t.table.clicks, key) == Window(s.table.clicks, key);
      }
    }
    forall c | c in t.batches ensures Fresh(t, t.batches[c]) {
      if c != step.c {
        NotShared(s, c, step.c, e);
        forall key | key != KeyOf(e.click) ensures Window(t.table.clicks, key) == Window(s.table.clicks, key) {
          WindowAppend(s.table.clicks, e.click, key);
        }
        FreshFrame(s, t, s.batches[c]);
      }
    }
  }

  // A new row belongs to an entry that is still pending; acknowledged entries have their rows.
  lemma InsertedBucket(s: State, step: Step)
    requires Inv(s) && Enabled(s, step) && step.InsertOne?
    ensures var e := s.batches[step.c].events[s.batches[step.c].inserted];
            e.click.eventId !in s.table.eventIds ==> Awaiting(Apply(s, step), KeyOf(e.click))
  {
    hide TableOk, RowOf;
    var b := s.batches[step.c];
    EventRow(s, b, b.inserted);
    var id := b.events[b.inserted].click.eventId;
    assert id in s.acked ==> Processed(s, id);
    assert id in s.pending || id in s.acked;
  }

  // Another consumer's figures are not about the bucket of an event held here.
  lemma NotShared(s: State, c: Consumer, d: Consumer, e: ClickEvent)
    requires Inv(s) && KeyExclusive(s) && c in s.batches && d in s.batches && c != d && e in s.batches[d].events
    ensures KeyOf(e.click) !in s.batches[c].settled
    ensures s.batches[c].read.Some? ==> s.batches[c].read.value.key != KeyOf(e.click)
  {
    hide StoreOk, AcceptedId, RowOf;
    assert BatchOk(s, s.batches[c]);
    assert KeyOf(e.click) in KeysOf(s.batches[d].events);
  }

  lemma TrackUpsert(s: State, step: Step)
    requires Inv(s) && KeyExclusive(s) && Tracking(s) && Enabled(s, step) && step.Upsert?
    ensures Tracking(Apply(s, step))
  {
    hide DayStats, StoreOk, Window, AcceptedId, RowOf;
    var t := Apply(s, step);
    var b := s.batches[step.c];
    assert Fresh(s, b) && BatchOk(s, b);
    hide BatchOk;
    var r := b.read.value;
    assert Exact(t, r.key);
    forall key | Exact(s, key) ensures Exact(t, key) {}
    forall key | Awaiting(s, key) ensures Awaiting(t, key) {}
    var e :| e in b.events && KeyOf(e.click) == r.key;
    forall c | c in t.batches ensures Fresh(t, t.batches[c]) {
      if c != step.c {
        NotShared(s, c, step.c, e);
        FreshFrame(s, t, s.batches[c]);
      }
    }
  }

  // Acknowledging a settled batch leaves no bucket of its entries behind.
  lemma TrackAck(s: State, step: Step)
    requires Inv(s) && Tracking(s) && Enabled(s, step) && step.Ack?
    ensures Tracking(Apply(s, step))
  {
    hide DayStats, StoreOk, Window, RowOf, Parse, BatchOk;
    var t := Apply(s, step);
    var b := s.batches[step.c];
    assert BatchOk(s, b) && Fresh(s, b);
    forall key ensures Exact(t, key) || Awaiting(t, key) {
      assert Exact(s, key) || Awaiting(s, key);
      if Awaiting(s, key) {
        var id :| id in s.pending && AcceptedId(s.stream, id) && KeyOf(RowOf(s.stream, id)) == key;
        if id in b.ids {
          var i := EntryEvent(s, b, id);
          assert b.events[i] in b.events;
          assert Exact(s, key);
        } else {
          assert id in t.pending;
        }
      }
    }
    forall c | c in t.batches ensures Fresh(t, t.batches[c]) {
      FreshFrame(s, t, s.batches[c]);
    }
  }

  lemma TrackOther(s: State, step: Step)
    requires Inv(s) && Tracking(s) && Enabled(s, step)
    requires step.Fetch? || step.ParseOne? || step.Recompute? || step.PublishOne? || step.Retry? || step.Drop?
    ensures Tracking(Apply(s, step))
  {
    hide DayStats, StoreOk, Window, AcceptedId, RowOf;
    var t := Apply(s, step);
    if step.ParseOne? {
      assert BatchOk(s, s.batches[step.c]);
    }
    hide BatchOk;
    forall key ensures Exact(t, key) || Awaiting(t, key) {
      assert Exact(s, key) || Awaiting(s, key);
    }
    forall c | c in t.batches && c != step.c ensures Fresh(t, t.batches[c]) {
      FreshFrame(s, t, s.batches[c]);
    }
    if step.c in t.batches {
      if step.c in s.batches {
        assert Fresh(s, s.batches[step.c]);
        forall key | key in t.batches[step.c].settled ensures Exact(t, key) {
          assert Exact(s, key);
        }
      }
    }
  }

  lemma TrackStep(s: State, t: State)
    requires Inv(s) && KeyExclusive(s) && Tracking(s) && Next(s, t)
    ensures Tracking(t)
  {
    hide Inv, DayStats, KeyExclusive, Tracking;
    var step :| Enabled(s, step) && t == Apply(s, step);
    match step
    case InsertOne(_) => TrackInsert(s, step);
    case Upsert(_) => TrackUpsert(s, step);
    case Ack(_) => TrackAck(s, step);
    case _ => TrackOther(s, step);
  }

  lemma {:induction false} TrackRun(run: seq<State>, i: nat)
    requires IsRun(run) && (forall s :: s in run ==> KeyExclusive(s)) && i < |run|
    ensures Tracking(run[i])
  {
    hide Next, KeyExclusive, Inv;
    if i == 0 {
      assert forall key :: Exact(run[0], key);
    } else {
      TrackRun(run, i - 1);
      hide Tracking;
      InvRun(run, i - 1);
      assert run[i - 1] in run;
      TrackStep(run[i - 1], run[i]);
    }
  }

  // In every run with failures, crashes, retries and reclaims in which no two consumers hold the
  // same bucket at once, each bucket's stats row equals the aggregate of its window, or some
  // delivered entry of the bucket is still unacknowledged.
  lemma ExactOrAwaiting(run: seq<State>, key: DayKey)
    requires IsRun(run) && forall s :: s in run ==> KeyExclusive(s)
    ensures Exact(Last(run), key) || Awaiting(Last(run), key)
  {
    hide Next, KeyExclusive, Exact, Awaiting;
    TrackRun(run, |run| - 1);
  }

  // With nothing pending every row is exact, so the daily totals of a link add up to its clicks.
  function StoredDays(stats: map<DayKey, Stats>, linkId: string, from: int, to: int): nat
    decreases if from < to then to - from else 0
  {
    if from >= to then 0
    else
      var key := DayKey(linkId, to - 1);
      (if key in stats then stats[key].total else 0) + StoredDays(stats, linkId, from, to - 1)
  }

  lemma {:induction false} QuietTotals(run: seq<State>, linkId: string, from: int, to: int)
    requires IsRun(run) && (forall s :: s in run ==> KeyExclusive(s)) && Last(run).pending == {}
    ensures StoredDays(Last(run).stats, linkId, from, to) == InDays(Last(run).table.clicks, linkId, from, to)
    decreases if from < to then to - from else 0
  {
    hide Next, KeyExclusive, Window, DayStats;
    var clicks := Last(run).table.clicks;
    if from >= to {
      NoDays(clicks, linkId, from, to);
    } else {
      QuietTotals(run, linkId, from, to - 1);
      ExactOrAwaiting(run, DayKey(linkId, to - 1));
      SplitDay(clicks, linkId, from, to);
      TotalIsWindowSize(clicks, DayKey(linkId, to - 1));
    }
  }

  lemma TotalIsWindowSize(clicks: seq<Click>, key: DayKey)
    ensures DayStats(clicks, key).total == |Window(clicks, key)|
  {
    hide Window, Visitors, ReferrerCounts, CountryCounts;
  }

  // Exactly once: two such runs that acknowledged the same entries end with the same
  // daily_link_stats, however often entries were redelivered and re-counted on the way.
  lemma ExactlyOnce(run: seq<State>, other: seq<State>)
    requires IsRun(run) && IsRun(other)
    requires forall s :: s in run + other ==> KeyExclusive(s)
    requires Last(run).pending == Last(other).pending == {}
    requires Last(run).acked == Last(other).acked
    requires forall id :: id in Last(run).acked && id in Last(run).stream && id in Last(other).stream
               ==> Last(run).stream[id] == Last(other).stream[id]
    ensures Last(run).stats == Last(other).stats
  {
    hide Next, KeyExclusive, Inv, Exact, Awaiting;
    var s, t := Last(run), Last(other);
    assert forall x :: x in run ==> x in run + other;
    assert forall x :: x in other ==> x in run + other;
    InvRun(run, |run| - 1);
    InvRun(other, |other| - 1);
    Confluence(run, other);
    forall key ensures key in s.stats <==> key in t.stats
               ensures key in s.stats ==> s.stats[key] == t.stats[key]
    {
      ExactOrAwaiting(run, key);
      ExactOrAwaiting(other, key);
      NoneAwaiting(s, key);
      NoneAwaiting(t, key);
      SameBucket(s, t, key);
    }
  }

  lemma NoneAwaiting(s: State, key: DayKey)
    requires s.pending == {}
    ensures !Awaiting(s, key)
  {
  }

  lemma StatsNotEmpty(s: State, key: DayKey)
    requires Inv(s) && key in s.stats
    ensures Window(s.table.clicks, key) != []
  {
    hide TableOk, BatchOk, AcceptedId, RowOf, Processed;
    var c :| c in s.table.clicks && KeyOf(c) == key;
    WindowMembers(s.table.clicks, key, c);
  }

  lemma {:induction false} WindowPermutation(a: seq<Click>, b: seq<Click>, key: DayKey)
    requires multiset(a) == multiset(b)
    ensures multiset(Window(a, key)) == multiset(Window(b, key))
    decreases |a|
  {
    assert |a| == |multiset(a)| == |multiset(b)| == |b|;
    if a != [] {
      var init, last := a[..|a| - 1], a[|a| - 1];
      assert a == init + [last];
      var before, after := Extract(b, last);
      assert multiset(init) == multiset(a) - multiset{last};
      WindowPermutation(init, before + after, key);
      WindowConcat(before, after, key);
      WindowConcat(before + [last], after, key);
      WindowAppend(before, last, key);
    }
  }

  lemma SameBucket(s: State, t: State, key: DayKey)
    requires Inv(s) && Inv(t) && Exact(s, key) && Exact(t, key)
    requires multiset(s.table.clicks) == multiset(t.table.clicks)
    ensures key in s.stats <==> key in t.stats
    ensures key in s.stats ==> s.stats[key] == t.stats[key]
  {
    hide Inv, Window, Aggregate;
    var a, b := Window(s.table.clicks, key), Window(t.table.clicks, key);
    WindowPermutation(s.table.clicks, t.table.clicks, key);
    assert |a| == |multiset(a)| == |multiset(b)| == |b|;
    AggregatePermutation(a, b);
    if key in s.stats {
      StatsNotEmpty(s, key);
    }
    if key in t.stats {
      StatsNotEmpty(t, key);
    }
  }
}
