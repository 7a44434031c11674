// The click_events and daily_link_stats tables and the statements the repository runs on them
// (internal/repository/click_event.go). A statement may fail; which ones do is left open.
module ClickEvents {
  import opened Util
  import opened Clicks
  import opened DailyStats
  import opened Environments

  // click_events: its rows in insertion order, the unique index on event_id and the primary keys in use.
  datatype Table = Table(clicks: seq<Click>, eventIds: set<StreamId>, rowIds: set<RowId>)

  const EMPTY_TABLE: Table := Table([], {}, {})

  // The index lists exactly the ids of the rows, no two rows share an id, and each has its own key.
  ghost predicate TableOk(t: Table) {
    && UniqueIds(t.clicks)
    && Indexed(t.clicks, t.eventIds)
    && |t.rowIds| == |t.eventIds| == |t.clicks|
    && (forall c :: c in t.clicks ==> Storable(c))
  }

  // A new event whose primary key is taken is refused; a known event is skipped before that. Values
  // the database cannot hold are refused in any case.
  predicate Insertable(t: Table, e: ClickEvent) {
    Storable(e.click) && (e.click.eventId in t.eventIds || e.id !in t.rowIds)
  }

  predicate AllStorable(events: seq<ClickEvent>) {
    forall i :: 0 <= i < |events| ==> Storable(events[i].click)
  }

  predicate AllSound(events: seq<ClickEvent>) {
    forall i :: 0 <= i < |events| ==> Sound(events[i])
  }

  predicate AllAnnounceable(events: seq<ClickEvent>) {
    forall i :: 0 <= i < |events| ==> Announceable(events[i])
  }

  // INSERT ... ON CONFLICT (event_id) DO NOTHING
  function InsertRow(t: Table, e: ClickEvent): (r: Table)
    requires Insertable(t, e)
    ensures t.clicks <= r.clicks && r.eventIds == t.eventIds + {e.click.eventId}
  {
    if e.click.eventId in t.eventIds then t
    else Table(t.clicks + [e.click], t.eventIds + {e.click.eventId}, t.rowIds + {e.id})
  }

  lemma UniqueAppend(clicks: seq<Click>, c: Click)
    requires UniqueIds(clicks) && forall x :: x in clicks ==> x.eventId != c.eventId
    ensures UniqueIds(clicks + [c])
  {
    forall i | 0 <= i < |clicks| ensures clicks[i].eventId != c.eventId {
      assert clicks[i] in clicks;
    }
  }

  // The index lists exactly the ids of the rows.
  ghost predicate Indexed(clicks: seq<Click>, ids: set<StreamId>) {
    && (forall c :: c in clicks ==> c.eventId in ids)
    && (forall id :: id in ids ==> exists c :: c in clicks && c.eventId == id)
  }

  lemma IndexAppend(clicks: seq<Click>, ids: set<StreamId>, c: Click)
    requires Indexed(clicks, ids)
    ensures Indexed(clicks + [c], ids + {c.eventId})
  {
    hide Storable;
    assert forall x :: x in clicks + [c] <==> x in clicks || x == c;
    forall id | id in ids + {c.eventId} ensures exists x :: x in clicks + [c] && x.eventId == id {
      if id in ids {
        var x :| x in clicks && x.eventId == id;
        assert x in clicks + [c];
      } else {
        assert c in clicks + [c];
      }
    }
  }

  lemma InsertKeepsTable(t: Table, e: ClickEvent)
    requires TableOk(t) && Insertable(t, e)
    ensures TableOk(InsertRow(t, e))
  {
    if e.click.eventId !in t.eventIds {
      UniqueAppend(t.clicks, e.click);
      IndexAppend(t.clicks, t.eventIds, e.click);
      hide UniqueIds, Storable, Indexed;
    }
  }

  // The table after some of the events, in order, were inserted.
  ghost predicate Inserted(t: Table, events: seq<ClickEvent>, r: Table)
    decreases |events|
  {
    if events == [] then r == t
    else Insertable(t, events[0]) && Inserted(InsertRow(t, events[0]), events[1..], r)
  }

  lemma NothingInserted(t: Table)
    ensures Inserted(t, [], t)
  {
  }

  lemma {:induction false} InsertedAppend(t: Table, events: seq<ClickEvent>, m: Table, e: ClickEvent)
    requires Inserted(t, events, m) && Insertable(m, e)
    ensures Inserted(t, events + [e], InsertRow(m, e))
    decreases |events|
  {
    assert (events + [e])[0] == if events == [] then e else events[0];
    if events == [] {
      assert (events + [e])[1..] == [];
    } else {
      assert (events + [e])[1..] == events[1..] + [e];
      InsertedAppend(InsertRow(t, events[0]), events[1..], m, e);
    }
  }

  lemma {:induction false} InsertedJoin(t: Table, a: seq<ClickEvent>, m: Table, b: seq<ClickEvent>, r: Table)
    requires Inserted(t, a, m) && Inserted(m, b, r)
    ensures Inserted(t, a + b, r)
    decreases |a|
  {
    if a == [] {
      assert a + b == b;
    } else {
      assert (a + b)[1..] == a[1..] + b;
      InsertedJoin(InsertRow(t, a[0]), a[1..], m, b, r);
    }
  }

  lemma {:induction false} InsertedSplit(t: Table, a: seq<ClickEvent>, b: seq<ClickEvent>, r: Table) returns (m: Table)
    requires Inserted(t, a + b, r)
    ensures Inserted(t, a, m) && Inserted(m, b, r)
    decreases |a|
  {
    if a == [] {
      assert a + b == b;
      m := t;
    } else {
      assert (a + b)[1..] == a[1..] + b;
      m := InsertedSplit(InsertRow(t, a[0]), a[1..], b, r);
    }
  }

  lemma {:induction false} KnownEventsSkipped(t: Table, events: seq<ClickEvent>, r: Table)
    requires Inserted(t, events, r) && forall e :: e in events ==> e.click.eventId in t.eventIds
    ensures r == t
    decreases |events|
  {
    if events != [] {
      assert events[0] in events;
      KnownEventsSkipped(t, events[1..], r);
    }
  }

  lemma {:induction false} InsertedIndex(t: Table, events: seq<ClickEvent>, r: Table)
    requires Inserted(t, events, r)
    ensures t.eventIds <= r.eventIds && forall e :: e in events ==> e.click.eventId in r.eventIds
    decreases |events|
  {
    if events != [] {
      InsertedIndex(InsertRow(t, events[0]), events[1..], r);
      assert events == [events[0]] + events[1..];
    }
  }

  // Idempotence of retries: inserting one prefix of a batch and then another leaves what
  // inserting the longer one alone would have left.
  lemma RetryInsertsOnce(t: Table, events: seq<ClickEvent>, first: nat, m: Table, second: nat, r: Table)
    requires first <= |events| && second <= |events|
    requires Inserted(t, events[..first], m) && Inserted(m, events[..second], r)
    ensures Inserted(t, events[..if first <= second then second else first], r)
  {
    InsertedIndex(t, events[..first], m);
    if second <= first {
      assert forall e :: e in events[..second] ==> e in events[..first];
      KnownEventsSkipped(m, events[..second], r);
    } else {
      assert events[..second] == events[..first] + events[first..second];
      var k := InsertedSplit(m, events[..first], events[first..second], r);
      KnownEventsSkipped(m, events[..first], k);
      InsertedJoin(t, events[..first], m, events[first..second], r);
    }
  }

  // Inserting only adds rows; afterwards every event is there.
  lemma {:induction false} InsertedIds(t: Table, events: seq<ClickEvent>, r: Table)
    requires Inserted(t, events, r) && TableOk(t)
    ensures TableOk(r) && t.clicks <= r.clicks
    ensures r.eventIds == t.eventIds + set e | e in events :: e.click.eventId
    decreases |events|
  {
    hide TableOk;
    if events != [] {
      var first, rest := events[0], events[1..];
      InsertKeepsTable(t, first);
      InsertedIds(InsertRow(t, first), rest, r);
      hide Inserted, InsertRow, Insertable;
      assert forall e :: e in events <==> e == first || e in rest by {
        assert events == [first] + rest;
      }
    }
  }

  // A row that was added is the click of one of the events.
  lemma {:induction false} InsertedRows(t: Table, events: seq<ClickEvent>, r: Table, c: Click)
    requires Inserted(t, events, r)
    ensures c in r.clicks ==> c in t.clicks || exists e :: e in events && e.click == c
    decreases |events|
  {
    if events != [] {
      InsertedRows(InsertRow(t, events[0]), events[1..], r, c);
      assert events[0] in events && forall e :: e in events[1..] ==> e in events;
    }
  }

  // The two lemmas above, of the events that were reached.
  lemma InsertedInPlainTerms(t: Table, events: seq<ClickEvent>, applied: nat, r: Table)
    requires TableOk(t) && applied <= |events| && Inserted(t, events[..applied], r)
    ensures t.clicks <= r.clicks
    ensures forall i, j :: 0 <= i < j < |r.clicks| ==> r.clicks[i].eventId != r.clicks[j].eventId
    ensures forall c :: c in r.clicks ==> c in t.clicks || exists e :: e in events && e.click == c
    ensures applied == |events| ==> forall e :: e in events ==> exists c :: c in r.clicks && c.eventId == e.click.eventId
  {
    hide Inserted, Storable, Indexed;
    InsertedIds(t, events[..applied], r);
    TableUnique(r);
    hide TableOk;
    forall c | c in r.clicks ensures c in t.clicks || exists e :: e in events && e.click == c {
      InsertedRows(t, events[..applied], r, c);
    }
    if applied == |events| {
      assert events[..applied] == events;
      forall e | e in events ensures exists c :: c in r.clicks && c.eventId == e.click.eventId {
        RowOfId(r, e.click.eventId);
      }
    }
  }

  lemma TableUnique(t: Table)
    requires TableOk(t)
    ensures forall i, j :: 0 <= i < j < |t.clicks| ==> t.clicks[i].eventId != t.clicks[j].eventId
  {
    hide Storable, Indexed;
  }

  lemma RowOfId(t: Table, id: StreamId)
    requires TableOk(t) && id in t.eventIds
    ensures exists c :: c in t.clicks && c.eventId == id
  {
    hide Storable;
  }

  lemma AllStorableInPlainTerms(events: seq<ClickEvent>)
    ensures AllStorable(events) <==> forall e :: e in events ==>
              && '\0' !in e.click.shortCode && '\0' !in e.click.linkId && '\0' !in e.click.referrer && '\0' !in e.click.userAgent
              && '\0' !in e.click.visitorHash && '\0' !in e.click.countryCode
              && e.click.clickedAt < 9_224_318_016_000_000 && (|e.click.linkId| <= 2_679 || e.click.longIdFits)
  {
    hide Storable;
    assert AllStorable(events) <==> forall e :: e in events ==> Storable(e.click) by {
      assert forall i :: 0 <= i < |events| ==> events[i] in events;
    }
    forall e: ClickEvent { StorableInPlainTerms(e.click); }
  }

  function KeysOf(events: seq<ClickEvent>): set<DayKey> {
    set e | e in events :: KeyOf(e.click)
  }

  // The buckets of the events: a link, and a day of which one of its clicks is between the two midnights.
  lemma KeysInPlainTerms(events: seq<ClickEvent>, k: DayKey)
    ensures k in KeysOf(events) <==>
              exists e :: e in events && e.click.linkId == k.linkId
                          && k.day * 86_400_000 <= e.click.clickedAt < (k.day + 1) * 86_400_000
  {
    if e :| e in events && e.click.linkId == k.linkId && k.day * 86_400_000 <= e.click.clickedAt < (k.day + 1) * 86_400_000 {
      assert KeyOf(e.click) == k;
    }
  }

  // daily_link_stats after the rows of the given keys were recomputed from the table and upserted.
  function Refreshed(stats: map<DayKey, Stats>, clicks: seq<Click>, keys: seq<DayKey>): map<DayKey, Stats> {
    if keys == [] then stats
    else
      var last := keys[|keys| - 1];
      Refreshed(stats, clicks, keys[..|keys| - 1])[last := DayStats(clicks, last)]
  }

  lemma {:induction false} RefreshedMeaning(stats: map<DayKey, Stats>, clicks: seq<Click>, keys: seq<DayKey>, key: DayKey)
    ensures var r := Refreshed(stats, clicks, keys);
            && (key in keys ==> key in r && r[key] == DayStats(clicks, key))
            && (key !in keys ==> (key in r <==> key in stats) && (key in stats ==> r[key] == stats[key]))
  {
    hide DayStats;
    if keys != [] {
      var init, last := keys[..|keys| - 1], keys[|keys| - 1];
      RefreshedMeaning(stats, clicks, init, key);
      assert keys == init + [last];
    }
  }

  class ClickEventRepository {
    const env: Environment
    var clickEvents: Table
    var dailyStats: map<DayKey, Stats>

    ghost predicate Valid() reads this {
      TableOk(clickEvents)
    }

    constructor (env: Environment)
      ensures Valid() && this.env == env && clickEvents == EMPTY_TABLE && dailyStats == map[]
    {
      this.env := env;
      clickEvents := EMPTY_TABLE;
      dailyStats := map[];
    }

    // A failed batch may have left any prefix of its rows, even all of them.
    method BulkInsert(events: seq<ClickEvent>) returns (ok: bool, ghost applied: nat)
      requires Valid()
      modifies this`clickEvents, env`faults
      ensures Valid()
      ensures applied <= |events| && (ok ==> applied == |events|)
      ensures env.faults >= old(env.faults)
      ensures !ok && AllStorable(events) ==> env.faults > old(env.faults)
      ensures ok ==> AllStorable(events)
      ensures Inserted(old(clickEvents), events[..applied], clickEvents)
      ensures old(clickEvents.clicks) <= clickEvents.clicks
      ensures forall c :: c in clickEvents.clicks ==> c in old(clickEvents.clicks) || exists e :: e in events && e.click == c
      ensures forall i, j :: 0 <= i < j < |clickEvents.clicks| ==> clickEvents.clicks[i].eventId != clickEvents.clicks[j].eventId
      ensures ok ==> forall e :: e in events ==> exists c :: c in clickEvents.clicks && c.eventId == e.click.eventId
      ensures var writable := forall e :: e in events ==>
                && '\0' !in e.click.shortCode && '\0' !in e.click.linkId && '\0' !in e.click.referrer && '\0' !in e.click.userAgent
                && '\0' !in e.click.visitorHash && '\0' !in e.click.countryCode
                && e.click.clickedAt < 9_224_318_016_000_000 && (|e.click.linkId| <= 2_679 || e.click.longIdFits);
              (ok ==> writable) && (!ok && writable ==> env.faults > old(env.faults))
    {
      hide TableOk, Storable, Inserted, InsertRow;
      assert Inserted(clickEvents, [], clickEvents) by { NothingInserted(clickEvents); }
      assert events[..0] == [] && events[..|events|] == events;
      ok, applied := true, 0;
      for i := 0 to |events|
        invariant Valid() && applied == i && ok
        invariant Inserted(old(clickEvents), events[..i], clickEvents)
        invariant env.faults == old(env.faults) && AllStorable(events[..i])
      {
        var broken := env.Fails();
        if broken || !Storable(events[i].click) {
          ok := false;
          break;
        }
        if !Insertable(clickEvents, events[i]) {
          env.Collides();
          ok := false;
          break;
        }
        InsertedAppend(old(clickEvents), events[..i], clickEvents, events[i]);
        assert events[..i + 1] == events[..i] + [events[i]];
        InsertKeepsTable(clickEvents, events[i]);
        clickEvents := InsertRow(clickEvents, events[i]);
        applied := i + 1;
      }
      if ok {
        var unanswered := env.Fails();
        ok := !unanswered;
      }
      InsertedInPlainTerms(old(clickEvents), events, applied, clickEvents);
      AllStorableInPlainTerms(events);
    }

    // uniqueDailyKeys: the buckets the events touch, each once, in no particular order.
    static method UniqueDailyKeys(events: seq<ClickEvent>) returns (keys: seq<DayKey>)
      ensures Distinct(keys)
      ensures forall k :: k in keys <==> k in KeysOf(events)
      ensures forall k :: k in keys <==>
                exists e :: e in events && e.click.linkId == k.linkId
                            && k.day * 86_400_000 <= e.click.clickedAt < (k.day + 1) * 86_400_000
    {
      var seen: set<DayKey> := {};
      for i := 0 to |events|
        invariant seen == KeysOf(events[..i])
      {
        assert events[..i + 1] == events[..i] + [events[i]];
        seen := seen + {KeyOf(events[i].click)};
      }
      assert events[..|events|] == events;
      keys := [];
      while seen != {}
        invariant Distinct(keys)
        invariant forall k :: k in KeysOf(events) <==> k in seen || k in keys
        invariant forall k :: k in seen ==> k !in keys
        decreases seen
      {
        var k :| k in seen;
        seen := seen - {k};
        keys := keys + [k];
      }
      forall k ensures k in KeysOf(events) <==>
                         exists e :: e in events && e.click.linkId == k.linkId
                                     && k.day * 86_400_000 <= e.click.clickedAt < (k.day + 1) * 86_400_000
      {
        KeysInPlainTerms(events, k);
      }
    }

    // The rows of one window, in whatever order the database returns them.
    method QueryWindow(key: DayKey) returns (rows: seq<Click>)
      ensures multiset(rows) == multiset(Window(clickEvents.clicks, key))
    {
      var left := multiset(Window(clickEvents.clicks, key));
      rows := [];
      while left != multiset{}
        invariant multiset(rows) + left == multiset(Window(clickEvents.clicks, key))
        decreases |left|
      {
        var c :| c in left;
        left := left - multiset{c};
        rows := rows + [c];
      }
    }

    method RecalculateDailyStat(key: DayKey) returns (acc: Option<Stats>)
      modifies env`faults
      ensures env.faults >= old(env.faults)
      ensures acc.None? && Recomputable(key) ==> env.faults > old(env.faults)
      ensures acc.Some? ==> Recomputable(key)
      ensures acc.Some? ==> (key.day + 1) * 86_400_000 < 9_224_318_016_000_000
      ensures acc.None? && (key.day + 1) * 86_400_000 < 9_224_318_016_000_000 ==> env.faults > old(env.faults)
      ensures acc.Some? ==> acc.value == DayStats(clickEvents.clicks, key)
    {
      var failed := env.Fails();
      if failed || !Recomputable(key) {
        return None;
      }
      var rows := QueryWindow(key);
      var stats := AccumulateDailyStats(rows);
      AggregatePermutation(rows, Window(clickEvents.clicks, key));
      return Some(stats);
    }

    // UpdateDailyStats: recompute and upsert bucket by bucket, stopping at the first failure.
    // An upsert may have been applied although it is reported as failed.
    method UpdateDailyStats(events: seq<ClickEvent>) returns (ok: bool, ghost written: seq<DayKey>)
      modifies this`dailyStats, env`faults
      ensures env.faults >= old(env.faults)
      ensures !ok && (forall k :: k in KeysOf(events) ==> Recomputable(k)) ==> env.faults > old(env.faults)
      ensures Distinct(written) && (forall k :: k in written ==> k in KeysOf(events) && Recomputable(k))
      ensures ok ==> forall k :: k in KeysOf(events) ==> k in written
      ensures dailyStats == Refreshed(old(dailyStats), clickEvents.clicks, written)
    {
      hide DayStats;
      written := [];
      var keys := UniqueDailyKeys(events);
      for i := 0 to |keys|
        invariant written == keys[..i] && env.faults >= old(env.faults)
        invariant forall k :: k in written ==> Recomputable(k)
        invariant dailyStats == Refreshed(old(dailyStats), clickEvents.clicks, written)
      {
        var acc := RecalculateDailyStat(keys[i]);
        if acc.None? {
          return false, written;
        }
        var lost := env.Fails();
        if lost {
          return false, written;
        }
        dailyStats := dailyStats[keys[i] := acc.value];
        written := written + [keys[i]];
        assert written == keys[..i + 1] && written[..i] == keys[..i];
        var unanswered := env.Fails();
        if unanswered {
          return false, written;
        }
      }
      assert written == keys;
      ok := true;
    }
  }
}
