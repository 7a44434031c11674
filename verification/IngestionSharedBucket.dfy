// Two consumers on one bucket: the interleaving in which daily stats end up stale with nothing left
// to repair them. Horizontal scaling by consumer id (docs/adr/0003-click-event-ingestion.md) meets it.
module IngestionSharedBucket {
  import opened Util
  import opened Clicks
  import opened DailyStats
  import opened ClickEvents
  import opened IngestionProtocol
  import opened IngestionTheorems
  import opened IngestionVetting

  lemma Extend(run: seq<State>, step: Step) returns (r: seq<State>)
    requires IsRun(run) && Enabled(Last(run), step)
    ensures IsRun(r) && r != [] && Last(r) == Apply(Last(run), step)
  {
    hide Enabled, Apply;
    r := run + [Apply(Last(run), step)];
    assert Next(Last(run), Last(r));
    hide Next;
    forall i | 0 < i < |r| ensures Next(r[i - 1], r[i]) {
      if i < |run| {
        assert r[i - 1] == run[i - 1] && r[i] == run[i];
      }
    }
  }

  function EventOf(stream: Stream, id: StreamId, rowId: RowId): ClickEvent
    requires AcceptedId(stream, id)
  {
    EntryEventOf(stream, id).(id := rowId)
  }

  // Fetch, parse, insert and recompute one entry, up to just before its upsert.
  function Counted(s: State, c: Consumer, id: StreamId, rowId: RowId): State
    requires AcceptedId(s.stream, id) && Storable(RowOf(s.stream, id))
    requires id !in s.table.eventIds && rowId !in s.table.rowIds
  {
    var t := Stored(s, c, id, rowId);
    var key := KeyOf(RowOf(s.stream, id));
    t.(batches := t.batches[c := t.batches[c].(read := Some(Reading(key, DayStats(t.table.clicks, key))))])
  }

  function Received(s: State, c: Consumer, id: StreamId, rowId: RowId): State
    requires AcceptedId(s.stream, id)
  {
    s.(pending := s.pending + {id},
       batches := s.batches[c := Batch([id], 1, [EventOf(s.stream, id, rowId)], 0, {}, None, 0)])
  }

  function Stored(s: State, c: Consumer, id: StreamId, rowId: RowId): State
    requires AcceptedId(s.stream, id) && Storable(RowOf(s.stream, id))
    requires id !in s.table.eventIds && rowId !in s.table.rowIds
  {
    var e := EventOf(s.stream, id, rowId);
    s.(pending := s.pending + {id}, table := InsertRow(s.table, e),
       batches := s.batches[c := Batch([id], 1, [e], 1, {}, None, 0)])
  }

  lemma Receive(run: seq<State>, c: Consumer, id: StreamId, rowId: RowId) returns (r: seq<State>)
    requires IsRun(run)
    requires var s := Last(run); AcceptedId(s.stream, id) && id !in s.acked && c !in s.batches
    ensures IsRun(r) && r != [] && Last(r) == Received(Last(run), c, id, rowId)
  {
    assert run != [];
    hide Next, DayStats, ValidPayload, IsRun, Storable;
    var s := Last(run);
    r := Extend(run, Fetch(c, [id]));
    assert Last(r).batches == s.batches[c := Batch([id], 0, [], 0, {}, None, 0)];
    assert (set x | x in [id]) == {id};
    r := Extend(r, ParseOne(c, rowId));
    assert Last(r).batches[c] == Batch([id], 1, [EventOf(s.stream, id, rowId)], 0, {}, None, 0);
    assert Last(r).batches == Received(s, c, id, rowId).batches;
  }

  lemma Store(run: seq<State>, c: Consumer, id: StreamId, rowId: RowId) returns (r: seq<State>)
    requires IsRun(run)
    requires var s := Last(run);
             && AcceptedId(s.stream, id) && id !in s.acked && c !in s.batches
             && id !in s.table.eventIds && rowId !in s.table.rowIds && Storable(RowOf(s.stream, id))
    ensures IsRun(r) && r != [] && Last(r) == Stored(Last(run), c, id, rowId)
  {
    assert run != [];
    hide Next, DayStats, IsRun, Storable, AcceptedId, Parse, KeyOf, KeysOf, InsertRow;
    var s := Last(run);
    RowId(s.stream, id);
    hide ClickOf;
    r := Receive(run, c, id, rowId);
    r := Extend(r, InsertOne(c));
    assert Last(r).batches == Stored(s, c, id, rowId).batches;
  }

  lemma RowId(stream: Stream, id: StreamId)
    requires AcceptedId(stream, id)
    ensures RowOf(stream, id).eventId == id
  {
  }

  lemma Count(run: seq<State>, c: Consumer, id: StreamId, rowId: RowId) returns (r: seq<State>)
    requires IsRun(run)
    requires var s := Last(run);
             && AcceptedId(s.stream, id) && id !in s.acked && c !in s.batches
             && id !in s.table.eventIds && rowId !in s.table.rowIds && Storable(RowOf(s.stream, id))
             && Recomputable(KeyOf(RowOf(s.stream, id)))
    ensures IsRun(r) && r != [] && Last(r) == Counted(Last(run), c, id, rowId)
  {
    assert run != [];
    hide Next, DayStats, IsRun, Storable, AcceptedId, Parse, ClickOf, KeyOf, Recomputable, InsertRow;
    var s := Last(run);
    var key := KeyOf(RowOf(s.stream, id));
    r := Store(run, c, id, rowId);
    assert EventOf(s.stream, id, rowId).click == RowOf(s.stream, id);
    assert key in KeysOf([EventOf(s.stream, id, rowId)]);
    r := Extend(r, Recompute(c, key));
    assert Last(r).batches == Counted(s, c, id, rowId).batches;
  }

  // Upsert, publish and acknowledge.
  function Finished(s: State, c: Consumer, id: StreamId, r: Reading): State {
    s.(stats := s.stats[r.key := r.stats], pending := s.pending - {id}, acked := s.acked + {id}, batches := s.batches - {c})
  }

  lemma Finish(run: seq<State>, c: Consumer, id: StreamId, e: ClickEvent, reading: Reading) returns (r: seq<State>)
    requires IsRun(run) && c in Last(run).batches && reading.key == KeyOf(e.click) && NoNul(e.ownerId)
    requires Last(run).batches[c] == Batch([id], 1, [e], 1, {}, Some(reading), 0)
    ensures IsRun(r) && r != [] && Last(r) == Finished(Last(run), c, id, reading)
  {
    hide Next, NoNul;
    r := Extend(run, Upsert(c));
    assert KeysOf([e]) == {reading.key};
    r := Extend(r, PublishOne(c));
    r := Extend(r, Ack(c));
    assert (set x | x in [id]) == {id};
    assert Last(r).batches == Last(run).batches - {c};
  }

  // Whatever two valid and sound entries of one bucket are, two consumers can count them so that the older
  // figure overwrites the newer one: everything is acknowledged, nothing is pending, both clicks
  // are stored, and the stats row says one.
  lemma StaleStats(first: Message, second: Message) returns (run: seq<State>)
    requires Parse(first).Accepted? && Parse(second).Accepted?
    requires Sound(ClickEvent(1, Parse(first).payload.ownerId, ClickOf(1, Parse(first).payload)))
    requires Sound(ClickEvent(2, Parse(second).payload.ownerId, ClickOf(2, Parse(second).payload)))
    requires KeyOf(ClickOf(1, Parse(first).payload)) == KeyOf(ClickOf(2, Parse(second).payload))
    ensures IsRun(run)
    ensures var s := Last(run);
            var key := KeyOf(ClickOf(1, Parse(first).payload));
            && s.stream == map[1 := first, 2 := second] && s.acked == {1, 2}
            && s.pending == {} && s.batches == map[]
            && key in s.stats && s.stats[key].total == 1
            && DayStats(s.table.clicks, key).total == 2
            && !Exact(s, key)
  {
    hide DayStats, Next, IsRun, ValidPayload, Enabled, Apply, Window, Storable, Recomputable, NoNul;
    var s0 := Init(map[1 := first, 2 := second]);
    var key := KeyOf(RowOf(s0.stream, 1));
    assert IsRun([s0]) by { InitIsRun(s0.stream); }
    run := Count([s0], 0, 1, 1);
    var s1 := Last(run);
    run := Count(run, 1, 2, 2);
    var s2 := Last(run);
    run := Finish(run, 1, 2, EventOf(s0.stream, 2, 2), s2.batches[1].read.value);
    run := Finish(run, 0, 1, EventOf(s0.stream, 1, 1), s1.batches[0].read.value);
    assert s1.table.clicks == [RowOf(s0.stream, 1)];
    assert s2.table.clicks == [RowOf(s0.stream, 1), RowOf(s0.stream, 2)];
    OneAndTwo(RowOf(s0.stream, 1), RowOf(s0.stream, 2), key);
  }

  lemma OneAndTwo(first: Click, second: Click, key: DayKey)
    requires KeyOf(first) == key && KeyOf(second) == key
    ensures DayStats([first], key).total == 1 && DayStats([first, second], key).total == 2
  {
    hide DayStats;
    assert [] + [first] == [first] && [first] + [second] == [first, second];
    WindowAppend([], first, key);
    WindowAppend([first], second, key);
    TotalIsWindowSize([first], key);
    TotalIsWindowSize([first, second], key);
  }

  lemma InitIsRun(stream: Stream)
    ensures IsRun([Init(stream)])
  {
  }
}
