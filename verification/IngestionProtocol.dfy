// The analytics consumers as a state machine: any number of them, their steps interleaved in any
// order, each free to fail or die between any two steps (internal/analytics/worker.go).
module IngestionProtocol {
  import opened Util
  import opened Clicks
  import opened DailyStats
  import opened ClickEvents

  type Consumer = nat
  type Stream = map<StreamId, Message>

  // A daily aggregate that was computed and not yet written.
  datatype Reading = Reading(key: DayKey, stats: Stats)

  // What a consumer holds in memory between fetching messages and acknowledging them.
  datatype Batch = Batch(
    ids: seq<StreamId>, parsed: nat, events: seq<ClickEvent>,
    inserted: nat, settled: set<DayKey>, read: Option<Reading>, published: nat)

  // stream holds every entry that is ever added; which of them have arrived is up to Fetch.
  // A consumer without a batch is idle.
  datatype State = State(
    stream: Stream, pending: set<StreamId>, acked: set<StreamId>, deadLettered: set<StreamId>,
    table: Table, stats: map<DayKey, Stats>, batches: map<Consumer, Batch>)

  datatype Step =
    | Fetch(c: Consumer, ids: seq<StreamId>)   // XREADGROUP of new entries or XAUTOCLAIM of pending ones
    | ParseOne(c: Consumer, rowId: RowId)      // parse or dead-letter the next message
    | InsertOne(c: Consumer)                   // the next INSERT of BulkInsert
    | Recompute(c: Consumer, key: DayKey)      // recalculateDailyStat
    | Upsert(c: Consumer)                      // upsertDailyStat
    | PublishOne(c: Consumer)                  // PublishClickEvent, or nothing for an event without owner
    | Retry(c: Consumer)                       // the next attempt of processBatchWithRetry
    | Ack(c: Consumer)                         // XACK
    | Drop(c: Consumer)                        // give up with an error, or crash

  function Init(stream: Stream): State {
    State(stream, {}, {}, {}, EMPTY_TABLE, map[], map[])
  }

  function StartBatch(ids: seq<StreamId>): Batch {
    Batch(ids, 0, [], 0, {}, None, 0)
  }

  ghost predicate Enabled(s: State, step: Step) {
    if step.Fetch? then
      && step.c !in s.batches
      && Distinct(step.ids)
      && forall id :: id in step.ids ==> id in s.stream && id !in s.acked
    else
      && step.c in s.batches
      && var b := s.batches[step.c];
         match step
         case ParseOne(_, _) => b.parsed < |b.ids| && b.ids[b.parsed] in s.stream
         case InsertOne(_) => b.parsed == |b.ids| && b.inserted < |b.events| && Insertable(s.table, b.events[b.inserted])
         case Recompute(_, key) =>
           b.parsed == |b.ids| && b.inserted == |b.events| && key in KeysOf(b.events) && Recomputable(key)
         case Upsert(_) => b.read.Some?
         case PublishOne(_) =>
           && b.parsed == |b.ids| && b.inserted == |b.events| && b.settled == KeysOf(b.events)
           && b.published < |b.events| && NoNul(b.events[b.published].ownerId)
         case Ack(_) =>
           && b.parsed == |b.ids| && b.inserted == |b.events| && b.settled == KeysOf(b.events)
           && b.published == |b.events|
         case _ => true
  }

  function Apply(s: State, step: Step): State
    requires Enabled(s, step)
  {
    match step
    case Fetch(c, ids) =>
      s.(pending := s.pending + (set id | id in ids), batches := s.batches[c := StartBatch(ids)])
    case ParseOne(c, rowId) =>
      var b := s.batches[c];
      var id := b.ids[b.parsed];
      (match Parse(s.stream[id])
       case Accepted(p) =>
         var event := ClickEvent(rowId, p.ownerId, ClickOf(id, p));
         s.(batches := s.batches[c := b.(parsed := b.parsed + 1, events := b.events + [event])])
       case Rejected(_) =>
         s.(deadLettered := s.deadLettered + {id}, batches := s.batches[c := b.(parsed := b.parsed + 1)]))
    case InsertOne(c) =>
      var b := s.batches[c];
      s.(table := InsertRow(s.table, b.events[b.inserted]), batches := s.batches[c := b.(inserted := b.inserted + 1)])
    case Recompute(c, key) =>
      s.(batches := s.batches[c := s.batches[c].(read := Some(Reading(key, DayStats(s.table.clicks, key))))])
    case Upsert(c) =>
      var b := s.batches[c];
      var r := b.read.value;
      s.(stats := s.stats[r.key := r.stats], batches := s.batches[c := b.(settled := b.settled + {r.key}, read := None)])
    case PublishOne(c) =>
      s.(batches := s.batches[c := s.batches[c].(published := s.batches[c].published + 1)])
    case Retry(c) =>
      s.(batches := s.batches[c := s.batches[c].(inserted := 0, settled := {}, read := None, published := 0)])
    case Ack(c) =>
      var ids := set id | id in s.batches[c].ids;
      s.(pending := s.pending - ids, acked := s.acked + ids, batches := s.batches - {c})
    case Drop(c) =>
      s.(batches := s.batches - {c})
  }

  ghost predicate Next(s: State, t: State) {
    exists step :: Enabled(s, step) && t == Apply(s, step)
  }

  // A run, given by all the states it passes through.
  ghost predicate IsRun(run: seq<State>) {
    && run != []
    && run[0] == Init(run[0].stream)
    && forall i :: 0 < i < |run| ==> Next(run[i - 1], run[i])
  }

  // ---- what every reachable state satisfies ----

  predicate AcceptedId(stream: Stream, id: StreamId) {
    id in stream && Parse(stream[id]).Accepted?
  }

  // The one row a valid entry can lead to.
  function RowOf(stream: Stream, id: StreamId): Click
    requires AcceptedId(stream, id)
  {
    ClickOf(id, Parse(stream[id]).payload)
  }

  // The rows the valid entries among ids lead to, in order.
  function ValidRows(stream: Stream, ids: seq<StreamId>): seq<Click> {
    if ids == [] then []
    else
      var id := ids[|ids| - 1];
      ValidRows(stream, ids[..|ids| - 1]) + if AcceptedId(stream, id) then [RowOf(stream, id)] else []
  }

  lemma {:induction false} ValidRowsMember(stream: Stream, ids: seq<StreamId>, c: Click)
    ensures c in ValidRows(stream, ids) <==> c.eventId in ids && AcceptedId(stream, c.eventId) && c == RowOf(stream, c.eventId)
  {
    if ids != [] {
      ValidRowsMember(stream, ids[..|ids| - 1], c);
      assert ids == ids[..|ids| - 1] + [ids[|ids| - 1]];
    }
  }

  function ClicksOf(events: seq<ClickEvent>): seq<Click> {
    seq(|events|, i requires 0 <= i < |events| => events[i].click)
  }

  // The entry was stored, or was handed to deadLetterMessage.
  ghost predicate Processed(s: State, id: StreamId) {
    if AcceptedId(s.stream, id) then id in s.table.eventIds else id in s.deadLettered
  }

  // A batch has parsed its messages up to some point, and inserted its events up to some point.
  ghost predicate BatchOk(s: State, b: Batch) {
    && b.parsed <= |b.ids| && b.inserted <= |b.events|
    && (forall id :: id in b.ids ==> id in s.pending || id in s.acked)
    && (forall i :: 0 <= i < b.parsed && !AcceptedId(s.stream, b.ids[i]) ==> b.ids[i] in s.deadLettered)
    && ClicksOf(b.events) == ValidRows(s.stream, b.ids[..b.parsed])
    && (forall i :: 0 <= i < b.inserted ==> b.events[i].click.eventId in s.table.eventIds)
    && (b.inserted > 0 || b.settled != {} || b.read.Some? ==> b.parsed == |b.ids|)
    && (b.settled != {} || b.read.Some? ==> b.inserted == |b.events|)
    && b.settled <= KeysOf(b.events)
    && (b.read.Some? ==> b.read.value.key in KeysOf(b.events))
  }

  // Rows are what their entries say, and every acknowledged entry was dealt with.
  ghost predicate StoreOk(s: State) {
    && TableOk(s.table)
    && s.pending !! s.acked
    && (forall id :: id in s.pending || id in s.acked ==> id in s.stream)
    && (forall c :: c in s.table.clicks ==> AcceptedId(s.stream, c.eventId) && c == RowOf(s.stream, c.eventId))
    && (forall id :: id in s.table.eventIds ==> id in s.pending || id in s.acked)
    && (forall id :: id in s.acked ==> Processed(s, id))
    && (forall id :: id in s.deadLettered ==> id in s.stream && !AcceptedId(s.stream, id))
    && (forall key :: key in s.stats ==> exists c :: c in s.table.clicks && KeyOf(c) == key)
  }

  ghost predicate Inv(s: State) {
    StoreOk(s) && forall c :: c in s.batches ==> BatchOk(s, s.batches[c])
  }

  // Batches stay in order when the shared state only grows.
  lemma BatchFrame(s: State, t: State, b: Batch)
    requires BatchOk(s, b) && t.stream == s.stream
    requires s.pending + s.acked <= t.pending + t.acked && s.deadLettered <= t.deadLettered
    requires s.table.eventIds <= t.table.eventIds
    ensures BatchOk(t, b)
  {
    hide AcceptedId, RowOf;
    forall id | id in b.ids ensures id in t.pending || id in t.acked {
      assert id in s.pending + s.acked;
    }
  }

  lemma OtherBatches(s: State, t: State, c: Consumer)
    requires Inv(s) && t.stream == s.stream
    requires s.pending + s.acked <= t.pending + t.acked && s.deadLettered <= t.deadLettered
    requires s.table.eventIds <= t.table.eventIds
    requires forall d :: d in t.batches && d != c ==> d in s.batches && t.batches[d] == s.batches[d]
    ensures forall d :: d in t.batches && d != c ==> BatchOk(t, t.batches[d])
  {
    hide BatchOk, StoreOk, AcceptedId, RowOf;
    forall d | d in t.batches && d != c ensures BatchOk(t, t.batches[d]) {
      BatchFrame(s, t, s.batches[d]);
    }
  }

  // A parsed event is the row of its entry.
  lemma EventRow(s: State, b: Batch, i: nat)
    requires BatchOk(s, b) && i < |b.events|
    ensures var c := b.events[i].click;
            c.eventId in b.ids && AcceptedId(s.stream, c.eventId) && c == RowOf(s.stream, c.eventId)
  {
    var c := b.events[i].click;
    assert ClicksOf(b.events)[i] == c;
    ValidRowsMember(s.stream, b.ids[..b.parsed], c);
  }

  // A fully parsed batch has an event for each of its valid entries.
  lemma EntryEvent(s: State, b: Batch, id: StreamId) returns (i: nat)
    requires BatchOk(s, b) && b.parsed == |b.ids| && id in b.ids && AcceptedId(s.stream, id)
    ensures i < |b.events| && b.events[i].click == RowOf(s.stream, id) && b.events[i].click.eventId == id
  {
    var c := RowOf(s.stream, id);
    assert b.ids[..b.parsed] == b.ids;
    ValidRowsMember(s.stream, b.ids, c);
    i :| 0 <= i < |b.events| && ClicksOf(b.events)[i] == c;
  }

  // The row under an id that the index lists is the row of its entry.
  lemma StoredRow(s: State, id: StreamId)
    requires StoreOk(s) && id in s.table.eventIds
    ensures AcceptedId(s.stream, id) && RowOf(s.stream, id) in s.table.clicks
  {
    var c :| c in s.table.clicks && c.eventId == id;
  }

  lemma StoreFetch(s: State, step: Step)
    requires StoreOk(s) && Enabled(s, step) && step.Fetch?
    ensures StoreOk(Apply(s, step))
  {
    hide TableOk, AcceptedId, RowOf;
  }

  lemma InvFetch(s: State, step: Step)
    requires Inv(s) && Enabled(s, step) && step.Fetch?
    ensures Inv(Apply(s, step))
  {
    hide AcceptedId, RowOf, StoreOk;
    var t := Apply(s, step);
    assert BatchOk(t, t.batches[step.c]);
    hide BatchOk;
    StoreFetch(s, step);
    OtherBatches(s, t, step.c);
  }

  lemma ParsedBatchOk(s: State, step: Step)
    requires Inv(s) && Enabled(s, step) && step.ParseOne?
    ensures BatchOk(Apply(s, step), Apply(s, step).batches[step.c])
  {
    hide StoreOk, ValidPayload, ClickOf, KeysOf, DayStats;
    var t := Apply(s, step);
    var b, b' := s.batches[step.c], t.batches[step.c];
    var id := b.ids[b.parsed];
    assert BatchOk(s, b);
    hide Inv;
    assert b'.ids[..b'.parsed] == b.ids[..b.parsed] + [id];
    assert b'.ids[..b'.parsed][..b.parsed] == b.ids[..b.parsed];
    if AcceptedId(s.stream, id) {
      assert ClicksOf(b'.events) == ClicksOf(b.events) + [RowOf(s.stream, id)];
    }
  }

  lemma InvParse(s: State, step: Step)
    requires Inv(s) && Enabled(s, step) && step.ParseOne?
    ensures Inv(Apply(s, step))
  {
    hide BatchOk, Parse, RowOf;
    ParsedBatchOk(s, step);
    OtherBatches(s, Apply(s, step), step.c);
  }

  lemma InsertedBatchOk(s: State, step: Step)
    requires Inv(s) && Enabled(s, step) && step.InsertOne?
    ensures BatchOk(Apply(s, step), Apply(s, step).batches[step.c])
  {
    hide StoreOk, AcceptedId, RowOf;
    BatchFrame(s, Apply(s, step), s.batches[step.c]);
  }

  lemma InsertedClick(t: Table, e: ClickEvent, c: Click)
    requires Insertable(t, e)
    ensures c in InsertRow(t, e).clicks ==> c in t.clicks || c == e.click
  {
  }

  lemma StoreInsert(s: State, t: State, e: ClickEvent)
    requires StoreOk(s) && Insertable(s.table, e)
    requires AcceptedId(s.stream, e.click.eventId) && e.click == RowOf(s.stream, e.click.eventId)
    requires e.click.eventId in s.pending || e.click.eventId in s.acked
    requires t == s.(table := InsertRow(s.table, e), batches := t.batches)
    ensures StoreOk(t)
  {
    hide RowOf, AcceptedId, TableOk;
    InsertKeepsTable(s.table, e);
    hide InsertRow;
    forall c | c in t.table.clicks ensures c in s.table.clicks || c == e.click {
      InsertedClick(s.table, e, c);
    }
    forall c | c in s.table.clicks ensures c in t.table.clicks {
      assert s.table.clicks <= t.table.clicks;
    }
  }

  lemma InvInsert(s: State, step: Step)
    requires Inv(s) && Enabled(s, step) && step.InsertOne?
    ensures Inv(Apply(s, step))
  {
    hide AcceptedId, RowOf;
    var b := s.batches[step.c];
    EventRow(s, b, b.inserted);
    assert b.events[b.inserted].click.eventId in b.ids;
    InsertedBatchOk(s, step);
    hide BatchOk, StoreOk;
    StoreInsert(s, Apply(s, step), b.events[b.inserted]);
    OtherBatches(s, Apply(s, step), step.c);
  }

  lemma StoreUpsert(s: State, step: Step)
    requires Inv(s) && Enabled(s, step) && step.Upsert?
    ensures StoreOk(Apply(s, step))
  {
    hide DayStats, TableOk, RowOf, Parse;
    var b := s.batches[step.c];
    var e :| e in b.events && KeyOf(e.click) == b.read.value.key;
    var i :| 0 <= i < |b.events| && b.events[i] == e;
    EventRow(s, b, i);
    StoredRow(s, e.click.eventId);
  }

  lemma StatsBatchOk(s: State, step: Step)
    requires Inv(s) && Enabled(s, step) && (step.Recompute? || step.Upsert? || step.PublishOne? || step.Retry?)
    ensures BatchOk(Apply(s, step), Apply(s, step).batches[step.c])
  {
    hide DayStats, StoreOk, AcceptedId, RowOf;
    BatchFrame(s, Apply(s, step), s.batches[step.c]);
  }

  // Steps on the daily aggregates leave rows and acknowledgements alone.
  lemma InvStats(s: State, step: Step)
    requires Inv(s) && Enabled(s, step) && (step.Recompute? || step.Upsert? || step.PublishOne? || step.Retry?)
    ensures Inv(Apply(s, step))
  {
    hide DayStats, TableOk, BatchOk, AcceptedId, RowOf;
    StatsBatchOk(s, step);
    if step.Upsert? {
      StoreUpsert(s, step);
    }
    OtherBatches(s, Apply(s, step), step.c);
  }

  lemma AckedProcessed(s: State, step: Step, id: StreamId)
    requires Inv(s) && Enabled(s, step) && step.Ack? && id in s.batches[step.c].ids
    ensures Processed(s, id)
  {
    hide StoreOk, RowOf;
    var b := s.batches[step.c];
    assert BatchOk(s, b);
    var i :| 0 <= i < |b.ids| && b.ids[i] == id;
    if AcceptedId(s.stream, id) {
      var j := EntryEvent(s, b, id);
    }
  }

  lemma StoreAck(s: State, step: Step)
    requires Inv(s) && Enabled(s, step) && step.Ack?
    ensures StoreOk(Apply(s, step))
  {
    hide TableOk, RowOf, Parse;
    var ids := s.batches[step.c].ids;
    assert BatchOk(s, s.batches[step.c]);
    assert forall id :: id in ids ==> id in s.pending || id in s.acked;
    hide BatchOk;
    forall id | id in ids ensures Processed(s, id) {
      AckedProcessed(s, step, id);
    }
  }

  lemma InvAck(s: State, step: Step)
    requires Inv(s) && Enabled(s, step) && step.Ack?
    ensures Inv(Apply(s, step))
  {
    hide StoreOk, AcceptedId, RowOf;
    assert BatchOk(s, s.batches[step.c]);
    assert forall id :: id in s.batches[step.c].ids ==> id in s.pending || id in s.acked;
    hide BatchOk;
    StoreAck(s, step);
    OtherBatches(s, Apply(s, step), step.c);
  }

  lemma InvDrop(s: State, step: Step)
    requires Inv(s) && Enabled(s, step) && step.Drop?
    ensures Inv(Apply(s, step))
  {
    hide TableOk, BatchOk, AcceptedId, RowOf;
    OtherBatches(s, Apply(s, step), step.c);
  }

  lemma InvStep(s: State, t: State)
    requires Inv(s) && Next(s, t)
    ensures Inv(t) && t.stream == s.stream && s.table.clicks <= t.table.clicks && s.acked <= t.acked
  {
    hide Inv, DayStats;
    var step :| Enabled(s, step) && t == Apply(s, step);
    match step
    case Fetch(_, _) => InvFetch(s, step);
    case ParseOne(_, _) => InvParse(s, step);
    case InsertOne(_) => InvInsert(s, step);
    case Recompute(_, _) => InvStats(s, step);
    case Upsert(_) => InvStats(s, step);
    case PublishOne(_) => InvStats(s, step);
    case Retry(_) => InvStats(s, step);
    case Ack(_) => InvAck(s, step);
    case Drop(_) => InvDrop(s, step);
  }

  lemma InvInit(stream: Stream)
    ensures Inv(Init(stream))
  {
  }

  lemma {:induction false} InvRun(run: seq<State>, i: nat)
    requires IsRun(run) && i < |run|
    ensures Inv(run[i]) && run[i].stream == run[0].stream
    ensures forall j :: 0 <= j <= i ==> run[j].table.clicks <= run[i].table.clicks
  {
    hide Next, Inv;
    if i == 0 {
      InvInit(run[0].stream);
    } else {
      InvRun(run, i - 1);
      InvStep(run[i - 1], run[i]);
    }
  }
}
