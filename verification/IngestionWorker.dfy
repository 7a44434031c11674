// The analytics worker (internal/analytics/worker.go). The ghost run records the protocol step that
// each of its effects amounts to, so what holds of all runs holds of this code.
module IngestionWorker {
  import opened Util
  import opened Clicks
  import opened DailyStats
  import opened ClickEvents
  import opened IngestionProtocol
  import opened IngestionTheorems
  import opened ClickStreams
  import opened IngestionPaths
  import opened IngestionVetting
  import opened Environments

  const DEFAULT_BATCH_SIZE: nat := 500
  const DEFAULT_MAX_RETRIES: nat := 3
  const DEFAULT_CLAIM_INTERVAL: int := 10_000   // milliseconds
  const DEFAULT_CLAIM_IDLE: int := 30_000

  // The stats of the given keys were recomputed from the table, the others left alone.
  ghost predicate RecomputedKeys(before: map<DayKey, Stats>, clicks: seq<Click>, keys: set<DayKey>, after: map<DayKey, Stats>) {
    && (forall key :: key in keys ==> key in after && after[key] == DayStats(clicks, key))
    && (forall key :: key !in keys ==> (key in after <==> key in before))
    && (forall key :: key !in keys && key in before ==> after[key] == before[key])
  }

  lemma RefreshedIsRecomputed(stats: map<DayKey, Stats>, clicks: seq<Click>, keys: seq<DayKey>)
    ensures RecomputedKeys(stats, clicks, (set key | key in keys), Refreshed(stats, clicks, keys))
  {
    hide DayStats, Refreshed;
    forall key ensures key in keys ==>
                         key in Refreshed(stats, clicks, keys) && Refreshed(stats, clicks, keys)[key] == DayStats(clicks, key)
               ensures key !in keys ==> (key in Refreshed(stats, clicks, keys) <==> key in stats)
               ensures key !in keys && key in stats ==> Refreshed(stats, clicks, keys)[key] == stats[key]
    {
      RefreshedMeaning(stats, clicks, keys, key);
    }
  }

  // The malformed entries among ids.
  function Malformed(stream: Stream, ids: seq<StreamId>): set<StreamId> {
    set id | id in ids && !AcceptedId(stream, id)
  }

  lemma NotMalformed(stream: Stream, ids: seq<StreamId>)
    ensures forall id :: id in ids && id !in Malformed(stream, ids) ==> AcceptedId(stream, id)
  {
  }

  // What a message adds to the dead-letter stream.
  function Letter(m: Message, id: StreamId): seq<(StreamId, Reason)> {
    match Parse(m)
    case Rejected(reason) => [(id, reason)]
    case Accepted(_) => []
  }

  function Letters(entries: seq<Message>, ids: seq<StreamId>): seq<(StreamId, Reason)>
  {
    if ids == [] then []
    else
      var id := ids[|ids| - 1];
      Letters(entries, ids[..|ids| - 1]) + if id < |entries| then Letter(entries[id], id) else []
  }

  lemma LettersAppend(entries: seq<Message>, ids: seq<StreamId>, i: nat)
    requires i < |ids| && ids[i] < |entries|
    ensures Letters(entries, ids[..i + 1]) == Letters(entries, ids[..i]) + Letter(entries[ids[i]], ids[i])
  {
    hide Letter;
    assert ids[..i + 1] == ids[..i] + [ids[i]] && ids[..i + 1][..i] == ids[..i];
  }

  // Each letter names an entry and what is wrong with it, and every malformed entry has one.
  lemma {:induction false} LettersMeaning(entries: seq<Message>, ids: seq<StreamId>, l: (StreamId, Reason))
    requires forall id :: id in ids ==> id < |entries|
    ensures l in Letters(entries, ids) <==>
              && l.0 in ids
              && match entries[l.0]
                 case NoPayload => l.1 == InvalidFormat
                 case Undecodable => l.1 == UnmarshalError
                 case Decoded(_) => l.0 in Malformed(StreamOf(entries), ids) && l.1 == ValidationError
  {
    if ids != [] {
      var init, id := ids[..|ids| - 1], ids[|ids| - 1];
      assert ids == init + [id] && id in ids && forall x :: x in init ==> x in ids;
      LettersMeaning(entries, init, l);
      hide ValidPayload;
    }
  }

  lemma LetterReasons(before: seq<(StreamId, Reason)>, entries: seq<Message>, ids: seq<StreamId>)
    requires forall id :: id in ids ==> id < |entries|
    ensures forall l :: l in (before + Letters(entries, ids))[|before|..] ==>
              && l.0 in ids
              && l.1 == (if entries[l.0].NoPayload? then InvalidFormat
                         else if entries[l.0].Undecodable? then UnmarshalError else ValidationError)
  {
    hide Letters, Malformed;
    assert (before + Letters(entries, ids))[|before|..] == Letters(entries, ids);
    forall l: (StreamId, Reason) { LettersMeaning(entries, ids, l); }
  }

  // No statement made for a valid entry among ids is bound to be refused.
  ghost predicate SoundEntries(stream: Stream, ids: seq<StreamId>) {
    forall id :: id in ids && AcceptedId(stream, id) ==> Sound(EntryEventOf(stream, id))
  }

  ghost predicate AnnounceableEntries(stream: Stream, ids: seq<StreamId>) {
    forall id :: id in ids && AcceptedId(stream, id) ==> Announceable(EntryEventOf(stream, id))
  }

  ghost predicate GoodUpTo(stream: Stream, n: nat) {
    forall id: StreamId :: id < n && AcceptedId(stream, id) ==>
      Sound(EntryEventOf(stream, id)) && Announceable(EntryEventOf(stream, id))
  }

  lemma GoodAmong(stream: Stream, n: nat, ids: seq<StreamId>)
    requires GoodUpTo(stream, n) && forall id :: id in ids ==> id < n
    ensures SoundEntries(stream, ids) && AnnounceableEntries(stream, ids)
  {
    hide AcceptedId, EntryEventOf, Sound, Announceable;
  }

  // Events and valid entries are the same, but for the row ids.
  lemma EventsOfEntries(stream: Stream, ids: seq<StreamId>, events: seq<ClickEvent>)
    requires ClicksOf(events) == ValidRows(stream, ids) && OwnersOk(stream, events)
    ensures AllSound(events) <==> SoundEntries(stream, ids)
    ensures AllAnnounceable(events) <==> AnnounceableEntries(stream, ids)
  {
    hide Storable, Recomputable, NoNul, KeyOf, Parse, ClickOf, ValidRows;
    forall i | 0 <= i < |events|
      ensures events[i].click.eventId in ids && AcceptedId(stream, events[i].click.eventId)
              && EntryEventOf(stream, events[i].click.eventId) == events[i].(id := 0)
    {
      assert ClicksOf(events)[i] in ValidRows(stream, ids);
      ValidRowsMember(stream, ids, events[i].click);
    }
    forall id | id in ids && AcceptedId(stream, id)
      ensures exists i :: 0 <= i < |events| && EntryEventOf(stream, id) == events[i].(id := 0)
    {
      RowId(stream, id);
      ValidRowsMember(stream, ids, RowOf(stream, id));
      var i :| 0 <= i < |events| && ClicksOf(events)[i] == RowOf(stream, id);
      assert events[i].click.eventId == id;
    }
    assert forall e: ClickEvent :: Sound(e.(id := 0)) == Sound(e) && Announceable(e.(id := 0)) == Announceable(e);
  }

  lemma OwnersAppend(stream: Stream, events: seq<ClickEvent>, id: StreamId, rowId: RowId)
    requires OwnersOk(stream, events) && AcceptedId(stream, id)
    ensures OwnersOk(stream, events + [EntryEventOf(stream, id).(id := rowId)])
  {
    hide Parse;
  }

  lemma RowId(stream: Stream, id: StreamId)
    requires AcceptedId(stream, id)
    ensures RowOf(stream, id).eventId == id
  {
  }

  function Ids(ids: seq<StreamId>): set<StreamId> {
    set id | id in ids
  }

  // Each pending entry was delivered now, or is as it was.
  ghost predicate Touched(before: map<StreamId, int>, after: map<StreamId, int>, now: int) {
    forall id :: id in after ==> after[id] == now || (id in before && after[id] == before[id])
  }

  ghost predicate Kept(before: map<StreamId, int>, after: map<StreamId, int>) {
    forall id :: id in after ==> id in before && after[id] == before[id]
  }

  // Entries other than ids are as they were.
  ghost predicate KeptBut(before: map<StreamId, int>, after: map<StreamId, int>, ids: seq<StreamId>) {
    forall id :: id in after && id !in ids ==> id in before && after[id] == before[id]
  }

  lemma KeptThenGone(before: map<StreamId, int>, middle: map<StreamId, int>, after: map<StreamId, int>, ids: seq<StreamId>)
    requires KeptBut(before, middle, ids) && Kept(middle, after) && after.Keys !! Ids(ids)
    ensures Kept(before, after)
  {
  }

  // The pending entries are some of those before, unchanged, and together with the undelivered ones fewer.
  ghost predicate LessLeft(before: map<StreamId, int>, from: nat, after: map<StreamId, int>, to: nat) {
    Kept(before, after) && |after.Keys| - to < |before.Keys| - from
  }

  ghost predicate NoneNew(before: map<StreamId, int>, after: map<StreamId, int>) {
    Kept(before, after) && after.Keys == before.Keys
  }

  lemma TouchedThenKept(before: map<StreamId, int>, middle: map<StreamId, int>, after: map<StreamId, int>, now: int)
    requires Touched(before, middle, now) && Kept(middle, after)
    ensures Touched(before, after, now)
  {
  }

  // The two tables the ingestion writes.
  datatype Tables = Tables(events: Table, stats: map<DayKey, Stats>)

  // What one or more attempts at a batch leave in the database: some prefix of the events is
  // inserted, each once; stats are recomputed only after the whole batch was inserted.
  ghost predicate Wrote(before: Tables, events: seq<ClickEvent>, applied: nat, written: set<DayKey>, after: Tables) {
    && applied <= |events|
    && Inserted(before.events, events[..applied], after.events)
    && RecomputedKeys(before.stats, after.events.clicks, written, after.stats)
    && written <= KeysOf(events)
    && (written != {} ==> applied == |events|)
  }

  lemma NothingWritten(tables: Tables, events: seq<ClickEvent>)
    ensures Wrote(tables, events, 0, {}, tables)
  {
    hide DayStats;
  }

  // Two attempts together write what the one that got further would have written alone.
  lemma WroteTwice(
    t0: Tables, events: seq<ClickEvent>, applied: nat, written: set<DayKey>,
    t1: Tables, applied': nat, written': set<DayKey>, t2: Tables)
    requires Wrote(t0, events, applied, written, t1) && Wrote(t1, events, applied', written', t2)
    ensures Wrote(t0, events, if applied <= applied' then applied' else applied, written + written', t2)
  {
    hide DayStats, KeysOf, InsertRow;
    RetryInsertsOnce(t0.events, events, applied, t1.events, applied', t2.events);
    if written != {} {
      InsertedIndex(t0.events, events[..applied], t1.events);
      assert events[..applied] == events;
      KnownEventsSkipped(t1.events, events[..applied'], t2.events);
    }
  }

  // What the parse step makes of a state in which only this consumer works.
  lemma ParseOneIs(s: State, c: Consumer, rowId: RowId, b: Batch)
    requires s.batches == map[c := b] && b.parsed < |b.ids| && b.ids[b.parsed] in s.stream
    ensures Enabled(s, ParseOne(c, rowId))
    ensures var id := b.ids[b.parsed];
            Apply(s, ParseOne(c, rowId)) ==
            match Parse(s.stream[id])
            case Accepted(p) =>
              s.(batches := map[c := b.(parsed := b.parsed + 1, events := b.events + [ClickEvent(rowId, p.ownerId, ClickOf(id, p))])])
            case Rejected(_) => s.(deadLettered := s.deadLettered + {id}, batches := map[c := b.(parsed := b.parsed + 1)])
  {
    hide ValidPayload;
  }

  predicate OwnersQueryable(events: seq<ClickEvent>) {
    forall i :: 0 <= i < |events| ==> NoNul(events[i].ownerId)
  }

  lemma SoundParts(events: seq<ClickEvent>)
    ensures AllSound(events)
       <==> AllStorable(events) && (forall key :: key in KeysOf(events) ==> Recomputable(key)) && OwnersQueryable(events)
  {
    hide Storable, Recomputable, NoNul, KeyOf;
    forall i | 0 <= i < |events| ensures KeyOf(events[i].click) in KeysOf(events) {
      assert events[i] in events;
    }
  }

  // Field by field, the events are what the entries say, and no valid entry is left out.
  lemma EventsAsSent(entries: seq<Message>, ids: seq<StreamId>, events: seq<ClickEvent>)
    requires ClicksOf(events) == ValidRows(StreamOf(entries), ids) && OwnersOk(StreamOf(entries), events)
    ensures forall e :: e in events ==>
              var id := e.click.eventId;
              && id in ids && id < |entries| && entries[id].Decoded?
              && var p := entries[id].payload;
                 && e.ownerId == p.ownerId && e.click.shortCode == p.shortCode && e.click.linkId == p.linkId
                 && e.click.referrer == p.referrer && e.click.userAgent == p.userAgent && e.click.visitorHash == p.visitorHash
                 && e.click.countryCode == p.countryCode && e.click.clickedAt == p.clickedAt
    ensures forall id :: id in ids && AcceptedId(StreamOf(entries), id) ==> exists e :: e in events && e.click.eventId == id
  {
    hide ValidPayload;
    var s := StreamOf(entries);
    forall i | 0 <= i < |events|
      ensures events[i].click.eventId in ids && AcceptedId(s, events[i].click.eventId)
              && events[i].click == RowOf(s, events[i].click.eventId)
    {
      assert ClicksOf(events)[i] in ValidRows(s, ids);
      ValidRowsMember(s, ids, events[i].click);
    }
    forall id | id in ids && AcceptedId(s, id) ensures exists e :: e in events && e.click.eventId == id {
      ValidRowsMember(s, ids, RowOf(s, id));
      var i :| 0 <= i < |events| && ClicksOf(events)[i] == RowOf(s, id);
      assert events[i] in events && events[i].click.eventId == id;
    }
  }

  // Of turns at the given times, those that find a claim due.
  function DueTurns(lastClaim: Option<int>, times: seq<int>): nat
    decreases |times|
  {
    if times == [] then 0
    else if lastClaim.None? || times[0] - lastClaim.value >= DEFAULT_CLAIM_INTERVAL then 1 + DueTurns(Some(times[0]), times[1..])
    else DueTurns(lastClaim, times[1..])
  }

  lemma PublishOneIs(s: State, c: Consumer, b: Batch)
    requires s.batches == map[c := b] && b.parsed == |b.ids| && b.inserted == |b.events| && b.settled == KeysOf(b.events)
    requires b.published < |b.events| && NoNul(b.events[b.published].ownerId)
    ensures Enabled(s, PublishOne(c)) && Apply(s, PublishOne(c)) == s.(batches := map[c := b.(published := b.published + 1)])
  {
    hide NoNul, KeysOf;
  }

  class Worker {
    const env: Environment
    const stream: ClickStream
    const repo: ClickEventRepository
    const consumer: Consumer
    const batchSize: nat
    const maxRetries: nat
    var claimStartID: StreamId
    var lastClaim: Option<int>

    var deadLetters: seq<(StreamId, Reason)>   // the dead-letter stream
    ghost var deadLettered: set<StreamId>   // the ids handed to deadLetterMessage
    ghost var batch: Option<Batch>          // what the running processOnce holds
    ghost var run: seq<State>

    ghost function Current(): State
      reads this, stream, repo
    {
      State(
        StreamOf(stream.entries), stream.pending.Keys, stream.Acked(), deadLettered,
        repo.clickEvents, repo.dailyStats, if batch.Some? then map[consumer := batch.value] else map[])
    }

    ghost function Database(): Tables reads repo {
      Tables(repo.clickEvents, repo.dailyStats)
    }

    ghost predicate Ready()
      reads this, stream, repo
    {
      && stream.Valid() && repo.Valid() && stream.env == repo.env == env
      && batchSize > 0 && maxRetries > 0
      && run != [] && IsRun(run) && Alone(run)
    }

    ghost predicate Valid()
      reads this, stream, repo
    {
      Ready() && Last(run) == Current()
    }

    constructor (stream: ClickStream, repo: ClickEventRepository, consumer: Consumer)
      requires stream.Valid() && stream.lastDelivered == 0 && stream.env == repo.env
      requires repo.clickEvents == EMPTY_TABLE && repo.dailyStats == map[]
      ensures Valid() && batch.None? && run == [Current()]
      ensures this.stream == stream && this.repo == repo && this.consumer == consumer
      ensures maxRetries == 3 && batchSize == 500
    {
      this.stream, this.repo, this.consumer, env := stream, repo, consumer, repo.env;
      batchSize, maxRetries := DEFAULT_BATCH_SIZE, DEFAULT_MAX_RETRIES;
      claimStartID, lastClaim, deadLetters := 0, None, [];
      deadLettered, batch := {}, None;
      run := [Init(StreamOf(stream.entries))];
      new;
      assert stream.Acked() == {} && stream.pending.Keys == {};
    }

    // After a crash at any point, and with nobody else at work, another process takes over: what was in
    // memory is lost, what was in the stores is not.
    constructor Restart(previous: Worker, consumer: Consumer)
      requires previous.Valid()
      ensures Valid() && batch.None? && previous.run <= run
      ensures stream == previous.stream && repo == previous.repo && this.consumer == consumer
      ensures deadLetters == previous.deadLetters && deadLettered == previous.deadLettered
      ensures claimStartID == 0 && lastClaim.None?
      ensures maxRetries == 3 && batchSize == 500
    {
      hide IsRun, Alone, TableOk;
      ghost var r := previous.run;
      if previous.batch.Some? {
        r := Abandon(r, previous.consumer);
      }
      stream, repo, this.consumer, env := previous.stream, previous.repo, consumer, previous.env;
      batchSize, maxRetries := DEFAULT_BATCH_SIZE, DEFAULT_MAX_RETRIES;
      claimStartID, lastClaim, deadLetters := 0, None, previous.deadLetters;
      deadLettered, batch := previous.deadLettered, None;
      run := r;
    }

    // One protocol step was just taken.
    ghost method Record(step: Step)
      requires Ready() && Enabled(Last(run), step) && Current() == Apply(Last(run), step)
      modifies this`run
      ensures Valid() && run == old(run) + [Current()]
    {
      hide Enabled, Apply;
      var s := Current();
      assert s.batches.Keys <= {consumer};
      assert Next(Last(run), s);
      hide Next;
      assert IsPath(consumer, s, [s][1..]);
      RunThenPath(consumer, run, [s]);
      run := run + [s];
    }

    // A path of protocol steps was just taken.
    ghost method RecordPath(path: seq<State>)
      requires Ready() && IsPath(consumer, Last(run), path) && Current() == EndOf(Last(run), path)
      modifies this`run
      ensures Valid() && run == old(run) + path
    {
      hide Next, IsPath;
      RunThenPath(consumer, run, path);
      run := run + path;
    }

    // deadLetterMessage: the write to the dead-letter stream may fail and is not retried.
    method DeadLetterMessage(id: StreamId, reason: Reason)
      modifies this`deadLetters, this`deadLettered, env`faults
      ensures env.faults >= old(env.faults)
      ensures env.faults == old(env.faults) ==> deadLetters == old(deadLetters) + [(id, reason)]
      ensures deadLettered == old(deadLettered) + {id}
      ensures deadLetters == old(deadLetters) || deadLetters == old(deadLetters) + [(id, reason)]
    {
      deadLettered := deadLettered + {id};
      var lost := env.Fails();
      if !lost {
        deadLetters := deadLetters + [(id, reason)];
      }
    }

    // How far parsing has come.
    ghost predicate Parsed(ids: seq<StreamId>, n: nat, events: seq<ClickEvent>, before: set<StreamId>)
      requires n <= |ids|
      reads this, stream
    {
      && ClicksOf(events) == ValidRows(StreamOf(stream.entries), ids[..n])
      && OwnersOk(StreamOf(stream.entries), events)
      && deadLettered == before + Malformed(StreamOf(stream.entries), ids[..n])
      && batch == Some(Batch(ids, n, events, 0, {}, None, 0))
    }

    lemma NothingParsed(ids: seq<StreamId>)
      requires batch == Some(StartBatch(ids))
      ensures Parsed(ids, 0, [], deadLettered) && Letters(stream.entries, ids[..0]) == []
    {
    }

    // The next message is dead-lettered if malformed, and becomes an event otherwise.
    method ParseMessage(ids: seq<StreamId>, n: nat, before: seq<ClickEvent>, ghost dead: set<StreamId>)
      returns (events: seq<ClickEvent>)
      requires Valid() && n < |ids| && ids[n] < |stream.entries| && Parsed(ids, n, before, dead)
      modifies this`deadLetters, this`deadLettered, this`batch, this`run, env`faults
      ensures Valid() && old(run) <= run && Parsed(ids, n + 1, events, dead)
      ensures env.faults >= old(env.faults)
      ensures env.faults == old(env.faults) ==> deadLetters == old(deadLetters) + Letter(stream.entries[ids[n]], ids[n])
    {
      hide IsRun, Alone, Inserted, TableOk, Parse, ClickOf, Enabled, Apply, OwnersOk;
      ghost var S := StreamOf(stream.entries);
      var id := ids[n];
      assert ids[..n + 1] == ids[..n] + [id] && ids[..n + 1][..n] == ids[..n];
      var rowId: RowId :| rowId >= 0;
      ParseOneIs(Current(), consumer, rowId, batch.value);
      match Parse(stream.entries[id]) {
        case Rejected(reason) =>
          events := before;
          DeadLetterMessage(id, reason);
        case Accepted(p) =>
          events := before + [ClickEvent(rowId, p.ownerId, ClickOf(id, p))];
          OwnersAppend(S, before, id, rowId);
          assert ClicksOf(events) == ClicksOf(before) + [RowOf(S, id)];
      }
      assert Malformed(S, ids[..n + 1]) == Malformed(S, ids[..n]) + if AcceptedId(S, id) then {} else {id};
      batch := Some(Batch(ids, n + 1, events, 0, {}, None, 0));
      Record(ParseOne(consumer, rowId));
    }

    // parseMessages: malformed messages are dead-lettered, valid ones become events; all ids are kept.
    method ParseMessages(ids: seq<StreamId>) returns (events: seq<ClickEvent>, messageIDs: seq<StreamId>)
      requires Valid() && batch == Some(StartBatch(ids)) && forall id :: id in ids ==> id < |stream.entries|
      modifies this`deadLetters, this`deadLettered, this`batch, this`run, env`faults
      ensures Valid() && old(run) <= run
      ensures env.faults >= old(env.faults)
      ensures env.faults == old(env.faults) ==> deadLetters == old(deadLetters) + Letters(stream.entries, ids)
      ensures messageIDs == ids && Parsed(ids, |ids|, events, old(deadLettered))
      ensures forall e :: e in events ==>
                var id := e.click.eventId;
                && id in ids && id < |stream.entries| && stream.entries[id].Decoded?
                && var p := stream.entries[id].payload;
                   && e.ownerId == p.ownerId && e.click.shortCode == p.shortCode && e.click.linkId == p.linkId
                   && e.click.referrer == p.referrer && e.click.userAgent == p.userAgent && e.click.visitorHash == p.visitorHash
                   && e.click.countryCode == p.countryCode && e.click.clickedAt == p.clickedAt
      ensures forall id :: id in ids && id !in deadLettered ==> exists e :: e in events && e.click.eventId == id
      ensures env.faults == old(env.faults) ==>
                && |old(deadLetters)| <= |deadLetters|
                && forall l :: l in deadLetters[|old(deadLetters)|..] ==>
                     && l.0 in ids && l.0 < |stream.entries|
                     && l.1 == (if stream.entries[l.0].NoPayload? then InvalidFormat
                                else if stream.entries[l.0].Undecodable? then UnmarshalError else ValidationError)
    {
      hide Valid, Letters, Letter, ClicksOf, ValidRows, OwnersOk, Malformed;
      events, messageIDs := [], [];
      NothingParsed(ids);
      for i := 0 to |ids|
        invariant Valid() && old(run) <= run && env.faults >= old(env.faults)
        invariant env.faults == old(env.faults) ==> deadLetters == old(deadLetters) + Letters(stream.entries, ids[..i])
        invariant messageIDs == ids[..i] && Parsed(ids, i, events, old(deadLettered))
      {
        messageIDs := messageIDs + [ids[i]];
        assert ids[i] in ids;
        events := ParseMessage(ids, i, events, old(deadLettered));
        LettersAppend(stream.entries, ids, i);
        assert ids[..i + 1] == ids[..i] + [ids[i]];
      }
      assert ids[..|ids|] == ids;
      LetterReasons(old(deadLetters), stream.entries, ids);
      hide Letters, Parsed;
      EventsAsSent(stream.entries, ids, events);
      NotMalformed(StreamOf(stream.entries), ids);
    }

    // Fully parsed, nothing inserted yet.
    ghost predicate Holds(ids: seq<StreamId>, events: seq<ClickEvent>) reads this {
      batch == Some(Batch(ids, |ids|, events, 0, {}, None, 0))
    }

    // Everything inserted and recomputed.
    ghost predicate Settled(ids: seq<StreamId>, events: seq<ClickEvent>) reads this {
      batch == Some(Batch(ids, |ids|, events, |events|, KeysOf(events), None, |events|))
    }

    // The first statement of processBatch.
    method InsertEvents(ghost ids: seq<StreamId>, events: seq<ClickEvent>) returns (ok: bool, ghost applied: nat)
      requires Valid() && Holds(ids, events)
      modifies repo`clickEvents, this`batch, this`run, env`faults
      ensures Valid() && old(run) <= run
      ensures env.faults >= old(env.faults)
      ensures !ok && AllStorable(events) ==> env.faults > old(env.faults)
      ensures ok ==> AllStorable(events)
      ensures applied <= |events| && (ok ==> applied == |events|)
      ensures Inserted(old(repo.clickEvents), events[..applied], repo.clickEvents)
      ensures batch == Some(Batch(ids, |ids|, events, applied, {}, None, 0))
    {
      hide IsRun, Alone, Inserted, TableOk, IsPath, EndOf, AllStorable;
      ghost var s := Current();
      ok, applied := repo.BulkInsert(events);
      ghost var path := InsertPath(consumer, s, batch.value, applied, repo.clickEvents);
      batch := Some(batch.value.(inserted := applied));
      RecordPath(path);
    }

    // The second statement of processBatch.
    method RefreshStats(ghost ids: seq<StreamId>, events: seq<ClickEvent>) returns (ok: bool, ghost written: set<DayKey>)
      requires Valid() && batch == Some(Batch(ids, |ids|, events, |events|, {}, None, 0))
      modifies repo`dailyStats, this`batch, this`run, env`faults
      ensures Valid() && old(run) <= run
      ensures env.faults >= old(env.faults)
      ensures !ok && (forall key :: key in KeysOf(events) ==> Recomputable(key)) ==> env.faults > old(env.faults)
      ensures forall key :: key in written ==> Recomputable(key)
      ensures written <= KeysOf(events) && (ok ==> written == KeysOf(events))
      ensures RecomputedKeys(old(repo.dailyStats), repo.clickEvents.clicks, written, repo.dailyStats)
      ensures batch == Some(Batch(ids, |ids|, events, |events|, written, None, 0))
    {
      hide IsRun, Alone, TableOk, IsPath, EndOf, DayStats, KeysOf, RecomputedKeys, Recomputable;
      ghost var s := Current();
      ghost var keys;
      ok, keys := repo.UpdateDailyStats(events);
      RefreshedIsRecomputed(s.stats, repo.clickEvents.clicks, keys);
      written := set key | key in keys;
      ghost var path := RefreshPath(consumer, s, batch.value, keys);
      batch := Some(batch.value.(settled := written));
      RecordPath(path);
    }

    // publishWebhooks: for every event with an owner the publisher is called. It fails on an owner the
    // endpoint query refuses; on a time its payload cannot express it fails if there are endpoints,
    // which is up to the webhook tables.
    method PublishWebhooks(ghost ids: seq<StreamId>, events: seq<ClickEvent>) returns (ok: bool, ghost published: nat)
      requires Valid() && batch == Some(Batch(ids, |ids|, events, |events|, KeysOf(events), None, 0))
      modifies this`batch, this`run, env`faults
      ensures Valid() && old(run) <= run
      ensures env.faults >= old(env.faults)
      ensures !ok && OwnersQueryable(events) && AllAnnounceable(events) ==> env.faults > old(env.faults)
      ensures ok ==> OwnersQueryable(events)
      ensures published <= |events| && (ok ==> published == |events|)
      ensures batch == Some(Batch(ids, |ids|, events, |events|, KeysOf(events), None, published))
    {
      hide IsRun, Alone, TableOk, KeysOf, Enabled, Apply, NoNul;
      published := 0;
      for i := 0 to |events|
        invariant Valid() && old(run) <= run && env.faults >= old(env.faults)
        invariant published == i && OwnersQueryable(events[..i])
        invariant batch == Some(Batch(ids, |ids|, events, |events|, KeysOf(events), None, published))
      {
        if events[i].ownerId != "" {
          var failed := env.Fails();
          if failed || !NoNul(events[i].ownerId) {
            return false, published;
          }
          if events[i].click.clickedAt >= JSON_TIME_END {
            var endpoints: bool := *;
            if endpoints {
              return false, published;
            }
          }
        } else {
          NoOwner();
        }
        PublishOneIs(Current(), consumer, batch.value);
        published := i + 1;
        batch := Some(Batch(ids, |ids|, events, |events|, KeysOf(events), None, published));
        Record(PublishOne(consumer));
        assert events[..i + 1] == events[..i] + [events[i]];
      }
      assert events[..|events|] == events;
      ok := true;
    }

    lemma NoOwner()
      ensures NoNul("")
    {
    }

    method ProcessBatch(ghost ids: seq<StreamId>, events: seq<ClickEvent>)
      returns (ok: bool, ghost applied: nat, ghost written: set<DayKey>, ghost published: nat)
      requires Valid() && Holds(ids, events)
      modifies repo, this`batch, this`run, env`faults
      ensures Valid() && old(run) <= run
      ensures env.faults >= old(env.faults)
      ensures !ok && AllSound(events) && AllAnnounceable(events) ==> env.faults > old(env.faults)
      ensures ok ==> AllSound(events)
      ensures Wrote(old(Database()), events, applied, written, Database())
      ensures batch == Some(Batch(ids, |ids|, events, applied, written, None, published))
      ensures applied <= |events| && written <= KeysOf(events)
      ensures ok ==> applied == |events| && written == KeysOf(events) && published == |events|
    {
      hide IsRun, Alone, Inserted, TableOk, DayStats, KeysOf, AllStorable, AllSound, AllAnnounceable, OwnersQueryable, Recomputable;
      SoundParts(events);
      written, published := {}, 0;
      ok, applied := InsertEvents(ids, events);
      if !ok {
        return;
      }
      ok, written := RefreshStats(ids, events);
      if !ok {
        return;
      }
      ok, published := PublishWebhooks(ids, events);
    }

    // processBatchWithRetry: after a failure the whole batch is tried again, so fewer faults than
    // attempts do no harm, unless one of the events is bound to be refused.
    method ProcessBatchWithRetry(ghost ids: seq<StreamId>, events: seq<ClickEvent>)
      returns (ok: bool, ghost applied: nat, ghost written: set<DayKey>)
      requires Valid() && Holds(ids, events)
      modifies repo, this`batch, this`run, env
      ensures Valid() && old(run) <= run
      ensures env.faults >= old(env.faults) && env.cancellations >= old(env.cancellations)
      ensures AllSound(events) && AllAnnounceable(events) ==>
                env.faults < old(env.faults) + maxRetries && env.cancellations == old(env.cancellations) ==> ok
      ensures ok ==> AllSound(events)
      ensures Wrote(old(Database()), events, applied, written, Database())
      ensures if ok then Settled(ids, events) && applied == |events| && written == KeysOf(events)
              else Holds(ids, events)
    {
      hide IsRun, Alone, Inserted, TableOk, DayStats, KeysOf, Wrote, AllSound, AllAnnounceable;
      applied, written := 0, {};
      NothingWritten(Database(), events);
      for attempt := 1 to maxRetries + 1
        invariant Valid() && old(run) <= run && Holds(ids, events)
        invariant Wrote(old(Database()), events, applied, written, Database())
        invariant written <= KeysOf(events) && applied <= |events|
        invariant env.faults >= old(env.faults) && env.cancellations == old(env.cancellations)
        invariant AllSound(events) && AllAnnounceable(events) ==> env.faults >= old(env.faults) + attempt - 1
      {
        ghost var between := Database();
        ghost var applied', written', published;
        ok, applied', written', published := ProcessBatch(ids, events);
        WroteTwice(old(Database()), events, applied, written, between, applied', written', Database());
        applied, written := if applied <= applied' then applied' else applied, written + written';
        if ok {
          return;
        }
        batch := Some(Batch(ids, |ids|, events, 0, {}, None, 0));
        Record(Retry(consumer));
        var cancelled := env.Cancelled();
        if cancelled {
          return false, applied, written;
        }
      }
      ok := false;
    }

    // Messages were delivered to this consumer.
    ghost method RecordFetch(ids: seq<StreamId>)
      requires Ready() && batch.None? && Distinct(ids) && StreamOf(stream.entries) == Last(run).stream
      requires forall id :: id in ids ==> id < |stream.entries| && id !in Last(run).acked
      requires Current() == Last(run).(pending := Last(run).pending + set id | id in ids)
      modifies this`batch, this`run
      ensures Valid() && old(run) <= run && batch == Some(StartBatch(ids))
    {
      hide IsRun, Alone, TableOk;
      assert Last(run).batches == map[];
      batch := Some(StartBatch(ids));
      Record(Fetch(consumer, ids));
    }

    // The batch is given up: an error return.
    ghost method RecordDrop()
      requires Valid() && batch.Some?
      modifies this`batch, this`run
      ensures Valid() && old(run) <= run && batch.None?
    {
      hide IsRun, Alone, TableOk;
      batch := None;
      assert map[consumer := old(batch).value] - {consumer} == map[];
      Record(Drop(consumer));
    }

    // readBatch. A lost reply leaves the messages pending, with nobody working on them; no error is ever
    // reported, as the reply without streams is looked at first.
    method ReadBatch(now: int) returns (ids: seq<StreamId>)
      requires Valid() && batch.None?
      modifies stream`lastDelivered, stream`pending, this`batch, this`run, env`faults
      ensures Valid() && old(run) <= run
      ensures env.faults >= old(env.faults)
      ensures stream.Acked() == old(stream.Acked()) && old(stream.lastDelivered) <= stream.lastDelivered
      ensures env.faults == old(env.faults) ==>
                ids == Range(old(stream.lastDelivered), stream.lastDelivered)
                && stream.lastDelivered == (if stream.arrived - old(stream.lastDelivered) <= batchSize
                                            then stream.arrived else old(stream.lastDelivered) + batchSize)
                && stream.pending.Keys == old(stream.pending.Keys) + Ids(ids)
                && KeptBut(old(stream.pending), stream.pending, ids)
      ensures ids != [] ==> ids == Range(old(stream.lastDelivered), stream.lastDelivered)
      ensures Touched(old(stream.pending), stream.pending, now)
      ensures if ids == [] then batch.None? else batch == Some(StartBatch(ids))
      ensures forall id :: id in ids ==> old(stream.lastDelivered) <= id < stream.lastDelivered
    {
      hide IsRun, Alone, TableOk;
      var ok;
      ghost var delivered;
      ok, ids, delivered := stream.XReadGroup(batchSize, now);
      forall id | id in delivered ensures old(stream.lastDelivered) <= id < stream.lastDelivered {}
      if delivered != [] {
        RecordFetch(delivered);
        if ids == [] {
          RecordDrop();
        }
      }
    }

    // maybeClaimPending: at most once per interval, entries left pending for too long are taken over.
    method MaybeClaimPending(now: int) returns (ids: seq<StreamId>)
      requires Valid() && batch.None?
      modifies stream`pending, this`claimStartID, this`lastClaim, this`batch, this`run, env`faults
      ensures Valid() && old(run) <= run
      ensures env.faults >= old(env.faults)
      ensures stream.Acked() == old(stream.Acked()) && stream.pending.Keys == old(stream.pending.Keys)
      ensures if ids == [] then batch.None? else batch == Some(StartBatch(ids))
      ensures forall id :: id in ids ==> id in old(stream.pending) && now - old(stream.pending)[id] >= 30_000
      ensures old(Due(now)) <==> old(lastClaim).None? || now - old(lastClaim).value >= 10_000
      ensures !old(Due(now)) ==>
                ids == [] && stream.pending == old(stream.pending) && lastClaim == old(lastClaim) && claimStartID == old(claimStartID)
      ensures old(Due(now)) ==> lastClaim == Some(now)
      ensures Touched(old(stream.pending), stream.pending, now)
      ensures env.faults == old(env.faults) ==> KeptBut(old(stream.pending), stream.pending, ids)
      ensures old(Due(now)) && env.faults == old(env.faults) ==>
                forall id :: id in old(stream.pending) && old(claimStartID) <= id && (claimStartID == 0 || id < claimStartID) ==>
                  now - old(stream.pending)[id] < 30_000 || id in ids
      ensures old(Due(now)) && env.faults == old(env.faults) ==> claimStartID == 0 || |ids| == batchSize || !old(AllIdle(now))
    {
      hide IsRun, Alone, TableOk;
      if lastClaim.Some? && now - lastClaim.value < DEFAULT_CLAIM_INTERVAL {
        return [];
      }
      lastClaim := Some(now);
      var ok, next;
      ok, ids, next := stream.XAutoClaim(claimStartID, DEFAULT_CLAIM_IDLE, batchSize, now);
      if !ok {
        return [];
      }
      claimStartID := next;
      if ids != [] {
        assert Last(run).pending == Last(run).pending + set id | id in ids;
        RecordFetch(ids);
      }
    }

    // ackMessages. A lost reply reads as a failure although the messages are acknowledged.
    method AckMessages(ids: seq<StreamId>, ghost events: seq<ClickEvent>) returns (ok: bool, ghost reached: bool)
      requires Valid() && Settled(ids, events) && forall id :: id in ids ==> id < stream.lastDelivered
      modifies stream`pending, this`batch, this`run, env`faults
      ensures Valid() && old(run) <= run && batch.None?
      ensures env.faults >= old(env.faults) + if ok then 0 else 1
      ensures ok ==> reached
      ensures stream.Acked() == if reached then old(stream.Acked()) + (set id | id in ids) else old(stream.Acked())
      ensures stream.pending.Keys == if reached then old(stream.pending.Keys) - (set id | id in ids) else old(stream.pending.Keys)
      ensures Kept(old(stream.pending), stream.pending)
    {
      hide IsRun, Alone, TableOk, KeysOf;
      ok, reached := stream.XAck(ids);
      if reached {
        batch := None;
        assert map[consumer := old(batch).value] - {consumer} == map[];
        Record(Ack(consumer));
      } else {
        RecordDrop();
      }
    }

    // What a turn on these messages leaves, given what was there before: exactly the valid ones became
    // events, exactly the malformed ones were dead-lettered, the database holds what the attempts wrote, and
    // an acknowledgement means that everything was written and nothing bound to be refused.
    ghost predicate Effects(
      tables: Tables, dead: set<StreamId>, acked: set<StreamId>,
      messages: seq<StreamId>, events: seq<ClickEvent>, applied: nat, written: set<DayKey>, ok: bool)
      reads this, stream, repo
    {
      var s := StreamOf(stream.entries);
      && ClicksOf(events) == ValidRows(s, messages)
      && deadLettered == dead + Malformed(s, messages)
      && Wrote(tables, events, applied, written, Database())
      && (ok || stream.Acked() != acked ==>
            SoundEntries(s, messages) && applied == |events| && written == KeysOf(events) && stream.Acked() == acked + Ids(messages))
    }

    // The second half of processOnce: the messages are parsed, processed and acknowledged.
    method Process(messages: seq<StreamId>)
      returns (ok: bool, ghost events: seq<ClickEvent>, ghost applied: nat, ghost written: set<DayKey>)
      requires Valid() && messages != [] && batch == Some(StartBatch(messages))
      requires forall id :: id in messages ==> id < stream.lastDelivered
      modifies repo, stream`pending, this`deadLetters, this`deadLettered, this`batch, this`run, env
      ensures Valid() && batch.None? && old(run) <= run
      ensures env.faults >= old(env.faults) && env.cancellations >= old(env.cancellations)
      ensures Kept(old(stream.pending), stream.pending)
      ensures ok ==> stream.pending.Keys == old(stream.pending.Keys) - Ids(messages)
      ensures env.faults == old(env.faults) ==> deadLetters == old(deadLetters) + Letters(stream.entries, messages)
      ensures env.faults == old(env.faults) && env.cancellations == old(env.cancellations) ==>
                SoundEntries(StreamOf(stream.entries), messages) && AnnounceableEntries(StreamOf(stream.entries), messages) ==> ok
      ensures Effects(old(Database()), old(deadLettered), old(stream.Acked()), messages, events, applied, written, ok)
    {
      hide IsRun, Alone, TableOk, KeysOf, Wrote, Inserted, Letters, SoundEntries, AnnounceableEntries, AllSound, AllAnnounceable;
      applied, written := 0, {};
      var parsed, messageIDs := ParseMessages(messages);
      assert messages[..|messages|] == messages;
      events := parsed;
      EventsOfEntries(StreamOf(stream.entries), messages, parsed);
      ghost var acked;
      if parsed == [] {
        NothingWritten(Database(), []);
        NoKeys();
        assert AllSound([]) && AllAnnounceable([]) by { NoEvents(); }
        ok, acked := AckMessages(messageIDs, []);
        return;
      }
      ok, applied, written := ProcessBatchWithRetry(messageIDs, parsed);
      if !ok {
        RecordDrop();
        return;
      }
      ok, acked := AckMessages(messageIDs, parsed);
    }

    // A claim is due.
    ghost predicate Due(now: int) reads this`lastClaim {
      lastClaim.None? || now - lastClaim.value >= DEFAULT_CLAIM_INTERVAL
    }

    ghost predicate AllIdle(now: int) reads stream {
      forall id :: id in stream.pending ==> now - stream.pending[id] >= DEFAULT_CLAIM_IDLE
    }

    // The entries that have arrived and are not acknowledged.
    ghost function Backlog(): int reads stream
    {
      |stream.pending.Keys| + (stream.arrived - stream.lastDelivered)
    }

    // The first half of processOnce: idle entries are claimed, or else new ones are read.
    method Take(now: int) returns (ids: seq<StreamId>)
      requires Valid() && batch.None?
      modifies stream`lastDelivered, stream`pending, this`claimStartID, this`lastClaim, this`batch, this`run, env`faults
      ensures Valid() && old(run) <= run
      ensures env.faults >= old(env.faults)
      ensures if ids == [] then batch.None? else batch == Some(StartBatch(ids))
      ensures stream.Acked() == old(stream.Acked())
      ensures forall id :: id in ids ==> id < stream.lastDelivered && (id in old(stream.pending) || old(stream.lastDelivered) <= id)
      ensures if old(Due(now)) then lastClaim == Some(now)
              else lastClaim == old(lastClaim) && claimStartID == old(claimStartID)
      ensures Touched(old(stream.pending), stream.pending, now)
      ensures env.faults == old(env.faults) ==>
                stream.pending.Keys == old(stream.pending.Keys) + Ids(ids) && KeptBut(old(stream.pending), stream.pending, ids)
      ensures env.faults == old(env.faults) && ids == [] ==>
                stream.lastDelivered == stream.arrived == old(stream.lastDelivered) && stream.pending.Keys == old(stream.pending.Keys)
      ensures env.faults == old(env.faults) && ids != [] ==>
                old(stream.lastDelivered) <= stream.lastDelivered
                && (stream.lastDelivered > old(stream.lastDelivered) || exists id :: id in ids && id in old(stream.pending))
      ensures env.faults == old(env.faults) && ids == [] && old(Due(now)) && old(AllIdle(now)) ==>
                claimStartID == 0 && (old(claimStartID) == 0 ==> stream.pending == map[])
    {
      hide IsRun, Alone, TableOk, KeysOf;
      ids := MaybeClaimPending(now);
      if ids == [] {
        ids := ReadBatch(now);
        assert ids != [] ==> ids[0] in ids;
        assert stream.pending.Keys == {} ==> stream.pending == map[];
      } else {
        assert ids[0] in ids && ids[0] in old(stream.pending);
      }
    }

    // processOnce: what one turn of the worker does to the stream, the dead letters and the database.
    method ProcessOnce(now: int)
      returns (ok: bool, ghost ids: seq<StreamId>, ghost events: seq<ClickEvent>, ghost applied: nat, ghost written: set<DayKey>)
      requires Valid() && batch.None?
      modifies this, stream`lastDelivered, stream`pending, repo, env
      ensures Valid() && batch.None? && old(run) <= run
      ensures env.faults >= old(env.faults) && env.cancellations >= old(env.cancellations)
      ensures env.faults == old(env.faults)
          ==> (old(stream.lastDelivered) < stream.arrived ==> ids != [])
              && (ids != [] ==> deadLetters == old(deadLetters) + Letters(stream.entries, ids))
      ensures env.faults == old(env.faults) && env.cancellations == old(env.cancellations) ==>
                SoundEntries(StreamOf(stream.entries), ids) && AnnounceableEntries(StreamOf(stream.entries), ids) ==> ok
      ensures forall id :: id in ids ==> id in old(stream.pending) || old(stream.lastDelivered) <= id < stream.lastDelivered
      ensures ids == [] ==> Database() == old(Database()) && deadLettered == old(deadLettered)
                            && stream.Acked() == old(stream.Acked())
      ensures ids != [] ==>
                Effects(old(Database()), old(deadLettered), old(stream.Acked()), ids, events, applied, written, ok)
      ensures if old(Due(now)) then lastClaim == Some(now)
              else lastClaim == old(lastClaim) && claimStartID == old(claimStartID)
      ensures Touched(old(stream.pending), stream.pending, now)
      ensures env.faults == old(env.faults) && ok && ids != [] ==>
                LessLeft(old(stream.pending), old(stream.lastDelivered), stream.pending, stream.lastDelivered)
      ensures env.faults == old(env.faults) && ids == [] ==>
                NoneNew(old(stream.pending), stream.pending) && old(stream.lastDelivered) == stream.lastDelivered == stream.arrived
      ensures env.faults == old(env.faults) && ids == [] && old(Due(now)) && old(AllIdle(now)) ==>
                claimStartID == 0 && (old(claimStartID) == 0 ==> stream.pending == map[])
    {
      hide IsRun, Alone, TableOk, KeysOf, Wrote, Inserted, Letters, Malformed, ValidRows, SoundEntries, AnnounceableEntries;
      hide Effects, LessLeft, NoneNew, Current, Due, AllIdle, Touched, Kept, KeptBut, Ids;
      events, applied, written := [], 0, {};
      ids := [];
      var messages := Take(now);
      ids := messages;
      ghost var taken := stream.pending;
      if messages == [] {
        NothingTaken(old(stream.pending), taken);
        ok := true;
        return;
      }
      ok, events, applied, written := Process(messages);
      TouchedThenKept(old(stream.pending), taken, stream.pending, now);
      if ok && env.faults == old(env.faults) {
        LessPending(old(stream.pending), taken, stream.pending, messages, old(stream.lastDelivered), stream.lastDelivered);
      }
    }

    lemma NothingTaken(before: map<StreamId, int>, after: map<StreamId, int>)
      ensures KeptBut(before, after, []) && after.Keys == before.Keys ==> NoneNew(before, after)
    {
    }

    // Acknowledging what was taken leaves less: fewer old entries, or the same ones and fewer new ones.
    lemma LessPending(
      before: map<StreamId, int>, taken: map<StreamId, int>, after: map<StreamId, int>, ids: seq<StreamId>, from: nat, to: nat)
      requires taken.Keys == before.Keys + Ids(ids) && after.Keys == taken.Keys - Ids(ids) && from <= to
      requires KeptBut(before, taken, ids) && Kept(taken, after)
      requires to > from || exists id :: id in ids && id in before
      ensures LessLeft(before, from, after, to)
    {
      KeptThenGone(before, taken, after, ids);
      assert after.Keys == before.Keys - Ids(ids);
      SubsetSize(after.Keys, before.Keys);
      if id :| id in ids && id in before {
        SubsetSize(after.Keys, before.Keys - {id});
      }
    }

    // An upper bound on the turns still needed: every turn that takes something shrinks the backlog, and
    // one that takes nothing brings the claim cursor back to the start.
    ghost function TurnsLeft(): int reads this, stream
    {
      2 * Backlog() + if claimStartID != 0 then 1 else 0
    }

    // One turn, in terms of the turns still needed.
    method Turn(now: int)
      requires Valid() && batch.None?
      modifies this, stream`lastDelivered, stream`pending, repo, env
      ensures Valid() && batch.None? && old(run) <= run
      ensures env.faults >= old(env.faults) && env.cancellations >= old(env.cancellations)
      ensures if old(Due(now)) then lastClaim == Some(now) else lastClaim == old(lastClaim)
      ensures GoodUpTo(StreamOf(stream.entries), stream.arrived) && old(AllIdle(now)) ==>
                env.faults == old(env.faults) && env.cancellations == old(env.cancellations) ==>
                  && Kept(old(stream.pending), stream.pending)
                  && if old(Due(now)) then TurnsLeft() < old(TurnsLeft()) || Backlog() == 0 else TurnsLeft() <= old(TurnsLeft())
    {
      hide IsRun, Alone, TableOk, GoodUpTo, SoundEntries, AnnounceableEntries, Wrote, Letters, Due, AllIdle, Touched, Kept;
      ghost var ok, ids, events, applied, written := ProcessOnce(now);
      if GoodUpTo(StreamOf(stream.entries), stream.arrived) {
        GoodAmong(StreamOf(stream.entries), stream.arrived, ids);
      }
    }

    // Whatever has happened before, once faults and cancellations have stopped and what is pending has
    // become idle, every arrived entry is acknowledged after enough turns that find a claim due, if none
    // of the entries is bound to be refused. The turns may follow one another as closely as they like.
    method Drain(times: seq<int>)
      requires Valid() && batch.None?
      requires forall i, j :: 0 <= i <= j < |times| ==> times[i] <= times[j]
      requires times != [] ==> AllIdle(times[0])
      modifies this, stream`lastDelivered, stream`pending, repo, env
      ensures Valid() && batch.None? && old(run) <= run
      ensures GoodUpTo(StreamOf(stream.entries), stream.arrived) && DueTurns(old(lastClaim), times) >= old(TurnsLeft()) ==>
                env.faults == old(env.faults) && env.cancellations == old(env.cancellations) ==>
                stream.pending == map[] && forall id: StreamId :: id in stream.Acked() <==> id < stream.arrived
    {
      hide GoodUpTo, IsRun, Alone, TableOk;
      for i := 0 to |times|
        invariant Valid() && batch.None? && old(run) <= run
        invariant env.faults >= old(env.faults) && env.cancellations >= old(env.cancellations)
        invariant GoodUpTo(StreamOf(stream.entries), stream.arrived) ==>
                    env.faults == old(env.faults) && env.cancellations == old(env.cancellations) ==>
                      && (i < |times| ==> AllIdle(times[i]))
                      && (TurnsLeft() + DueTurns(old(lastClaim), times) <= old(TurnsLeft()) + DueTurns(lastClaim, times[i..])
                          || Backlog() == 0)
      {
        assert times[i..][0] == times[i] && times[i..][1..] == times[i + 1..];
        Turn(times[i]);
      }
    }

    lemma NoEvents()
      ensures AllSound([]) && AllAnnounceable([])
    {
    }

    lemma NoKeys()
      ensures KeysOf([]) == {}
    {
    }

    // Whatever happened before: when nothing is pending, every stats row is exact.
    lemma QuietStatsAreExact(key: DayKey)
      requires Valid() && stream.pending == map[]
      ensures Exact(Current(), key)
    {
      hide Next, DayStats, Window;
      forall s | s in run ensures KeyExclusive(s) {
        assert forall c, d :: c in s.batches && d in s.batches ==> c == d;
      }
      ExactOrAwaiting(run, key);
      NoneAwaiting(Current(), key);
    }
  }
}
