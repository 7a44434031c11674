// What an acknowledgement says of an entry beyond its row: nothing made for it was bound to be refused.
// Entries of which that is not so stay pending for good (internal/analytics/worker.go).
module IngestionVetting {
  import opened Util
  import opened Clicks
  import opened DailyStats
  import opened ClickEvents
  import opened IngestionProtocol
  import opened IngestionTheorems

  // The event a valid entry becomes, whatever its row id.
  function EntryEventOf(stream: Stream, id: StreamId): ClickEvent
    requires AcceptedId(stream, id)
  {
    ClickEvent(0, Parse(stream[id]).payload.ownerId, RowOf(stream, id))
  }

  // The events carry the owners of their entries.
  ghost predicate OwnersOk(stream: Stream, events: seq<ClickEvent>) {
    forall i :: 0 <= i < |events| ==>
      AcceptedId(stream, events[i].click.eventId)
      && events[i].ownerId == EntryEventOf(stream, events[i].click.eventId).ownerId
  }

  // What was recomputed and published could be, and nothing is published before everything is stored and recounted.
  ghost predicate Vetted(stream: Stream, b: Batch) {
    && OwnersOk(stream, b.events)
    && b.published <= |b.events|
    && (b.published > 0 ==> b.parsed == |b.ids| && b.inserted == |b.events| && b.settled == KeysOf(b.events))
    && (forall i :: 0 <= i < b.published ==> NoNul(b.events[i].ownerId))
    && (forall key :: key in b.settled ==> Recomputable(key))
    && (b.read.Some? ==> Recomputable(b.read.value.key))
  }

  ghost predicate Vetting(s: State) {
    && (forall c :: c in s.batches ==> Vetted(s.stream, s.batches[c]))
    && (forall id :: id in s.acked && AcceptedId(s.stream, id) ==> Sound(EntryEventOf(s.stream, id)))
  }

  lemma VettedParse(s: State, step: Step)
    requires Enabled(s, step) && step.ParseOne? && Vetted(s.stream, s.batches[step.c])
    ensures Vetted(s.stream, Apply(s, step).batches[step.c])
  {
    hide ValidPayload, NoNul, Recomputable;
  }

  lemma VettedRest(s: State, step: Step)
    requires Enabled(s, step) && !step.Fetch? && !step.ParseOne? && Vetted(s.stream, s.batches[step.c])
    requires s.batches[step.c].read.Some? ==> s.batches[step.c].read.value.key in KeysOf(s.batches[step.c].events)
    ensures var t := Apply(s, step); step.c in t.batches ==> Vetted(s.stream, t.batches[step.c])
  {
    hide OwnersOk, NoNul, Recomputable, DayStats, InsertRow;
  }

  lemma CountedKey(s: State, c: Consumer)
    requires Inv(s) && c in s.batches
    ensures s.batches[c].read.Some? ==> s.batches[c].read.value.key in KeysOf(s.batches[c].events)
  {
    hide StoreOk, KeysOf;
  }

  // Acknowledged entries of a batch had their row stored, their day recounted and their owner looked up.
  lemma AckedIsSound(s: State, step: Step, id: StreamId)
    requires Inv(s) && Enabled(s, step) && step.Ack? && Vetted(s.stream, s.batches[step.c])
    requires id in s.batches[step.c].ids && AcceptedId(s.stream, id)
    ensures Sound(EntryEventOf(s.stream, id))
  {
    hide StoreOk, RowOf, NoNul, Recomputable, Storable, Parse;
    var b := s.batches[step.c];
    assert BatchOk(s, b);
    var i := EntryEvent(s, b, id);
    assert b.events[i] in b.events && KeyOf(b.events[i].click) in b.settled;
    assert id in s.table.eventIds;
    hide BatchOk;
    StoredIsStorable(s, id);
  }

  lemma StoredIsStorable(s: State, id: StreamId)
    requires Inv(s) && id in s.table.eventIds
    ensures AcceptedId(s.stream, id) && Storable(RowOf(s.stream, id))
  {
    hide BatchOk, Storable, Processed, RowOf, AcceptedId;
    StoredRow(s, id);
  }

  lemma VettingStep(s: State, t: State)
    requires Inv(s) && Vetting(s) && Next(s, t)
    ensures Vetting(t)
  {
    hide Inv, Vetted, Sound, DayStats, InsertRow, Parse, RowOf, Insertable, KeysOf;
    var step :| Enabled(s, step) && t == Apply(s, step);
    if step.ParseOne? {
      VettedParse(s, step);
    } else if step.Fetch? {
      assert Vetted(s.stream, StartBatch(step.ids)) by { StartIsVetted(s.stream, step.ids); }
    } else {
      CountedKey(s, step.c);
      VettedRest(s, step);
    }
    forall id | id in t.acked && AcceptedId(t.stream, id) ensures Sound(EntryEventOf(t.stream, id)) {
      if id !in s.acked {
        AckedIsSound(s, step, id);
      }
    }
  }

  lemma StartIsVetted(stream: Stream, ids: seq<StreamId>)
    ensures Vetted(stream, StartBatch(ids))
  {
  }

  lemma {:induction false} VettingRun(run: seq<State>, i: nat)
    requires IsRun(run) && i < |run|
    ensures Vetting(run[i])
  {
    hide Next, Inv;
    if i > 0 {
      VettingRun(run, i - 1);
      InvRun(run, i - 1);
      hide Vetting;
      VettingStep(run[i - 1], run[i]);
    }
  }

  // In every run with any number of consumers: when an event is published its row is stored and the rows of
  // its bucket have been counted.
  lemma PublishedIsStored(run: seq<State>, i: nat, c: Consumer, k: nat)
    requires IsRun(run) && i < |run| && c in run[i].batches && k < run[i].batches[c].published
    ensures var s, b := run[i], run[i].batches[c];
            && k < |b.events| && b.events[k].click.eventId in s.table.eventIds
            && (forall id :: id in b.ids && AcceptedId(s.stream, id) ==> id in s.table.eventIds)
            && DayKey(b.events[k].click.linkId, b.events[k].click.clickedAt / 86_400_000) in b.settled
  {
    hide Next, Recomputable, NoNul, RowOf, Parse, AcceptedId;
    InvRun(run, i);
    VettingRun(run, i);
    var s, b := run[i], run[i].batches[c];
    assert BatchOk(s, b) && Vetted(s.stream, b);
    assert b.events[k] in b.events;
    forall id | id in b.ids && AcceptedId(s.stream, id) ensures id in s.table.eventIds {
      var j := EntryEvent(s, b, id);
    }
  }

  // A valid entry of which some statement is bound to be refused is never acknowledged, and so is pending
  // for good, in every run with any number of consumers: it keeps each of its batches from succeeding.
  // If it is its row that is refused, it is never stored either.
  lemma UnsoundStaysPending(run: seq<State>, i: nat, j: nat, id: StreamId)
    requires IsRun(run) && i <= j < |run| && id in run[i].pending
    requires AcceptedId(run[i].stream, id) && !Sound(EntryEventOf(run[i].stream, id))
    ensures id in run[j].pending && id !in run[j].acked
    ensures !Storable(RowOf(run[i].stream, id)) ==> id !in run[j].table.eventIds
  {
    hide Next, Inv, Sound, Storable, Parse, ClickOf;
    PendingOrAcked(run, i, j, id);
    InvRun(run, j);
    VettingRun(run, j);
    if id in run[j].table.eventIds {
      StoredIsStorable(run[j], id);
    }
  }
}
