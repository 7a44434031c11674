// The webhook outbox as the code stands (internal/webhook/repository.go): the fetch scans last_error into a
// plain string, so it fails as a whole when a row it selects has none, which every new row has.
module DeliveryNulls {
  import opened Util
  import opened Backoff
  import opened DeliveryProtocol
  import opened DeliveryTheorems

  ghost predicate Scannable(rows: seq<Delivery>, ids: seq<DeliveryId>) {
    forall id :: id in ids ==> id < |rows| && rows[id].lastError.Some?
  }

  // A step of the code: a fetch succeeds only on rows it can scan.
  ghost predicate CanStep(s: State, step: Step) {
    Enabled(s, step) && (step.Fetch? ==> Scannable(s.rows, step.ids))
  }

  ghost predicate NextAsWritten(s: State, t: State) {
    |s.resets| == |s.rows| && exists step :: CanStep(s, step) && t == Apply(s, step)
  }

  ghost predicate IsRunAsWritten(run: seq<State>) {
    && run != []
    && run[0] == Init(run[0].now)
    && forall i :: 0 < i < |run| ==> NextAsWritten(run[i - 1], run[i])
  }

  // Every delivery is as it was created, and no worker holds any.
  ghost predicate Untouched(s: State) {
    && |s.resets| == |s.rows|
    && (forall id :: 0 <= id < |s.rows| ==>
          s.rows[id].status == Pending && s.rows[id].attempts == 0 && s.rows[id].lastError.None? && s.resets[id] == 0)
    && (forall w :: w in s.batches ==> s.batches[w] == [])
  }

  lemma FirstIn(ids: seq<DeliveryId>)
    ensures ids == [] || ids[0] in ids
  {
  }

  lemma NoneScannable(rows: seq<Delivery>, ids: seq<DeliveryId>)
    requires Scannable(rows, ids) && forall id :: 0 <= id < |rows| ==> rows[id].lastError.None?
    requires ids == [] || ids[0] in ids
    ensures ids == []
  {
  }

  lemma UntouchedStep(s: State, t: State)
    requires Untouched(s) && NextAsWritten(s, t)
    ensures Untouched(t)
  {
    hide Attempted;
    var step :| CanStep(s, step) && t == Apply(s, step);
    if step.Fetch? {
      FirstIn(step.ids);
      NoneScannable(s.rows, step.ids);
    }
  }

  // No delivery is ever attempted: in every run of the code, with any number of workers, whatever is published,
  // edited and reset, every delivery stays pending with no attempts, and no worker ever holds one.
  lemma {:induction false} NothingIsEverAttempted(run: seq<State>, i: nat)
    requires IsRunAsWritten(run) && i < |run|
    ensures Untouched(run[i])
  {
    hide NextAsWritten, Untouched;
    if i == 0 {
      assert Untouched(run[0]) by { NothingYet(run[0].now); }
    } else {
      NothingIsEverAttempted(run, i - 1);
      UntouchedStep(run[i - 1], run[i]);
    }
  }

  lemma NothingYet(now: int)
    ensures Untouched(Init(now))
  {
  }

  // The code's runs are runs of the protocol, in which the column is read as nullable.
  lemma AsWrittenIsRun(run: seq<State>)
    requires IsRunAsWritten(run)
    ensures IsRun(run)
  {
    hide Apply, Enabled;
    forall i | 0 < i < |run| ensures Next(run[i - 1], run[i]) {
      assert NextAsWritten(run[i - 1], run[i]);
    }
  }

  lemma ExtendAsWritten(run: seq<State>, step: Step) returns (r: seq<State>)
    requires IsRunAsWritten(run) && CanStep(run[|run| - 1], step) && |run[|run| - 1].resets| == |run[|run| - 1].rows|
    ensures IsRunAsWritten(r) && r == run + [Apply(run[|run| - 1], step)]
  {
    hide Enabled, Attempted, Scannable;
    var last := run[|run| - 1];
    r := run + [Apply(last, step)];
    assert NextAsWritten(last, r[|run|]);
    hide NextAsWritten, Apply, CanStep;
    forall i | 0 < i < |r| ensures NextAsWritten(r[i - 1], r[i]) {
      if i < |run| {
        assert r[i - 1] == run[i - 1] && r[i] == run[i];
      }
    }
  }

  ghost predicate NullIffFresh(d: Delivery) {
    d.lastError.None? <==> d.attempts == 0 || d.status == Success
  }

  lemma NullStep(s: State, t: State)
    requires Next(s, t) && forall id :: 0 <= id < |s.rows| ==> NullIffFresh(s.rows[id])
    ensures forall id :: 0 <= id < |t.rows| ==> NullIffFresh(t.rows[id])
  {
    hide NullIffFresh, IsExhausted;
    var step :| Enabled(s, step) && t == Apply(s, step);
    if step.Attempt? {
      var head := s.batches[step.w][0];
      NullAttempted(s.rows[head.id], head.row, step.outcome, s.now);
      hide Attempted;
    } else if step.Create? {
      NullNew(step.endpointId, step.eventId, s.now);
    } else if step.Reset? {
      NullReset(s.rows[step.id], s.now);
    }
  }

  lemma NullAttempted(d: Delivery, copy: Delivery, outcome: Outcome, now: int)
    requires NullIffFresh(d)
    ensures NullIffFresh(Attempted(d, copy, outcome, now))
  {
  }

  lemma NullNew(endpointId: EndpointId, eventId: EventId, now: int)
    ensures NullIffFresh(NewDelivery(endpointId, eventId, now))
  {
  }

  lemma NullReset(d: Delivery, now: int)
    requires NullIffFresh(d) && d.status == Exhausted
    ensures NullIffFresh(d.(status := Pending, nextRetryAt := now))
  {
  }

  // With the column read as nullable, the rows the code's fetch could not scan are, in every run and among those
  // a fetch selects, exactly the ones that were never attempted.
  lemma {:induction false} UnscannableIffFresh(run: seq<State>, i: nat, id: DeliveryId)
    requires IsRun(run) && i < |run| && id < |run[i].rows|
    ensures !Scannable(run[i].rows, [id]) <==> run[i].rows[id].attempts == 0 || run[i].rows[id].status == Success
    ensures Due(run[i], id) ==> (!Scannable(run[i].rows, [id]) <==> run[i].rows[id].attempts == 0)
  {
    hide Next;
    NullAlong(run, i);
    assert NullIffFresh(run[i].rows[id]);
  }

  lemma {:induction false} NullAlong(run: seq<State>, i: nat)
    requires IsRun(run) && i < |run|
    ensures forall id :: 0 <= id < |run[i].rows| ==> NullIffFresh(run[i].rows[id])
  {
    hide Next, NullIffFresh;
    if i > 0 {
      NullAlong(run, i - 1);
      NullStep(run[i - 1], run[i]);
    }
  }
}
