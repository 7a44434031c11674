// The webhook delivery worker (internal/webhook/worker.go), one per process, running beside
// publishers, endpoint edits and manual resets. The ghost run records the protocol steps taken.
module WebhookWorker {
  import opened Util
  import opened Backoff
  import opened DeliveryProtocol
  import opened DeliveryTheorems
  import opened DeliveryNulls
  import opened WebhookOutbox

  // What a fetch found: due deliveries as they are stored, each once, no more than the limit.
  ghost predicate FetchedDue(s: State, deliveries: seq<Fetched>, limit: nat) {
    && |deliveries| <= limit
    && (forall i :: 0 <= i < |deliveries| ==> Due(s, deliveries[i].id) && deliveries[i].row == s.rows[deliveries[i].id])
    && (forall i, j :: 0 <= i < j < |deliveries| ==> deliveries[i].id != deliveries[j].id)
  }

  // And all of them, if there is room.
  ghost predicate FetchedAll(s: State, deliveries: seq<Fetched>, limit: nat) {
    |deliveries| < limit ==>
      forall id: DeliveryId :: Due(s, id) ==> exists i :: 0 <= i < |deliveries| && deliveries[i].id == id
  }

  lemma FetchMeaning(s: State, ids: seq<DeliveryId>, limit: nat)
    requires Distinct(ids) && |ids| <= limit && forall i :: 0 <= i < |ids| ==> Due(s, ids[i])
    requires |ids| < limit ==> forall id: DeliveryId :: Due(s, id) ==> id in ids
    ensures (forall i :: 0 <= i < |ids| ==> ids[i] < |s.rows|)
            && FetchedDue(s, Copies(s.rows, ids), limit) && FetchedAll(s, Copies(s.rows, ids), limit)
  {
    assert forall i :: 0 <= i < |ids| ==> ids[i] < |s.rows|;
    hide Due;
    var fetched := Copies(s.rows, ids);
    forall id: DeliveryId | Due(s, id) && |ids| < limit ensures exists i :: 0 <= i < |fetched| && fetched[i].id == id {
      var i :| 0 <= i < |ids| && ids[i] == id;
      assert fetched[i].id == id;
    }
  }

  // What each outcome makes of a row.
  lemma OutcomeFields(d: Delivery, outcome: Outcome, now: int)
    ensures var e := Attempted(d, d, outcome, now);
            && e.eventId == d.eventId && e.endpointId == d.endpointId && e.maxAttempts == d.maxAttempts
            && (outcome.Skipped? ==> e == d)
            && (!outcome.Skipped? ==> e.attempts == d.attempts + 1 && e.lastAttemptAt == Some(now))
            && (outcome.EndpointGone? ==> e.status == Exhausted && e.nextRetryAt == now && e.lastError.Some?)
            && (outcome.Delivered? ==> e.status == Success && e.nextRetryAt == d.nextRetryAt && e.lastError.None?)
            && (outcome.Refused? ==>
                  e.status == (if d.attempts + 1 >= d.maxAttempts then Exhausted else Failed)
                  && e.nextRetryAt == now + outcome.delay && e.lastError.Some?)
  {
  }

  lemma FetchIs(s: State, ids: seq<DeliveryId>)
    requires |s.resets| == |s.rows| && s.batches == map[] && Distinct(ids) && forall i :: 0 <= i < |ids| ==> Due(s, ids[i])
    ensures (forall i :: 0 <= i < |ids| ==> ids[i] < |s.rows|) && Enabled(s, Fetch(0, ids))
    ensures Apply(s, Fetch(0, ids)) == s.(batches := map[0 := Copies(s.rows, ids)])
  {
  }

  class Worker {
    const repo: Repository
    const batchSize: nat
    ghost var holding: Option<seq<Fetched>>   // the deliveries of this turn not yet attempted
    ghost var run: seq<State>

    ghost function Current(): State reads this, repo {
      State(repo.now, repo.rows, repo.endpoints, repo.resets, if holding.Some? then map[0 := holding.value] else map[])
    }

    ghost predicate OneWorker() reads this`run {
      forall s :: s in run ==> s.batches.Keys <= {0}
    }

    ghost predicate Ready() reads this`run, repo {
      && repo.Valid() && run != [] && IsRun(run) && OneWorker() && |run[|run| - 1].resets| == |run[|run| - 1].rows|
      && (!repo.nullable ==> IsRunAsWritten(run))
    }

    ghost predicate Valid() reads this, repo {
      Ready() && run[|run| - 1] == Current()
    }

    constructor (repo: Repository)
      requires repo.Valid() && repo.rows == [] && repo.endpoints == map[]
      ensures Valid() && holding.None? && this.repo == repo && run == [Current()] && batchSize == 50
    {
      this.repo := repo;
      batchSize := DEFAULT_BATCH_SIZE;
      holding := None;
      run := [Init(repo.now)];
    }

    // One protocol step was just taken.
    ghost method Record(step: Step)
      requires Ready() && Enabled(run[|run| - 1], step) && Current() == Apply(run[|run| - 1], step)
      requires step.Fetch? && !repo.nullable ==> Scannable(run[|run| - 1].rows, step.ids)
      modifies this`run
      ensures Valid() && run == old(run) + [Current()]
    {
      hide Enabled, Apply, IsRun, Next, IsRunAsWritten, NextAsWritten;
      var r := Extend(run, step);
      if !repo.nullable {
        var w := ExtendAsWritten(run, step);
        assert w == r;
      }
      assert Current().batches.Keys <= {0};
      run := r;
    }

    // With one worker, what is held is what the table says, and it is due.
    lemma HeldMatches()
      requires Valid()
      ensures Inv(Current())
    {
      hide Next, Inv;
      forall s | s in run ensures Exclusive(s) {
        assert s.batches.Keys <= {0};
      }
      InvRun(run, |run| - 1);
    }

    // Something else that goes on while the worker is busy.
    method Other()
      requires Valid()
      modifies repo, this`run, repo.env`faults
      ensures Valid() && old(run) <= run && |old(repo.rows)| <= |repo.rows| && old(repo.now) <= repo.now
      ensures repo.env.faults >= old(repo.env.faults)
    {
      hide IsRun, IsRunAsWritten, OneWorker, NewDelivery;
      if
      case true =>
        var later: int := *;
        if later >= repo.now {
          repo.now := later;
          Record(Tick(later));
        }
      case true =>
        var endpointId: EndpointId, eventId: EventId :| endpointId >= 0 && eventId >= 0;
        if endpointId in repo.endpoints {
          var ok;
          ghost var reached;
          ok, reached := repo.CreateDelivery(endpointId, eventId, repo.now);
          if reached {
            assert repo.resets == if Exists(old(repo.rows), endpointId, eventId) then old(repo.resets) else old(repo.resets) + [0];
            Record(Create(endpointId, eventId));
          }
        }
      case true =>
        var edited: map<EndpointId, Endpoint> := *;
        if repo.endpoints.Keys <= edited.Keys {
          repo.endpoints := edited;
          Record(EditEndpoints(edited));
        }
      case true =>
        var id: DeliveryId :| id >= 0;
        var result;
        ghost var reached;
        result, reached := repo.ResetDeliveryForRetry(id);
        if reached {
          Record(Reset(id));
        }
    }

    method Others()
      requires Valid()
      modifies repo, this`run, repo.env`faults
      ensures Valid() && old(run) <= run && |old(repo.rows)| <= |repo.rows| && old(repo.now) <= repo.now
      ensures repo.env.faults >= old(repo.env.faults)
    {
      hide Valid;
      var n: int := *;
      for i := 0 to if n < 0 then 0 else n
        invariant Valid() && old(run) <= run && |old(repo.rows)| <= |repo.rows| && old(repo.now) <= repo.now
        invariant repo.env.faults >= old(repo.env.faults)
      {
        Other();
      }
    }

    // The head of what is held was dealt with.
    ghost method RecordAttempt(outcome: Outcome)
      requires Ready() && holding.Some? && holding.value != []
      requires var s := run[|run| - 1];
               && s.batches == map[0 := holding.value] && Enabled(s, Attempt(0, outcome))
               && var head := holding.value[0];
                  Current() == s.(rows := s.rows[head.id := Attempted(s.rows[head.id], head.row, outcome, s.now)])
      modifies this`holding, this`run
      ensures Valid() && old(run) <= run && holding == Some(old(holding).value[1..])
    {
      hide IsRun, IsRunAsWritten, OneWorker, Attempted, IsExhausted, InRange;
      holding := Some(holding.value[1..]);
      Record(Attempt(0, outcome));
    }

    // handleDeliveryError: the decision is made from the fetched count.
    method HandleDeliveryError(delivery: Fetched) returns (ok: bool, ghost outcome: Outcome)
      requires Valid() && holding.Some? && holding.value != [] && holding.value[0] == delivery
      requires delivery.id < |repo.rows|
      modifies repo`rows, this`holding, this`run, repo.env`faults
      ensures Valid() && old(run) <= run && holding == Some(old(holding).value[1..])
      ensures repo.env.faults >= old(repo.env.faults) + if ok then 0 else 1
      ensures ok ==> !outcome.Skipped?
      ensures outcome.Skipped? || (outcome.Refused? && InRange(delivery.row.attempts + 1, outcome.delay))
      ensures repo.rows == old(repo.rows)[delivery.id := Attempted(old(repo.rows)[delivery.id], delivery.row, outcome, repo.now)]
    {
      hide IsRun, IsRunAsWritten, OneWorker, InRange;
      var nextAttempt := delivery.row.attempts + 1;
      var exhausted := IsExhausted(nextAttempt, delivery.row.maxAttempts);
      var random: real :| 0.0 <= random < 1.0;
      var delay := NextRetryDelay(nextAttempt, random);
      ghost var reached;
      ok, reached := repo.UpdateDeliveryFailure(delivery.id, repo.now + delay, AttemptFailed, exhausted);
      outcome := if reached then Refused(delay) else Skipped;
      RecordAttempt(outcome);
    }

    // The endpoint a delivery goes to can be called.
    ghost predicate Callable(endpoints: map<EndpointId, Endpoint>, id: EndpointId) {
      id in endpoints && IsActive(endpoints[id])
    }

    // deliver: the endpoint is read, the request sent, the row updated, with the rest of the system
    // running in between. The stored row afterwards is what the outcome makes of the fetched copy.
    // response is the status received, None for a network error.
    // Field by field: an endpoint that is gone exhausts the delivery, a 2xx answer settles it, anything else
    // fails it, or exhausts it at the last attempt allowed; only an error before the update leaves it alone.
    method Deliver(delivery: Fetched, response: Option<int>) returns (ok: bool, ghost outcome: Outcome)
      requires Valid() && holding.Some? && holding.value != [] && holding.value[0] == delivery
      modifies repo, this`holding, this`run, repo.env`faults
      ensures Valid() && old(run) <= run && holding == Some(old(holding).value[1..])
      ensures repo.env.faults >= old(repo.env.faults) + if ok then 0 else 1
      ensures delivery.id < |repo.rows|
      ensures repo.rows[delivery.id] == Attempted(delivery.row, delivery.row, outcome, repo.now)
      ensures var callable := Callable(old(repo.endpoints), delivery.row.endpointId);
              var accepted := response.Some? && 200 <= response.value < 300;
              && (ok ==> !outcome.Skipped?)
              && (outcome.EndpointGone? ==> !callable)
              && (outcome.Delivered? ==> callable && accepted)
              && (outcome.Refused? ==> callable && !accepted && InRange(delivery.row.attempts + 1, outcome.delay))
      ensures var d, e, before := delivery.row, repo.rows[delivery.id], old(repo.endpoints);
              var gone := !(d.endpointId in before && before[d.endpointId].enabled && !before[d.endpointId].deleted);
              var accepted := response.Some? && 200 <= response.value < 300;
              && (ok ==> e.attempts == d.attempts + 1)
              && e.eventId == d.eventId && e.endpointId == d.endpointId && e.maxAttempts == d.maxAttempts
              && (e.attempts == d.attempts + 1 || e == d)
              && (e.attempts == d.attempts + 1 ==>
                    && e.lastAttemptAt == Some(repo.now)
                    && e.status == (if gone then Exhausted else if accepted then Success
                                    else if d.attempts + 1 >= d.maxAttempts then Exhausted else Failed)
                    && (e.lastError.None? <==> !gone && accepted)
                    && (gone ==> e.nextRetryAt == repo.now)
                    && (!gone && accepted ==> e.nextRetryAt == d.nextRetryAt)
                    && (!gone && !accepted ==> InRange(d.attempts + 1, e.nextRetryAt - repo.now)))
    {
      hide IsRun, IsRunAsWritten, OneWorker, InRange, Inv, IsExhausted;
      var result := repo.GetEndpoint(delivery.row.endpointId);
      if result.Found? && IsActive(result.endpoint) {
        Others();
      }
      HeldMatches();
      CopyIsRow(Current(), 0);
      ghost var reached;
      if result.QueryFailed? {
        ok, outcome := false, Skipped;
        RecordAttempt(Skipped);
      } else if result.NotFound? || !IsActive(result.endpoint) {
        ok, reached := repo.UpdateDeliveryFailure(delivery.id, repo.now, EndpointUnavailable, true);
        outcome := if reached then EndpointGone else Skipped;
        RecordAttempt(outcome);
      } else if response.Some? && 200 <= response.value < 300 {
        ok, reached := repo.UpdateDeliverySuccess(delivery.id);
        outcome := if reached then Delivered else Skipped;
        RecordAttempt(outcome);
      } else {
        ok, outcome := HandleDeliveryError(delivery);
      }
      OutcomeFields(delivery.row, outcome, repo.now);
    }

    // The i-th delivery of a turn was attempted on exactly the row that was fetched.
    ghost predicate AttemptedAt(mark: nat, delivery: Fetched, outcome: Outcome) reads this`run {
      && mark < |run| && delivery.id < |run[mark].rows|
      && run[mark].rows[delivery.id] == Attempted(delivery.row, delivery.row, outcome, run[mark].now)
    }

    method AttemptAll(deliveries: seq<Fetched>, responses: seq<Option<int>>)
      returns (ghost outcomes: seq<Outcome>, ghost marks: seq<nat>)
      requires Valid() && holding == Some(deliveries)
      modifies repo, this`holding, this`run, repo.env`faults
      ensures Valid() && old(run) <= run && holding.None?
      ensures repo.env.faults >= old(repo.env.faults)
      ensures repo.env.faults == old(repo.env.faults) ==> forall o :: o in outcomes ==> !o.Skipped?
      ensures |outcomes| == |marks| == |deliveries|
      ensures forall i :: 0 <= i < |deliveries| ==> AttemptedAt(marks[i], deliveries[i], outcomes[i])
    {
      hide IsRun, IsRunAsWritten, OneWorker, Attempted, InRange, Inv;
      outcomes, marks := [], [];
      for i := 0 to |deliveries|
        invariant Valid() && old(run) <= run && holding == Some(deliveries[i..])
        invariant |outcomes| == |marks| == i && repo.env.faults >= old(repo.env.faults)
        invariant repo.env.faults == old(repo.env.faults) ==> forall o :: o in outcomes ==> !o.Skipped?
        invariant forall k :: 0 <= k < i ==> AttemptedAt(marks[k], deliveries[k], outcomes[k])
      {
        ghost var before := run;
        Others();
        var ok;
        ghost var outcome;
        ok, outcome := Deliver(deliveries[i], if i < |responses| then responses[i] else None);
        assert forall k :: 0 <= k < |before| ==> run[k] == before[k];
        outcomes, marks := outcomes + [outcome], marks + [|run| - 1];
      }
      holding := None;
      assert map[0 := deliveries[|deliveries|..]] - {0} == map[];
      Record(Leave(0));
    }

    // processOnce: the most overdue deliveries are fetched, if all of them can be read, and each is
    // attempted once, on the row that was fetched; a failure does not stop the others.
    method ProcessOnce(responses: seq<Option<int>>)
      returns (ok: bool, ghost deliveries: seq<Fetched>, ghost outcomes: seq<Outcome>, ghost marks: seq<nat>)
      requires Valid() && holding.None?
      modifies repo, this`holding, this`run, repo.env`faults
      ensures Valid() && old(run) <= run && holding.None?
      ensures repo.env.faults == old(repo.env.faults) ==>
                (repo.nullable ==> ok) && forall o :: o in outcomes ==> !o.Skipped?
      ensures FetchedDue(old(Current()), deliveries, batchSize) && (ok ==> FetchedAll(old(Current()), deliveries, batchSize))
      ensures |outcomes| == |marks| == |deliveries|
      ensures forall i :: 0 <= i < |deliveries| ==> AttemptedAt(marks[i], deliveries[i], outcomes[i])
      ensures !repo.nullable ==> deliveries == []
    {
      hide IsRun, IsRunAsWritten, OneWorker, Attempted, InRange, Inv, Due, AttemptedAt, FetchedDue, FetchedAll;
      outcomes, marks := [], [];
      var fetched;
      ok, fetched := FetchDeliveries();
      deliveries := fetched;
      if !ok {
        return;
      }
      outcomes, marks := AttemptAll(fetched, responses);
    }

    // The first half of processOnce.
    method FetchDeliveries() returns (ok: bool, deliveries: seq<Fetched>)
      requires Valid() && holding.None?
      modifies this`holding, this`run, repo.env`faults
      ensures Valid() && old(run) <= run && holding == if ok then Some(deliveries) else None
      ensures repo.env.faults >= old(repo.env.faults)
      ensures repo.env.faults == old(repo.env.faults) && repo.nullable ==> ok
      ensures FetchedDue(old(Current()), deliveries, batchSize) && (ok ==> FetchedAll(old(Current()), deliveries, batchSize))
      ensures !ok || !repo.nullable ==> deliveries == []
    {
      hide IsRun, IsRunAsWritten, OneWorker, Inv;
      var ids;
      ghost var selected;
      ok, ids, selected := repo.GetPendingDeliveries(batchSize);
      deliveries := [];
      if !ok {
        return;
      }
      assert forall id: DeliveryId :: repo.IsDue(id) == Due(Current(), id);
      hide Due, FetchedDue, FetchedAll, Enabled, Apply;
      FetchIs(Current(), ids);
      FetchMeaning(Current(), ids, batchSize);
      deliveries := Copies(repo.rows, ids);
      assert Last().batches == map[];
      if !repo.nullable {
        NothingFetched(ids);
      }
      holding := Some(deliveries);
      Record(Fetch(0, ids));
    }

    // The code never fetches anything.
    lemma NothingFetched(ids: seq<DeliveryId>)
      requires Valid() && !repo.nullable && forall id :: id in ids ==> repo.Readable(id)
      ensures ids == [] && Scannable(repo.rows, ids) && Untouched(Current())
    {
      hide IsRun, NextAsWritten;
      NothingIsEverAttempted(run, |run| - 1);
      FirstIn(ids);
      NoneScannable(repo.rows, ids);
    }

    // So after any number of turns, publishes, edits and resets, every delivery is as it was created.
    lemma NothingIsEverDelivered()
      requires Valid() && !repo.nullable
      ensures Untouched(Current())
    {
      hide IsRun, NextAsWritten;
      NothingIsEverAttempted(run, |run| - 1);
    }

    ghost function Last(): State
      requires run != []
      reads this
    {
      run[|run| - 1]
    }
  }
}
