// What every run of webhook deliveries guarantees, and what breaks when two workers share a delivery.
module DeliveryTheorems {
  import opened Util
  import opened Backoff
  import opened DeliveryProtocol

  // ---- one step ----

  // The copy a worker decides from is the row it updates, and the row is due and not terminal.
  lemma CopyIsRow(s: State, w: WorkerId)
    requires Inv(s) && w in s.batches && s.batches[w] != []
    ensures var head := s.batches[w][0];
            && head.id < |s.rows| && s.rows[head.id] == head.row
            && !IsTerminal(head.row) && head.row.nextRetryAt <= s.now
  {
    hide RowsOk;
    assert BatchOk(s, s.batches[w]);
    assert CopyOk(s, s.batches[w][0]);
  }

  // A row, once there, changes only by an attempt while it is not terminal, which counts one and
  // is the last one if no more are allowed, or by a manual reset of an exhausted row.
  ghost predicate RowMoves(d: Delivery, e: Delivery, resets: nat, resets': nat) {
    || (e == d && resets' == resets)
    || (!IsTerminal(d) && e.attempts == d.attempts + 1 && e.maxAttempts == d.maxAttempts && e.status != Pending
        && (e.attempts >= d.maxAttempts ==> IsTerminal(e)) && resets' == resets)
    || (d.status == Exhausted && e == d.(status := Pending, nextRetryAt := e.nextRetryAt) && resets' == resets + 1)
  }

  lemma RowStep(s: State, t: State, id: DeliveryId)
    requires Inv(s) && Exclusive(s) && Next(s, t) && id < |s.rows| && id < |s.resets|
    ensures id < |t.rows| == |t.resets| && RowMoves(s.rows[id], t.rows[id], s.resets[id], t.resets[id])
  {
    hide Exclusive, RowOk, NoDuplicates, BatchOk;
    var step :| Enabled(s, step) && t == Apply(s, step);
    if step.Attempt? {
      CopyIsRow(s, step.w);
    }
  }

  // ---- whole runs in which no two workers hold the same delivery ----

  // What later states may say about a row d with the given number of resets.
  ghost predicate Since(d: Delivery, e: Delivery, resets: nat, resets': nat) {
    && resets <= resets' && e.maxAttempts == d.maxAttempts
    && (d.status == Success ==> e == d)
    && (resets == resets' && IsTerminal(d) ==> e == d)
    && (resets == resets' && d.status == Pending && d.attempts >= d.maxAttempts ==>
          e == d || (IsTerminal(e) && e.attempts == d.attempts + 1))
  }

  lemma {:induction false} RowAlong(run: seq<State>, i: nat, j: nat, id: DeliveryId)
    requires IsRun(run) && (forall s :: s in run ==> Exclusive(s)) && i <= j < |run|
    requires id < |run[i].rows| && id < |run[i].resets|
    ensures id < |run[j].rows| == |run[j].resets|
    ensures Since(run[i].rows[id], run[j].rows[id], run[i].resets[id], run[j].resets[id])
  {
    hide Exclusive, Next;
    InvRun(run, j);
    if i < j {
      RowAlong(run, i, j - 1, id);
      InvRun(run, j - 1);
      hide Inv;
      assert run[j - 1] in run;
      RowStep(run[j - 1], run[j], id);
    }
  }

  // Whatever a worker still holds, anywhere in its batch and at any point of the run, is what the
  // table says: the count it decides from is the stored count, and the row is due and not terminal.
  lemma CopyMatchesRow(run: seq<State>, i: nat, w: WorkerId, k: nat)
    requires IsRun(run) && (forall s :: s in run ==> Exclusive(s)) && i < |run|
    requires w in run[i].batches && k < |run[i].batches[w]|
    ensures var f := run[i].batches[w][k];
            && f.id < |run[i].rows| && run[i].rows[f.id] == f.row
            && !IsTerminal(f.row) && f.row.nextRetryAt <= run[i].now
  {
    hide Next, Exclusive, RowsOk;
    InvRun(run, i);
    assert BatchOk(run[i], run[i].batches[w]);
    assert CopyOk(run[i], run[i].batches[w][k]);
  }

  // Once a click has a delivery to an endpoint, publishing it there again changes nothing, whatever
  // workers, resets and edits have done to the row in between, and whoever shares it.
  lemma PublishedForGood(run: seq<State>, i: nat, j: nat, endpointId: EndpointId, eventId: EventId)
    requires IsRun(run) && i <= j < |run| && Exists(run[i].rows, endpointId, eventId)
    requires |run[j].resets| == |run[j].rows| && Enabled(run[j], Create(endpointId, eventId))
    ensures Apply(run[j], Create(endpointId, eventId)) == run[j]
  {
    hide Next;
    KnownAlong(run, i, j, endpointId, eventId);
  }

  lemma {:induction false} KnownAlong(run: seq<State>, i: nat, j: nat, endpointId: EndpointId, eventId: EventId)
    requires IsRun(run) && i <= j < |run| && Exists(run[i].rows, endpointId, eventId)
    ensures Exists(run[j].rows, endpointId, eventId)
  {
    hide Next;
    if i < j {
      KnownAlong(run, i, j - 1, endpointId, eventId);
      KeysStay(run[j - 1], run[j]);
      var k :| 0 <= k < |run[j - 1].rows| && run[j - 1].rows[k].endpointId == endpointId && run[j - 1].rows[k].eventId == eventId;
      assert run[j].rows[k].endpointId == endpointId && run[j].rows[k].eventId == eventId;
    }
  }

  lemma KeysStay(s: State, t: State)
    requires Next(s, t)
    ensures |s.rows| <= |t.rows|
    ensures forall k :: 0 <= k < |s.rows| ==>
              t.rows[k].endpointId == s.rows[k].endpointId && t.rows[k].eventId == s.rows[k].eventId
  {
    hide Attempted, NewDelivery;
    var step :| Enabled(s, step) && t == Apply(s, step);
    if step.Attempt? {
      var head := s.batches[step.w][0];
      AttemptedKey(s.rows[head.id], head.row, step.outcome, s.now);
    }
  }

  // At no point of any run, whoever shares what, do two rows have the same event and endpoint.
  lemma {:induction false} AtMostOneRow(run: seq<State>, i: nat)
    requires IsRun(run) && i < |run|
    ensures NoDuplicates(run[i].rows)
  {
    hide Next;
    if i > 0 {
      AtMostOneRow(run, i - 1);
      NoDuplicatesStep(run[i - 1], run[i]);
    }
  }

  lemma NoDuplicatesStep(s: State, t: State)
    requires Next(s, t) && NoDuplicates(s.rows)
    ensures NoDuplicates(t.rows)
  {
    hide Attempted;
    KeysStay(s, t);
    var step :| Enabled(s, step) && t == Apply(s, step);
    assert step.Create? || |t.rows| == |s.rows|;
  }

  // Success is absorbing, whatever else happens.
  lemma SuccessAbsorbs(run: seq<State>, i: nat, j: nat, id: DeliveryId)
    requires IsRun(run) && (forall s :: s in run ==> Exclusive(s)) && i <= j < |run|
    requires id < |run[i].rows| && run[i].rows[id].status == Success
    ensures id < |run[j].rows| && run[j].rows[id] == run[i].rows[id]
  {
    hide Exclusive, Next;
    InvRun(run, i);
    hide Inv;
    RowAlong(run, i, j, id);
  }

  // An exhausted delivery stays as it is until it is reset by hand.
  lemma ExhaustedUntilReset(run: seq<State>, i: nat, j: nat, id: DeliveryId)
    requires IsRun(run) && (forall s :: s in run ==> Exclusive(s)) && i <= j < |run|
    requires id < |run[i].rows| && id < |run[i].resets| && run[i].rows[id].status == Exhausted
    ensures id < |run[j].rows| == |run[j].resets|
    ensures run[j].rows[id] == run[i].rows[id] || run[j].resets[id] > run[i].resets[id]
  {
    hide Exclusive, Next;
    RowAlong(run, i, j, id);
  }

  // A reset keeps the attempt count, so at the limit it buys exactly one more attempt.
  lemma ResetAtLimitBuysOne(run: seq<State>, i: nat, j: nat, id: DeliveryId)
    requires IsRun(run) && (forall s :: s in run ==> Exclusive(s)) && 0 < i <= j < |run|
    requires id < |run[i - 1].rows| && id < |run[i - 1].resets| && run[i - 1].rows[id].status == Exhausted
    requires run[i - 1].rows[id].attempts >= run[i - 1].rows[id].maxAttempts
    requires id < |run[i].resets| && run[i].resets[id] > run[i - 1].resets[id]
    requires id < |run[j].resets| && run[j].resets[id] == run[i].resets[id]
    ensures id < |run[i].rows| && id < |run[j].rows|
    ensures run[i].rows[id].status == Pending && run[i].rows[id].attempts == run[i - 1].rows[id].attempts
    ensures run[j].rows[id] == run[i].rows[id]
         || (IsTerminal(run[j].rows[id]) && run[j].rows[id].attempts == run[i].rows[id].attempts + 1)
  {
    hide Exclusive, Next;
    InvRun(run, i - 1);
    assert run[i - 1] in run;
    assert |run[i - 1].rows| == |run[i - 1].resets|;
    hide Inv;
    RowStep(run[i - 1], run[i], id);
    RowAlong(run, i, j, id);
  }

  // Attempts never exceed the maximum by more than the number of resets; a failed delivery has
  // attempts left; without resets a delivery with none left is terminal.
  lemma AttemptsAreBounded(run: seq<State>, i: nat, id: DeliveryId)
    requires IsRun(run) && (forall s :: s in run ==> Exclusive(s)) && i < |run| && id < |run[i].rows|
    ensures id < |run[i].resets|
    ensures var d := run[i].rows[id];
            && d.attempts <= d.maxAttempts + run[i].resets[id]
            && (d.status == Failed ==> d.attempts < d.maxAttempts)
            && (run[i].resets[id] == 0 && d.attempts >= d.maxAttempts ==> IsTerminal(d))
  {
    hide Exclusive, Next;
    InvRun(run, i);
    assert RowOk(run[i].rows[id], run[i].resets[id]);
  }

  // How often the row changed from its creation to the last state.
  function Updates(run: seq<State>, id: DeliveryId): nat {
    if |run| < 2 then 0
    else
      var before, after := run[|run| - 2], run[|run| - 1];
      Updates(run[..|run| - 1], id)
      + if id < |before.rows| && id < |after.rows| && before.rows[id] != after.rows[id] then 1 else 0
  }

  lemma RunPrefix(run: seq<State>)
    requires IsRun(run) && |run| > 1
    ensures IsRun(run[..|run| - 1]) && forall s :: s in run[..|run| - 1] ==> s in run
  {
    hide Next;
    var r := run[..|run| - 1];
    forall i | 0 < i < |r| ensures Next(r[i - 1], r[i]) {
      assert r[i - 1] == run[i - 1] && r[i] == run[i];
    }
  }

  // Every update is an attempt, so without resets a delivery is updated at most max_attempts
  // times, whatever the receivers answer, and is terminal after that many.
  lemma {:induction false} UpdatesAreBounded(run: seq<State>, id: DeliveryId)
    requires IsRun(run) && forall s :: s in run ==> Exclusive(s)
    requires var last := run[|run| - 1]; id < |last.rows| && id < |last.resets| && last.resets[id] == 0
    ensures var d := run[|run| - 1].rows[id];
            && Updates(run, id) == d.attempts <= d.maxAttempts
            && (Updates(run, id) == d.maxAttempts ==> IsTerminal(d))
  {
    hide Exclusive, Next, RowOk, BatchOk, NoDuplicates;
    AttemptsAreBounded(run, |run| - 1, id);
    CountUpdates(run, id);
  }

  lemma {:induction false} CountUpdates(run: seq<State>, id: DeliveryId)
    requires IsRun(run) && forall s :: s in run ==> Exclusive(s)
    requires var last := run[|run| - 1]; id < |last.rows| && id < |last.resets| && last.resets[id] == 0
    ensures Updates(run, id) == run[|run| - 1].rows[id].attempts
    decreases |run|
  {
    hide Exclusive, Next;
    if |run| > 1 {
      var shorter := run[..|run| - 1];
      var before, after := run[|run| - 2], run[|run| - 1];
      RunPrefix(run);
      InvRun(run, |run| - 2);
      assert before in run && |before.rows| == |before.resets|;
      hide Inv;
      if id < |before.rows| {
        RowStep(before, after, id);
        CountUpdates(shorter, id);
      } else {
        FreshRow(before, after, id);
        NotYet(shorter, id);
      }
    }
  }

  lemma FreshRow(s: State, t: State, id: DeliveryId)
    requires Next(s, t) && |s.rows| <= id < |t.rows|
    ensures t.rows[id].attempts == 0
  {
    hide Attempted;
    var step :| Enabled(s, step) && t == Apply(s, step);
  }

  lemma {:induction false} NotYet(run: seq<State>, id: DeliveryId)
    requires IsRun(run) && |run[|run| - 1].rows| <= id
    ensures Updates(run, id) == 0
    decreases |run|
  {
    hide Next;
    if |run| > 1 {
      RunPrefix(run);
      RowsGrow(run[|run| - 2], run[|run| - 1]);
      NotYet(run[..|run| - 1], id);
    }
  }

  lemma RowsGrow(s: State, t: State)
    requires Next(s, t)
    ensures |s.rows| <= |t.rows|
  {
    hide Attempted;
    var step :| Enabled(s, step) && t == Apply(s, step);
  }

  // ---- a measure that every attempt decreases ----

  function Left(d: Delivery): nat {
    if IsTerminal(d) || d.attempts >= d.maxAttempts then 0 else d.maxAttempts - d.attempts
  }

  // The attempts that are left, over all deliveries that are not terminal.
  function AttemptsLeft(rows: seq<Delivery>): nat {
    if rows == [] then 0 else AttemptsLeft(rows[..|rows| - 1]) + Left(rows[|rows| - 1])
  }

  lemma {:induction false} AttemptsLeftUpdate(rows: seq<Delivery>, id: DeliveryId, d: Delivery)
    requires id < |rows|
    ensures AttemptsLeft(rows[id := d]) + Left(rows[id]) == AttemptsLeft(rows) + Left(d)
  {
    var init := rows[..|rows| - 1];
    if id == |init| {
      assert rows[id := d][..|rows| - 1] == init;
    } else {
      AttemptsLeftUpdate(init, id, d);
      assert rows[id := d][..|rows| - 1] == init[id := d];
    }
  }

  // Every attempt that updates a row nobody reset uses up at least one of the attempts left.
  lemma AttemptDecreases(s: State, step: Step)
    requires Inv(s) && Enabled(s, step) && step.Attempt? && !step.outcome.Skipped?
    requires s.resets[s.batches[step.w][0].id] == 0
    ensures AttemptsLeft(Apply(s, step).rows) < AttemptsLeft(s.rows)
  {
    hide AttemptsLeft, NoDuplicates, BatchOk;
    CopyIsRow(s, step.w);
    var head := s.batches[step.w][0];
    assert RowOk(head.row, 0);
    AttemptsLeftUpdate(s.rows, head.id, Apply(s, step).rows[head.id]);
  }

  // ---- spacing ----

  // After the k-th recorded failure the next attempt comes no earlier than 0.8 times the delay k
  // selects. An attempt whose row update was lost is not recorded and not counted here.
  lemma AttemptsAreSpaced(run: seq<State>, i: nat, w: WorkerId)
    requires IsRun(run) && (forall s :: s in run ==> Exclusive(s)) && i < |run|
    requires w in run[i].batches && run[i].batches[w] != []
    requires var head := run[i].batches[w][0]; head.id < |run[i].rows| && run[i].rows[head.id].status == Failed
    ensures var d := run[i].rows[run[i].batches[w][0].id];
            d.lastAttemptAt.Some? && run[i].now >= d.lastAttemptAt.value + Shortest(d.attempts)
  {
    hide Exclusive, Next, Shortest;
    InvRun(run, i);
    CopyIsRow(run[i], w);
    var id := run[i].batches[w][0].id;
    assert RowOk(run[i].rows[id], run[i].resets[id]);
  }

  // ---- two workers on one delivery ----

  // A delivered row can lose its status in the next step exactly when some worker is about to
  // attempt it; the update does not look at the stored status.
  lemma SuccessUndoneIff(s: State, id: DeliveryId)
    requires |s.resets| == |s.rows| && id < |s.rows| && s.rows[id].status == Success
    ensures (exists t :: Next(s, t) && id < |t.rows| && t.rows[id].status != Success)
       <==> exists w :: w in s.batches && s.batches[w] != [] && s.batches[w][0].id == id
  {
    if w :| w in s.batches && s.batches[w] != [] && s.batches[w][0].id == id {
      var t := Apply(s, Attempt(w, EndpointGone));
      assert Next(s, t) && t.rows[id].status != Success;
    }
    if t :| Next(s, t) && id < |t.rows| && t.rows[id].status != Success {
      var step :| Enabled(s, step) && t == Apply(s, step);
      assert step.Attempt? && s.batches[step.w][0].id == id;
    }
  }

  lemma Extend(run: seq<State>, step: Step) returns (r: seq<State>)
    requires IsRun(run) && Enabled(run[|run| - 1], step) && |run[|run| - 1].resets| == |run[|run| - 1].rows|
    ensures IsRun(r) && |r| == |run| + 1 && run <= r && r[|run|] == Apply(run[|run| - 1], step)
    ensures |r[|run|].resets| == |r[|run|].rows|
  {
    hide Enabled, Attempted;
    var last := run[|run| - 1];
    r := run + [Apply(last, step)];
    assert Next(last, r[|run|]);
    ResetsMatch(last, step);
    hide Next, Apply;
    forall i | 0 < i < |r| ensures Next(r[i - 1], r[i]) {
      if i < |run| {
        assert r[i - 1] == run[i - 1] && r[i] == run[i];
      }
    }
  }

  lemma ResetsMatch(s: State, step: Step)
    requires |s.resets| == |s.rows| && Enabled(s, step)
    ensures |Apply(s, step).resets| == |Apply(s, step).rows|
  {
    hide Attempted;
  }

  // Two workers that fetched the same due delivery: the receiver accepts it from the first, and
  // the second, refused, turns the delivered row back into a failed one that will be retried.
  lemma SharedDelivery(now: int, endpoint: Endpoint, eventId: EventId, delay: int) returns (run: seq<State>)
    requires IsActive(endpoint) && InRange(1, delay)
    ensures IsRun(run) && |run| > 1
    ensures var before, after := run[|run| - 2], run[|run| - 1];
            && |before.rows| == |after.rows| == 1
            && before.rows[0].status == Success && after.rows[0].status == Failed
            && !Exclusive(run[|run| - 3])
  {
    hide IsRun;
    var s := Init(now);
    assert IsRun([s]) by { InitIsRun(now); }
    run := Extend([s], EditEndpoints(map[0 := endpoint]));
    run := Extend(run, Create(0, eventId));
    assert run[2].rows == [NewDelivery(0, eventId, now)];
    run := Extend(run, Fetch(0, [0]));
    run := Extend(run, Fetch(1, [0]));
    var both := run[4];
    assert both.batches[0] == [Fetched(0, both.rows[0])] && both.batches[1] == [Fetched(0, both.rows[0])];
    assert both.batches[0][0].id == both.batches[1][0].id;
    run := Extend(run, Attempt(0, Delivered));
    run := Extend(run, Attempt(1, Refused(delay)));
  }

  lemma InitIsRun(now: int)
    ensures IsRun([Init(now)])
  {
  }
}
