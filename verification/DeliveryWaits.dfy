// How long the deliveries of a run wait between attempts (internal/webhook/worker.go, retry.go).
module DeliveryWaits {
  import opened Util
  import opened Backoff
  import opened DeliveryProtocol
  import opened DeliveryTheorems

  // The step made the row fail once more.
  predicate Refusal(s: State, t: State, id: DeliveryId) {
    id < |s.rows| && id < |t.rows| && s.rows[id] != t.rows[id] && t.rows[id].status == Failed
  }

  // The waits scheduled for a delivery, one for each step of the run at which it failed.
  function Waits(run: seq<State>, id: DeliveryId): seq<int> {
    if |run| < 2 then []
    else
      var s, t := run[|run| - 2], run[|run| - 1];
      Waits(run[..|run| - 1], id) + if Refusal(s, t, id) then [WaitOf(t.rows[id])] else []
  }

  // So far the k-th failure scheduled what count k selects, and the row counts the failures.
  ghost predicate Scheduled(waits: seq<int>, d: Delivery) {
    && (forall k :: 0 <= k < |waits| ==> InRange(k + 1, waits[k]))
    && |waits| == if IsTerminal(d) then d.attempts - 1 else d.attempts
  }

  lemma {:induction false} NoWaitsYet(run: seq<State>, id: DeliveryId)
    requires IsRun(run) && |run[|run| - 1].rows| <= id
    ensures Waits(run, id) == []
    decreases |run|
  {
    hide Next;
    if |run| > 1 {
      RunPrefix(run);
      RowsGrow(run[|run| - 2], run[|run| - 1]);
      NoWaitsYet(run[..|run| - 1], id);
    }
  }

  lemma ScheduledStep(s: State, t: State, id: DeliveryId, waits: seq<int>)
    requires Inv(s) && Inv(t) && Exclusive(s) && Next(s, t) && id < |s.rows|
    requires s.resets[id] == t.resets[id] && Scheduled(waits, s.rows[id])
    ensures Scheduled(waits + if Refusal(s, t, id) then [WaitOf(t.rows[id])] else [], t.rows[id])
  {
    hide Next, Exclusive, InRange, NoDuplicates;
    RowStep(s, t, id);
    assert RowOk(t.rows[id], t.resets[id]);
  }

  lemma {:induction false} WaitsScheduled(run: seq<State>, id: DeliveryId)
    requires IsRun(run) && forall s :: s in run ==> Exclusive(s)
    requires var last := run[|run| - 1]; id < |last.rows| && id < |last.resets| && last.resets[id] == 0
    ensures Scheduled(Waits(run, id), run[|run| - 1].rows[id])
    decreases |run|
  {
    hide Exclusive, Next, Scheduled;
    if |run| > 1 {
      var shorter := run[..|run| - 1];
      var s, t := run[|run| - 2], run[|run| - 1];
      RunPrefix(run);
      InvRun(run, |run| - 2);
      InvRun(run, |run| - 1);
      assert s in run && |s.rows| == |s.resets|;
      hide Inv;
      if id < |s.rows| {
        RowStep(s, t, id);
        WaitsScheduled(shorter, id);
        ScheduledStep(s, t, id, Waits(shorter, id));
      } else {
        NoWaitsYet(shorter, id);
        FreshIsScheduled(s, t, id);
        assert Waits(run, id) == [];
      }
    }
  }

  lemma FreshIsScheduled(s: State, t: State, id: DeliveryId)
    requires Next(s, t) && |s.rows| <= id < |t.rows|
    ensures Scheduled([], t.rows[id])
  {
    hide Attempted;
    var step :| Enabled(s, step) && t == Apply(s, step);
  }

  lemma WaitsAreSuccessive(run: seq<State>, id: DeliveryId)
    requires IsRun(run) && forall s :: s in run ==> Exclusive(s)
    requires var last := run[|run| - 1]; id < |last.rows| && id < |last.resets| && last.resets[id] == 0
    ensures Successive(Waits(run, id))
  {
    hide Exclusive, Next, InRange;
    InvRun(run, |run| - 1);
    var last := run[|run| - 1];
    assert RowOk(last.rows[id], 0);
    WaitsScheduled(run, id);
  }

  // Over a whole run, whatever the jitter and however the attempts end, the waits of a delivery that
  // nobody reset add up to no more than the announced window less the unused first minute.
  lemma FullRunFitsWindow(run: seq<State>, id: DeliveryId)
    requires IsRun(run) && forall s :: s in run ==> Exclusive(s)
    requires var last := run[|run| - 1]; id < |last.rows| && id < |last.resets| && last.resets[id] == 0
    ensures Sum(Waits(run, id)) <= Sum(RETRY_DELAYS) * 6 / 5 - RETRY_DELAYS[0]
  {
    hide IsRun, Exclusive;
    WaitsAreSuccessive(run, id);
    SuccessiveFit(Waits(run, id));
  }

  // Each refusal of a delivery that nobody reset schedules a longer wait than every refusal before it.
  lemma RefusalsWaitLonger(run: seq<State>, id: DeliveryId, k: nat, l: nat)
    requires IsRun(run) && forall s :: s in run ==> Exclusive(s)
    requires var last := run[|run| - 1]; id < |last.rows| && id < |last.resets| && last.resets[id] == 0
    requires k < l < |Waits(run, id)|
    ensures 0 < Waits(run, id)[k] < Waits(run, id)[l]
  {
    hide IsRun, Exclusive;
    WaitsAreSuccessive(run, id);
    SuccessiveGrow(Waits(run, id), k, l);
  }

  // The first delay of the table is never used: whatever was reset or edited, a failed delivery
  // waits for longer than that delay can ever be.
  lemma FirstDelayIsNeverUsed(run: seq<State>, i: nat, id: DeliveryId)
    requires IsRun(run) && (forall s :: s in run ==> Exclusive(s)) && i < |run|
    requires id < |run[i].rows| && run[i].rows[id].status == Failed
    ensures WaitOf(run[i].rows[id]) > Longest(0)
  {
    hide Exclusive, Next;
    InvRun(run, i);
    var d := run[i].rows[id];
    assert RowOk(d, run[i].resets[id]);
    assert d.attempts == 1 || d.attempts == 2 || d.attempts == 3 || d.attempts == 4;
  }
}
