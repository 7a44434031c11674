// Webhook deliveries as a state machine: workers that fetch and attempt them, interleaved with new
// clicks, endpoint edits, manual resets and the clock (internal/webhook/worker.go, repository.go).
module DeliveryProtocol {
  import opened Util
  import opened Backoff

  type EndpointId = nat
  type EventId = nat      // click_events.id
  type DeliveryId = nat   // position in webhook_deliveries; rows are never removed
  type WorkerId = nat

  datatype Status = Pending | Success | Failed | Exhausted

  datatype Failure = EndpointUnavailable | AttemptFailed

  // lastError is NULL until an attempt fails.
  datatype Delivery = Delivery(
    endpointId: EndpointId, eventId: EventId, status: Status,
    attempts: nat, maxAttempts: nat, nextRetryAt: int, lastAttemptAt: Option<int>, lastError: Option<Failure>)

  datatype Endpoint = Endpoint(userId: string, enabled: bool, deleted: bool, subscribed: bool)

  predicate IsActive(e: Endpoint) {
    e.enabled && !e.deleted
  }

  predicate IsTerminal(d: Delivery) {
    d.status == Success || d.status == Exhausted
  }

  // A row as it was when a worker fetched it.
  datatype Fetched = Fetched(id: DeliveryId, row: Delivery)

  // What became of one attempt.
  datatype Outcome =
    | Skipped                      // a database error before the row was updated
    | EndpointGone                 // endpoint deleted or disabled: given up at once
    | Delivered                    // 2xx
    | Refused(delay: int)          // network error or other status

  // resets counts the manual retries of each row; batches is what the workers hold in memory.
  datatype State = State(
    now: int, rows: seq<Delivery>, endpoints: map<EndpointId, Endpoint>,
    resets: seq<nat>, batches: map<WorkerId, seq<Fetched>>)

  datatype Step =
    | Tick(now: int)
    | Create(endpointId: EndpointId, eventId: EventId)
    | EditEndpoints(endpoints: map<EndpointId, Endpoint>)
    | Reset(id: DeliveryId)
    | Fetch(w: WorkerId, ids: seq<DeliveryId>)
    | Attempt(w: WorkerId, outcome: Outcome)
    | Leave(w: WorkerId)          // done with the batch, or dead

  function NewDelivery(endpointId: EndpointId, eventId: EventId, now: int): Delivery {
    Delivery(endpointId, eventId, Pending, 0, DEFAULT_MAX_ATTEMPTS, now, None, None)
  }

  predicate Exists(rows: seq<Delivery>, endpointId: EndpointId, eventId: EventId) {
    exists i :: 0 <= i < |rows| && rows[i].endpointId == endpointId && rows[i].eventId == eventId
  }

  predicate Due(s: State, id: DeliveryId) {
    && id < |s.rows|
    && (s.rows[id].status == Pending || s.rows[id].status == Failed)
    && s.rows[id].nextRetryAt <= s.now
    && s.rows[id].endpointId in s.endpoints && IsActive(s.endpoints[s.rows[id].endpointId])
  }

  // The row update of an attempt: the statement increments the stored count, while the decision
  // between failed and exhausted and the delay were made from the fetched copy.
  function Attempted(stored: Delivery, copy: Delivery, outcome: Outcome, now: int): Delivery {
    match outcome
    case Skipped => stored
    case EndpointGone =>
      stored.(status := Exhausted, attempts := stored.attempts + 1, nextRetryAt := now,
              lastAttemptAt := Some(now), lastError := Some(EndpointUnavailable))
    case Delivered =>
      stored.(status := Success, attempts := stored.attempts + 1, lastAttemptAt := Some(now), lastError := None)
    case Refused(delay) =>
      stored.(status := if IsExhausted(copy.attempts + 1, copy.maxAttempts) then Exhausted else Failed,
              attempts := stored.attempts + 1, nextRetryAt := now + delay, lastAttemptAt := Some(now),
              lastError := Some(AttemptFailed))
  }

  function Copies(rows: seq<Delivery>, ids: seq<DeliveryId>): (r: seq<Fetched>)
    requires forall i :: 0 <= i < |ids| ==> ids[i] < |rows|
    ensures |r| == |ids| && forall i :: 0 <= i < |r| ==> r[i] == Fetched(ids[i], rows[ids[i]])
  {
    seq(|ids|, i requires 0 <= i < |ids| => Fetched(ids[i], rows[ids[i]]))
  }

  ghost predicate Enabled(s: State, step: Step) {
    match step
    case Tick(now) => now >= s.now
    case Create(endpointId, _) => endpointId in s.endpoints
    case EditEndpoints(endpoints) => s.endpoints.Keys <= endpoints.Keys
    case Reset(id) => id < |s.rows| && s.rows[id].status == Exhausted
    case Fetch(w, ids) => w !in s.batches && Distinct(ids) && forall i :: 0 <= i < |ids| ==> Due(s, ids[i])
    case Attempt(w, outcome) =>
      && w in s.batches && s.batches[w] != [] && s.batches[w][0].id < |s.rows|
      && (outcome.Refused? ==> InRange(s.batches[w][0].row.attempts + 1, outcome.delay))
    case Leave(w) => w in s.batches
  }

  function Apply(s: State, step: Step): State
    requires |s.resets| == |s.rows| && Enabled(s, step)
  {
    match step
    case Tick(now) => s.(now := now)
    case Create(endpointId, eventId) =>
      if Exists(s.rows, endpointId, eventId) then s
      else s.(rows := s.rows + [NewDelivery(endpointId, eventId, s.now)], resets := s.resets + [0])
    case EditEndpoints(endpoints) => s.(endpoints := endpoints)
    case Reset(id) =>
      s.(rows := s.rows[id := s.rows[id].(status := Pending, nextRetryAt := s.now)], resets := s.resets[id := s.resets[id] + 1])
    case Fetch(w, ids) => s.(batches := s.batches[w := Copies(s.rows, ids)])
    case Attempt(w, outcome) =>
      var head := s.batches[w][0];
      s.(rows := s.rows[head.id := Attempted(s.rows[head.id], head.row, outcome, s.now)],
         batches := s.batches[w := s.batches[w][1..]])
    case Leave(w) => s.(batches := s.batches - {w})
  }

  function Init(now: int): State {
    State(now, [], map[], [], map[])
  }

  ghost predicate Next(s: State, t: State) {
    |s.resets| == |s.rows| && exists step :: Enabled(s, step) && t == Apply(s, step)
  }

  ghost predicate IsRun(run: seq<State>) {
    && run != []
    && run[0] == Init(run[0].now)
    && forall i :: 0 < i < |run| ==> Next(run[i - 1], run[i])
  }

  // ---- invariants ----

  // The UNIQUE (event_id, endpoint_id) index.
  ghost predicate NoDuplicates(rows: seq<Delivery>) {
    forall i, j :: 0 <= i < j < |rows| ==> rows[i].eventId != rows[j].eventId || rows[i].endpointId != rows[j].endpointId
  }

  // How long a row that failed was scheduled to wait.
  function WaitOf(d: Delivery): int {
    d.nextRetryAt - if d.lastAttemptAt.Some? then d.lastAttemptAt.value else 0
  }

  // Attempts are bounded by the maximum plus one per manual reset, a failed row has attempts left
  // and waits for the delay its count selects, give or take the jitter.
  ghost predicate RowOk(d: Delivery, resets: nat) {
    && d.maxAttempts == DEFAULT_MAX_ATTEMPTS
    && d.attempts <= d.maxAttempts + resets
    && (d.status == Pending ==> d.attempts < d.maxAttempts + resets)
    && (d.status == Pending && resets == 0 ==> d.attempts == 0)
    && (d.status == Failed ==> 0 < d.attempts < d.maxAttempts && d.lastAttemptAt.Some? && InRange(d.attempts, WaitOf(d)))
  }

  ghost predicate RowsOk(s: State) {
    && |s.resets| == |s.rows|
    && NoDuplicates(s.rows)
    && forall id :: 0 <= id < |s.rows| ==> RowOk(s.rows[id], s.resets[id])
  }

  // What a worker still holds is exactly what the table says, not terminal and due.
  ghost predicate CopyOk(s: State, f: Fetched) {
    && f.id < |s.rows| && s.rows[f.id] == f.row
    && !IsTerminal(f.row) && f.row.nextRetryAt <= s.now
  }

  ghost predicate BatchOk(s: State, batch: seq<Fetched>) {
    && (forall i :: 0 <= i < |batch| ==> CopyOk(s, batch[i]))
    && (forall i, j :: 0 <= i < j < |batch| ==> batch[i].id != batch[j].id)
  }

  ghost predicate Inv(s: State) {
    RowsOk(s) && forall w :: w in s.batches ==> BatchOk(s, s.batches[w])
  }

  // No two workers hold the same delivery. One worker, as one process starts, is the special case.
  ghost predicate Exclusive(s: State) {
    forall v, w, i, j :: v in s.batches && w in s.batches && v != w
        && 0 <= i < |s.batches[v]| && 0 <= j < |s.batches[w]|
      ==> s.batches[v][i].id != s.batches[w][j].id
  }

  lemma AttemptedOk(d: Delivery, resets: nat, outcome: Outcome, now: int)
    requires RowOk(d, resets) && !IsTerminal(d) && (outcome.Refused? ==> InRange(d.attempts + 1, outcome.delay))
    ensures RowOk(Attempted(d, d, outcome, now), resets)
  {
  }

  lemma RowsStep(s: State, step: Step)
    requires Inv(s) && Exclusive(s) && Enabled(s, step)
    ensures RowsOk(Apply(s, step))
  {
    hide RowOk, Attempted, Shortest, Longest;
    var t := Apply(s, step);
    if step.Attempt? {
      var head := s.batches[step.w][0];
      assert BatchOk(s, s.batches[step.w]) && CopyOk(s, head);
      AttemptedOk(head.row, s.resets[head.id], step.outcome, s.now);
      AttemptedKey(head.row, head.row, step.outcome, s.now);
    } else if step.Create? {
      NewOk(step.endpointId, step.eventId, s.now);
    } else if step.Reset? {
      ResetOk(s.rows[step.id], s.resets[step.id], s.now);
    }
  }

  lemma AttemptedKey(stored: Delivery, copy: Delivery, outcome: Outcome, now: int)
    ensures var d := Attempted(stored, copy, outcome, now);
            && d.eventId == stored.eventId && d.endpointId == stored.endpointId && d.maxAttempts == stored.maxAttempts
            && d.attempts == stored.attempts + (if outcome.Skipped? then 0 else 1)
            && (outcome.Skipped? ==> d == stored)
  {
  }

  lemma NewOk(endpointId: EndpointId, eventId: EventId, now: int)
    ensures RowOk(NewDelivery(endpointId, eventId, now), 0)
  {
  }

  lemma ResetOk(d: Delivery, resets: nat, now: int)
    requires RowOk(d, resets) && d.status == Exhausted
    ensures RowOk(d.(status := Pending, nextRetryAt := now), resets + 1)
  {
  }

  // A copy stays right as long as its own row is left alone.
  lemma BatchFrame(s: State, t: State, batch: seq<Fetched>)
    requires BatchOk(s, batch) && s.now <= t.now && |s.rows| <= |t.rows|
    requires forall i :: 0 <= i < |batch| && batch[i].id < |s.rows| ==> t.rows[batch[i].id] == s.rows[batch[i].id]
    ensures BatchOk(t, batch)
  {
    forall i | 0 <= i < |batch| ensures CopyOk(t, batch[i]) {
      assert CopyOk(s, batch[i]);
    }
  }

  lemma BatchStep(s: State, step: Step, w: WorkerId)
    requires Inv(s) && Exclusive(s) && Enabled(s, step) && w in Apply(s, step).batches
    ensures BatchOk(Apply(s, step), Apply(s, step).batches[w])
  {
    hide RowOk, Attempted, NoDuplicates;
    var t := Apply(s, step);
    if step.Fetch? && step.w == w {
      forall i | 0 <= i < |step.ids| ensures CopyOk(t, t.batches[w][i]) {
        assert Due(s, step.ids[i]);
      }
    } else {
      var batch := s.batches[w];
      assert BatchOk(s, batch);
      forall i | 0 <= i < |batch| ensures CopyOk(s, batch[i]) {}
      if step.Attempt? && step.w == w {
        BatchFrame(s, t, batch[1..]);
      } else {
        BatchFrame(s, t, batch);
      }
    }
  }

  lemma InvStep(s: State, t: State)
    requires Inv(s) && Exclusive(s) && Next(s, t)
    ensures Inv(t)
  {
    hide RowsOk, BatchOk, Exclusive;
    var step :| Enabled(s, step) && t == Apply(s, step);
    RowsStep(s, step);
    forall w | w in t.batches ensures BatchOk(t, t.batches[w]) {
      BatchStep(s, step, w);
    }
  }

  lemma {:induction false} InvRun(run: seq<State>, i: nat)
    requires IsRun(run) && (forall s :: s in run ==> Exclusive(s)) && i < |run|
    ensures Inv(run[i])
  {
    hide Next, Exclusive;
    if i > 0 {
      InvRun(run, i - 1);
      assert run[i - 1] in run;
      InvStep(run[i - 1], run[i]);
    }
  }
}
