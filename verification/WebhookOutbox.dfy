// Webhook deliveries as the code performs them: the tables and their statements
// (internal/webhook/repository.go), the publisher (publisher.go) and the worker (worker.go).
module WebhookOutbox {
  import opened Util
  import opened Environments
  import Clicks
  import opened Backoff
  import opened DeliveryProtocol
  import opened DeliveryTheorems

  const DEFAULT_BATCH_SIZE: nat := 50

  // ---- ORDER BY next_retry_at LIMIT n ----

  ghost predicate Ordered(rows: seq<Delivery>, ids: seq<DeliveryId>) {
    && (forall i :: 0 <= i < |ids| ==> ids[i] < |rows|)
    && (forall i, j :: 0 <= i < j < |ids| ==> rows[ids[i]].nextRetryAt <= rows[ids[j]].nextRetryAt)
  }

  function InsertByRetry(rows: seq<Delivery>, ids: seq<DeliveryId>, id: DeliveryId): (r: seq<DeliveryId>)
    requires id < |rows| && forall i :: 0 <= i < |ids| ==> ids[i] < |rows|
    ensures |r| == |ids| + 1 && forall i :: 0 <= i < |r| ==> r[i] < |rows|
    decreases |ids|
  {
    if ids == [] || rows[id].nextRetryAt < rows[ids[0]].nextRetryAt then [id] + ids
    else [ids[0]] + InsertByRetry(rows, ids[1..], id)
  }

  lemma {:induction false} InsertByRetryMembers(rows: seq<Delivery>, ids: seq<DeliveryId>, id: DeliveryId)
    requires id < |rows| && (forall i :: 0 <= i < |ids| ==> ids[i] < |rows|) && Distinct(ids) && id !in ids
    ensures var r := InsertByRetry(rows, ids, id);
            Distinct(r) && forall x :: x in r <==> x in ids || x == id
    decreases |ids|
  {
    if ids != [] && rows[id].nextRetryAt >= rows[ids[0]].nextRetryAt {
      var rest := InsertByRetry(rows, ids[1..], id);
      InsertByRetryMembers(rows, ids[1..], id);
      assert ids == [ids[0]] + ids[1..];
      forall j | 0 <= j < |rest| ensures rest[j] != ids[0] {
        assert rest[j] in rest;
      }
    }
  }

  lemma {:induction false} InsertByRetryOrdered(rows: seq<Delivery>, ids: seq<DeliveryId>, id: DeliveryId)
    requires id < |rows| && Ordered(rows, ids)
    ensures Ordered(rows, InsertByRetry(rows, ids, id))
    ensures ids != [] ==> var first := rows[InsertByRetry(rows, ids, id)[0]].nextRetryAt;
                          first == rows[id].nextRetryAt || first == rows[ids[0]].nextRetryAt
    decreases |ids|
  {
    if ids != [] && rows[id].nextRetryAt >= rows[ids[0]].nextRetryAt {
      InsertByRetryOrdered(rows, ids[1..], id);
    }
  }

  // ---- what publishing a click leaves in the table ----

  function CreateRow(rows: seq<Delivery>, endpointId: EndpointId, eventId: EventId, now: int): seq<Delivery> {
    if Exists(rows, endpointId, eventId) then rows else rows + [NewDelivery(endpointId, eventId, now)]
  }

  function PublishAll(rows: seq<Delivery>, endpoints: seq<EndpointId>, eventId: EventId, now: int): seq<Delivery> {
    if endpoints == [] then rows
    else CreateRow(PublishAll(rows, endpoints[..|endpoints| - 1], eventId, now), endpoints[|endpoints| - 1], eventId, now)
  }

  // Publishing never touches a row that is there, adds only fresh rows of this click, one per
  // endpoint, and leaves a row for each endpoint.
  lemma {:induction false} PublishedMeaning(rows: seq<Delivery>, endpoints: seq<EndpointId>, eventId: EventId, now: int)
    requires NoDuplicates(rows)
    ensures var r := PublishAll(rows, endpoints, eventId, now);
            && rows <= r && NoDuplicates(r)
            && (forall i :: |rows| <= i < |r| ==> r[i].endpointId in endpoints && r[i] == NewDelivery(r[i].endpointId, eventId, now))
            && (forall e :: e in endpoints ==> Exists(r, e, eventId))
  {
    if endpoints != [] {
      var init, last := endpoints[..|endpoints| - 1], endpoints[|endpoints| - 1];
      PublishedMeaning(rows, init, eventId, now);
      var before := PublishAll(rows, init, eventId, now);
      var r := PublishAll(rows, endpoints, eventId, now);
      assert endpoints == init + [last];
      forall e | e in endpoints ensures Exists(r, e, eventId) {
        if e == last && !Exists(before, last, eventId) {
          assert r[|before|].endpointId == e && r[|before|].eventId == eventId;
        } else {
          var i :| 0 <= i < |before| && before[i].endpointId == e && before[i].eventId == eventId;
          assert r[i] == before[i];
        }
      }
    }
  }

  lemma {:induction false} PublishAdds(rows: seq<Delivery>, endpoints: seq<EndpointId>, eventId: EventId, now: int)
    ensures var r := PublishAll(rows, endpoints, eventId, now);
            && rows <= r
            && (forall i :: |rows| <= i < |r| ==> r[i].endpointId in endpoints && r[i] == NewDelivery(r[i].endpointId, eventId, now))
            && (forall e :: e in endpoints ==> exists i :: 0 <= i < |r| && r[i].endpointId == e && r[i].eventId == eventId)
  {
    if endpoints != [] {
      var init, last := endpoints[..|endpoints| - 1], endpoints[|endpoints| - 1];
      PublishAdds(rows, init, eventId, now);
      var before := PublishAll(rows, init, eventId, now);
      var r := PublishAll(rows, endpoints, eventId, now);
      assert endpoints == init + [last];
      forall e | e in endpoints ensures exists i :: 0 <= i < |r| && r[i].endpointId == e && r[i].eventId == eventId {
        if e == last && !Exists(before, last, eventId) {
          assert r[|before|].endpointId == e && r[|before|].eventId == eventId;
        } else {
          var i :| 0 <= i < |before| && before[i].endpointId == e && before[i].eventId == eventId;
          assert r[i] == before[i];
        }
      }
    }
  }

  lemma {:induction false} PublishKnown(rows: seq<Delivery>, endpoints: seq<EndpointId>, eventId: EventId, now: int)
    requires forall e :: e in endpoints ==> Exists(rows, e, eventId)
    ensures PublishAll(rows, endpoints, eventId, now) == rows
  {
    if endpoints != [] {
      var init, last := endpoints[..|endpoints| - 1], endpoints[|endpoints| - 1];
      assert endpoints == init + [last];
      PublishKnown(rows, init, eventId, now);
    }
  }

  // A batch that is retried after parsing publishes its clicks under the same ids and adds
  // nothing; a stream entry that is reclaimed is parsed again, gets a new click id, and is
  // delivered again. Publishing twice is publishing once if and only if the ids are the same.
  lemma RepublishIsNoOpIff(rows: seq<Delivery>, endpoints: seq<EndpointId>, first: EventId, second: EventId, now: int, later: int)
    requires NoDuplicates(rows) && endpoints != []
    requires forall i :: 0 <= i < |rows| ==> rows[i].eventId != second
    ensures var once := PublishAll(rows, endpoints, first, now);
            PublishAll(once, endpoints, second, later) == once <==> first == second
  {
    var once := PublishAll(rows, endpoints, first, now);
    PublishedMeaning(rows, endpoints, first, now);
    if first == second {
      PublishKnown(once, endpoints, second, later);
    } else {
      PublishedMeaning(once, endpoints, second, later);
      var twice := PublishAll(once, endpoints, second, later);
      assert endpoints[0] in endpoints && Exists(twice, endpoints[0], second);
      forall i | 0 <= i < |once| ensures once[i].eventId != second {
        assert i < |rows| ==> once[i] == rows[i];
      }
    }
  }

  // The endpoints a click of the user is delivered to.
  predicate Listed(e: Endpoint, userId: string) {
    IsActive(e) && e.subscribed && e.userId == userId
  }

  ghost predicate Listeners(endpoints: map<EndpointId, Endpoint>, userId: string) {
    exists e :: e in endpoints && Listed(endpoints[e], userId)
  }

  datatype EndpointResult = Found(endpoint: Endpoint) | NotFound | QueryFailed

  datatype ResetResult = Done | NotExhausted | ResetFailed

  class Repository {
    const env: Environment
    const nullable: bool   // whether the fetch reads last_error as nullable; the code does not
    var now: int
    var rows: seq<Delivery>
    var endpoints: map<EndpointId, Endpoint>
    ghost var resets: seq<nat>

    ghost predicate Valid() reads this {
      |resets| == |rows|
    }

    constructor (now: int, env: Environment, nullable: bool)
      ensures Valid() && this.env == env && this.nullable == nullable && this.now == now && rows == [] && endpoints == map[] && resets == []
    {
      this.env, this.nullable := env, nullable;
      this.now, rows, endpoints, resets := now, [], map[], [];
    }

    // GetEndpoint: deleted endpoints are not found.
    method GetEndpoint(id: EndpointId) returns (result: EndpointResult)
      modifies env`faults
      ensures env.faults >= old(env.faults) + if result.QueryFailed? then 1 else 0
      ensures result.Found? ==> id in endpoints && endpoints[id] == result.endpoint && !endpoints[id].deleted
      ensures result.NotFound? ==> id !in endpoints || endpoints[id].deleted
    {
      var failed := env.Fails();
      if failed {
        return QueryFailed;
      }
      result := if id in endpoints && !endpoints[id].deleted then Found(endpoints[id]) else NotFound;
    }

    // ListActiveEndpointsByUserAndEvent, in some order.
    method ListActiveEndpoints(userId: string) returns (ok: bool, ids: seq<EndpointId>)
      modifies env`faults
      ensures env.faults >= old(env.faults)
      ensures !ok && NoNul(userId) ==> env.faults > old(env.faults)
      ensures ok ==> NoNul(userId)
      ensures ok ==> Distinct(ids)
      ensures ok ==> forall e :: e in ids <==> e in endpoints && Listed(endpoints[e], userId)
    {
      ids := [];
      var failed := env.Fails();
      ok := !failed && NoNul(userId);
      if !ok {
        return;
      }
      var left := set e | e in endpoints && Listed(endpoints[e], userId);
      ghost var all := left;
      while left != {}
        invariant left <= all && Distinct(ids) && forall e :: e in all <==> e in left || e in ids
        invariant forall e :: e in ids ==> e !in left
        decreases left
      {
        var e :| e in left;
        left := left - {e};
        ids := ids + [e];
      }
    }

    // CreateDelivery: ON CONFLICT (event_id, endpoint_id) DO NOTHING. It may fail before or after
    // taking effect.
    method CreateDelivery(endpointId: EndpointId, eventId: EventId, at: int) returns (ok: bool, ghost reached: bool)
      requires Valid()
      modifies this`rows, this`resets, env`faults
      ensures Valid() && (ok ==> reached)
      ensures env.faults >= old(env.faults) + if ok then 0 else 1
      ensures rows == if reached then CreateRow(old(rows), endpointId, eventId, at) else old(rows)
      ensures old(resets) <= resets && forall i :: |old(resets)| <= i < |resets| ==> resets[i] == 0
    {
      var lost := env.Fails();
      reached := !lost;
      if lost {
        return false, reached;
      }
      if !Exists(rows, endpointId, eventId) {
        rows, resets := rows + [NewDelivery(endpointId, eventId, at)], resets + [0];
      }
      var unanswered := env.Fails();
      ok := !unanswered;
    }

    ghost predicate IsDue(id: DeliveryId) reads this {
      Due(State(now, rows, endpoints, [], map[]), id)
    }

    // The due deliveries of active endpoints, most overdue first.
    method SelectDue() returns (ids: seq<DeliveryId>)
      ensures Distinct(ids) && Ordered(rows, ids)
      ensures forall id: DeliveryId :: id in ids <==> IsDue(id)
    {
      ids := [];
      for id := 0 to |rows|
        invariant Distinct(ids) && Ordered(rows, ids)
        invariant forall x: DeliveryId :: x in ids <==> x < id && IsDue(x)
      {
        var d := rows[id];
        if (d.status == Pending || d.status == Failed) && d.nextRetryAt <= now
           && d.endpointId in endpoints && IsActive(endpoints[d.endpointId]) {
          InsertByRetryMembers(rows, ids, id);
          InsertByRetryOrdered(rows, ids, id);
          hide InsertByRetry, Ordered;
          ids := InsertByRetry(rows, ids, id);
        }
      }
    }

    // A row that scanDeliveries can read.
    predicate Readable(id: DeliveryId) reads this {
      id < |rows| && (nullable || rows[id].lastError.Some?)
    }

    // GetPendingDeliveries: of the due deliveries the most overdue, up to the limit, are selected; but for a
    // fault the call succeeds if and only if every one of them can be read.
    method GetPendingDeliveries(limit: nat) returns (ok: bool, ids: seq<DeliveryId>, ghost selected: seq<DeliveryId>)
      modifies env`faults
      ensures env.faults >= old(env.faults)
      ensures env.faults == old(env.faults) ==> (ok <==> forall id :: id in selected ==> Readable(id))
      ensures ok ==> forall id :: id in selected ==> Readable(id)
      ensures ids == if ok then selected else []
      ensures Distinct(selected) && |selected| <= limit && Ordered(rows, selected)
      ensures forall i :: 0 <= i < |selected| ==> IsDue(selected[i])
      ensures forall i :: 0 <= i < |selected| ==>
                && selected[i] < |rows| && (rows[selected[i]].status == Pending || rows[selected[i]].status == Failed)
                && rows[selected[i]].nextRetryAt <= now && rows[selected[i]].endpointId in endpoints
                && endpoints[rows[selected[i]].endpointId].enabled && !endpoints[rows[selected[i]].endpointId].deleted
      ensures forall i, j :: 0 <= i < j < |selected| ==> rows[selected[i]].nextRetryAt <= rows[selected[j]].nextRetryAt
      ensures forall id: DeliveryId :: IsDue(id) && id !in selected ==>
                |selected| == limit && forall i :: 0 <= i < |selected| ==> rows[selected[i]].nextRetryAt <= rows[id].nextRetryAt
    {
      var failed := env.Fails();
      var rows := SelectTop(limit);
      selected := rows;
      if failed {
        return false, [], selected;
      }
      ok := ScanDeliveries(rows);
      ids := if ok then rows else [];
    }

    // The query.
    method SelectTop(limit: nat) returns (top: seq<DeliveryId>)
      ensures Distinct(top) && |top| <= limit && Ordered(rows, top)
      ensures forall i :: 0 <= i < |top| ==> IsDue(top[i])
      ensures forall id: DeliveryId :: IsDue(id) && id !in top ==>
                |top| == limit && forall i :: 0 <= i < |top| ==> rows[top[i]].nextRetryAt <= rows[id].nextRetryAt
    {
      hide Ordered, Due, Distinct;
      var all := SelectDue();
      top := if |all| <= limit then all else all[..limit];
      TopIsDue(all, limit);
    }

    // scanDeliveries: one row that cannot be read fails them all.
    method ScanDeliveries(ids: seq<DeliveryId>) returns (ok: bool)
      ensures ok <==> forall id :: id in ids ==> Readable(id)
    {
      for i := 0 to |ids|
        invariant forall k :: 0 <= k < i ==> Readable(ids[k])
      {
        if !Readable(ids[i]) {
          return false;
        }
      }
      return true;
    }

    lemma TopIsDue(all: seq<DeliveryId>, limit: nat)
      requires Distinct(all) && Ordered(rows, all) && forall id: DeliveryId :: id in all <==> IsDue(id)
      ensures var top := if |all| <= limit then all else all[..limit];
              && Distinct(top) && |top| <= limit && Ordered(rows, top)
              && (forall i :: 0 <= i < |top| ==> IsDue(top[i]))
              && forall id: DeliveryId :: IsDue(id) && id !in top ==>
                   |top| == limit && forall i :: 0 <= i < |top| ==> rows[top[i]].nextRetryAt <= rows[id].nextRetryAt
    {
      hide IsDue, Due;
      var top := if |all| <= limit then all else all[..limit];
      forall i | 0 <= i < |top| ensures IsDue(top[i]) {
        assert all[i] in all;
      }
      forall id: DeliveryId | IsDue(id) && id !in top
        ensures |top| == limit && forall i :: 0 <= i < |top| ==> rows[top[i]].nextRetryAt <= rows[id].nextRetryAt
      {
        var k :| 0 <= k < |all| && all[k] == id;
        forall i | 0 <= i < |top| ensures all[i] != id {
          assert top[i] in top;
        }
      }
    }

    method UpdateDeliverySuccess(id: DeliveryId) returns (ok: bool, ghost reached: bool)
      requires Valid() && id < |rows|
      modifies this`rows, env`faults
      ensures Valid() && (ok ==> reached)
      ensures env.faults >= old(env.faults) + if ok then 0 else 1
      ensures rows == if reached then old(rows)[id := Attempted(old(rows)[id], old(rows)[id], Delivered, now)] else old(rows)
      ensures reached ==> rows[id] == old(rows)[id].(
                status := Success, attempts := old(rows)[id].attempts + 1, lastAttemptAt := Some(now), lastError := None)
    {
      var lost := env.Fails();
      reached := !lost;
      if lost {
        return false, reached;
      }
      rows := rows[id := rows[id].(status := Success, attempts := rows[id].attempts + 1, lastAttemptAt := Some(now), lastError := None)];
      var unanswered := env.Fails();
      ok := !unanswered;
    }

    method UpdateDeliveryFailure(id: DeliveryId, nextRetryAt: int, failure: Failure, exhausted: bool)
      returns (ok: bool, ghost reached: bool)
      requires Valid() && id < |rows|
      modifies this`rows, env`faults
      ensures Valid() && (ok ==> reached)
      ensures env.faults >= old(env.faults) + if ok then 0 else 1
      ensures rows == if !reached then old(rows)
                      else old(rows)[id := old(rows)[id].(
                        status := if exhausted then Exhausted else Failed, attempts := old(rows)[id].attempts + 1,
                        nextRetryAt := nextRetryAt, lastAttemptAt := Some(now), lastError := Some(failure))]
    {
      var status := Failed;
      if exhausted {
        status := Exhausted;
      }
      var lost := env.Fails();
      reached := !lost;
      if lost {
        return false, reached;
      }
      rows := rows[id := rows[id].(
        status := status, attempts := rows[id].attempts + 1, nextRetryAt := nextRetryAt,
        lastAttemptAt := Some(now), lastError := Some(failure))];
      var unanswered := env.Fails();
      ok := !unanswered;
    }

    // ResetDeliveryForRetry: only an exhausted delivery is reset, and its attempt count stays.
    method ResetDeliveryForRetry(id: DeliveryId) returns (result: ResetResult, ghost reached: bool)
      requires Valid()
      modifies this`rows, this`resets, env`faults
      ensures Valid()
      ensures env.faults >= old(env.faults) + if result.ResetFailed? then 1 else 0
      ensures var exhausted := id < |old(rows)| && old(rows)[id].status == Exhausted;
              && (result.Done? ==> reached) && (reached ==> exhausted)
              && (result.NotExhausted? ==> !exhausted)
      ensures !reached ==> rows == old(rows) && resets == old(resets)
      ensures reached ==> rows == old(rows)[id := old(rows)[id].(status := Pending, nextRetryAt := now)]
                          && resets == old(resets)[id := old(resets)[id] + 1]
    {
      reached := false;
      var lost := env.Fails();
      if lost {
        return ResetFailed, reached;
      }
      var found := id < |rows| && rows[id].status == Exhausted;
      if found {
        reached := true;
        rows := rows[id := rows[id].(status := Pending, nextRetryAt := now)];
        resets := resets[id := resets[id] + 1];
      }
      var unanswered := env.Fails();
      result := if unanswered then ResetFailed else if found then Done else NotExhausted;
    }
  }

  // PublishClickEvent: a delivery for every active endpoint of the owner; a failed insert is skipped. But for
  // faults it fails on an owner the query refuses, and on a time its payload cannot express if there
  // is an endpoint.
  method PublishClickEvent(repo: Repository, userId: string, clickId: EventId, clickedAt: int)
    returns (ok: bool, ghost endpoints: seq<EndpointId>, ghost created: seq<EndpointId>)
    requires repo.Valid()
    modifies repo`rows, repo`resets, repo.env`faults
    ensures repo.Valid()
    ensures repo.env.faults >= old(repo.env.faults)
    ensures repo.env.faults == old(repo.env.faults) ==>
              (ok <==> NoNul(userId) && (Listeners(repo.endpoints, userId) ==> clickedAt < Clicks.JSON_TIME_END))
    ensures ok && repo.env.faults == old(repo.env.faults) ==> created == endpoints
    ensures !ok ==> repo.rows == old(repo.rows)
    ensures ok ==> forall e :: e in endpoints <==> e in repo.endpoints && Listed(repo.endpoints[e], userId)
    ensures ok ==> repo.rows == PublishAll(old(repo.rows), created, clickId, repo.now)
    ensures forall e :: e in created ==> e in endpoints
    ensures old(repo.rows) <= repo.rows
    ensures forall i :: |old(repo.rows)| <= i < |repo.rows| ==>
              var d := repo.rows[i];
              && d.eventId == clickId && d.status == Pending && d.attempts == 0 && d.maxAttempts == 5
              && d.nextRetryAt == repo.now && d.lastAttemptAt.None? && d.lastError.None?
              && d.endpointId in repo.endpoints
              && var e := repo.endpoints[d.endpointId]; e.userId == userId && e.enabled && !e.deleted && e.subscribed
    ensures ok && repo.env.faults == old(repo.env.faults) ==>
              forall id :: id in repo.endpoints && repo.endpoints[id].userId == userId && repo.endpoints[id].enabled
                           && !repo.endpoints[id].deleted && repo.endpoints[id].subscribed ==>
                exists i :: 0 <= i < |repo.rows| && repo.rows[i].endpointId == id && repo.rows[i].eventId == clickId
  {
    created := [];
    var list;
    ok, list := repo.ListActiveEndpoints(userId);
    endpoints := list;
    if !ok {
      return;
    }
    if list == [] {
      return;
    }
    assert list[0] in list;
    if clickedAt >= Clicks.JSON_TIME_END {
      ok := false;
      return;
    }
    var now := repo.now;
    for i := 0 to |list|
      invariant repo.Valid() && repo.env.faults >= old(repo.env.faults)
      invariant repo.env.faults == old(repo.env.faults) ==> created == list[..i]
      invariant repo.rows == PublishAll(old(repo.rows), created, clickId, now)
      invariant forall e :: e in created ==> e in list
    {
      var inserted;
      ghost var reached;
      inserted, reached := repo.CreateDelivery(list[i], clickId, now);
      if reached {
        assert (created + [list[i]])[..|created|] == created;
        created := created + [list[i]];
      }
      if !inserted {
        continue;
      }
    }
    PublishAdds(old(repo.rows), created, clickId, now);
  }
}
