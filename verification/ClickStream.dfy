// stream:click_events and its consumer group, as the worker uses them (internal/analytics/worker.go).
// Every call may fail, before or after it took effect.
module ClickStreams {
  import opened Util
  import opened Clicks
  import opened Environments

  function Range(from: nat, to: nat): (r: seq<StreamId>)
    requires from <= to
    ensures |r| == to - from && forall i :: 0 <= i < |r| ==> r[i] == from + i
  {
    seq(to - from, i => from + i)
  }

  // stream:click_events. entries lists all messages in stream order, ids being positions;
  // the first arrived of them have been added, the first lastDelivered handed to the group.
  class ClickStream {
    const env: Environment
    const entries: seq<Message>
    var arrived: nat
    var lastDelivered: nat
    var pending: map<StreamId, int>   // the pending entries list, with the time of last delivery

    ghost predicate Valid() reads this {
      lastDelivered <= arrived <= |entries| && forall id :: id in pending ==> id < lastDelivered
    }

    // Delivered and acknowledged: no longer in the pending entries list.
    ghost function Acked(): set<StreamId> reads this {
      set id: StreamId | 0 <= id < lastDelivered && id !in pending
    }

    constructor (entries: seq<Message>, env: Environment)
      ensures Valid() && this.entries == entries && this.env == env && arrived == lastDelivered == 0 && pending == map[]
    {
      this.entries, this.env := entries, env;
      arrived, lastDelivered, pending := 0, 0, map[];
    }

    // XADD by some publisher.
    method Arrive()
      requires Valid() && arrived < |entries|
      modifies this`arrived
      ensures Valid() && arrived == old(arrived) + 1
    {
      arrived := arrived + 1;
    }

    // XREADGROUP ... >: the next entries, at most count. A lost reply has delivered them all the same.
    method XReadGroup(count: nat, now: int) returns (ok: bool, ids: seq<StreamId>, ghost delivered: seq<StreamId>)
      requires Valid()
      modifies this`lastDelivered, this`pending, env`faults
      ensures Valid() && old(lastDelivered) <= lastDelivered
      ensures env.faults >= old(env.faults) + if ok then 0 else 1
      ensures ok ==> lastDelivered == if arrived - old(lastDelivered) <= count then arrived else old(lastDelivered) + count
      ensures delivered == Range(old(lastDelivered), lastDelivered) && |delivered| <= count
      ensures pending.Keys == old(pending.Keys) + set id | id in delivered
      ensures forall id :: id in pending ==>
                if id in delivered then pending[id] == now else id in old(pending) && pending[id] == old(pending)[id]
      ensures Acked() == old(Acked())
      ensures ids == if ok then delivered else []
    {
      delivered := [];
      var from := lastDelivered;
      var to := if arrived - from <= count then arrived else from + count;
      var lost := env.Fails();
      if lost {
        assert Range(from, from) == [];
        return false, [], delivered;
      }
      var entries := Range(from, to);
      delivered := entries;
      pending := pending + map id | id in entries :: now;
      lastDelivered := to;
      forall id ensures id in delivered <==> from <= id < to {
        if from <= id < to {
          assert delivered[id - from] == id;
        }
      }
      var unanswered := env.Fails();
      ok, ids := !unanswered, if unanswered then [] else entries;
    }

    // XAUTOCLAIM: pending entries from start on that have been idle long enough, and where to go on. It
    // stops at count entries claimed, or at ten times as many looked at.
    method XAutoClaim(start: StreamId, minIdle: int, count: nat, now: int) returns (ok: bool, ids: seq<StreamId>, next: StreamId)
      requires Valid() && count > 0
      modifies this`pending, env`faults
      ensures Valid() && pending.Keys == old(pending.Keys)
      ensures env.faults >= old(env.faults) + if ok then 0 else 1
      ensures !ok ==> ids == []
      ensures Distinct(ids) && |ids| <= count
      ensures forall id :: id in ids ==> start <= id && id in old(pending) && now - old(pending)[id] >= minIdle
      ensures forall id :: id in pending ==> pending[id] == now || pending[id] == old(pending)[id]
      ensures ok ==> forall id :: id in pending && id !in ids ==> pending[id] == old(pending)[id]
      ensures ok && next != 0 && |ids| < count ==> exists id :: id in old(pending) && now - old(pending)[id] < minIdle
      ensures ok ==> forall id :: start <= id && (next == 0 || id < next) && id in old(pending)
                                  && now - old(pending)[id] >= minIdle
                                  ==> id in ids
    {
      ids, next := [], 0;
      var lost := env.Fails();
      if lost {
        return false, [], 0;
      }
      var id, attempts := start, 10 * count;
      ghost var skipped := 0;
      while id < lastDelivered && |ids| < count && attempts > 0
        invariant pending.Keys == old(pending.Keys) && env.faults == old(env.faults)
        invariant attempts + |ids| + skipped == 10 * count
        invariant skipped > 0 ==> exists j :: j in old(pending) && now - old(pending)[j] < minIdle
        invariant forall j :: j in pending ==> pending[j] == now || pending[j] == old(pending)[j]
        invariant forall j :: j in pending && j !in ids ==> pending[j] == old(pending)[j]
        invariant attempts < 10 * count ==> id > start
        invariant start <= id
        invariant forall j :: j in pending && id <= j ==> pending[j] == old(pending)[j]
        invariant Distinct(ids) && |ids| <= count && forall k :: 0 <= k < |ids| ==> start <= ids[k] < id
        invariant forall j :: start <= j < id ==> (j in ids <==> j in old(pending) && now - old(pending)[j] >= minIdle)
      {
        if id in pending {
          attempts := attempts - 1;
          if now - pending[id] >= minIdle {
            ids := ids + [id];
            pending := pending[id := now];
          } else {
            assert id in old(pending);
            skipped := skipped + 1;
          }
        }
        id := id + 1;
      }
      next := if id < lastDelivered then id else 0;
      var unanswered := env.Fails();
      ok, ids := !unanswered, if unanswered then [] else ids;
    }

    // XACK: the entries leave the pending entries list.
    method XAck(ids: seq<StreamId>) returns (ok: bool, ghost reached: bool)
      requires Valid() && forall id :: id in ids ==> id < lastDelivered
      modifies this`pending, env`faults
      ensures Valid() && (ok ==> reached)
      ensures env.faults >= old(env.faults) + if ok then 0 else 1
      ensures !reached ==> pending == old(pending)
      ensures forall id :: id in pending ==> id in old(pending) && pending[id] == old(pending)[id]
      ensures reached ==> pending.Keys == old(pending.Keys) - (set id | id in ids)
      ensures reached ==> Acked() == old(Acked()) + set id | id in ids
    {
      var lost := env.Fails();
      reached := !lost;
      if lost {
        return false, reached;
      }
      pending := pending - set id | id in ids;
      var unanswered := env.Fails();
      ok := !unanswered;
    }
  }

  function StreamOf(entries: seq<Message>): map<StreamId, Message> {
    map id: StreamId | 0 <= id < |entries| :: entries[id]
  }
}
