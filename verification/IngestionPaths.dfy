// Several protocol steps of one consumer at a time: what a whole BulkInsert or UpdateDailyStats amounts to.
module IngestionPaths {
  import opened Util
  import opened Clicks
  import opened DailyStats
  import opened ClickEvents
  import opened IngestionProtocol
  import opened IngestionTheorems

  // Protocol steps from s, with no consumer but c holding a batch.
  ghost predicate IsPath(c: Consumer, s: State, path: seq<State>)
    decreases |path|
  {
    path != [] ==> Next(s, path[0]) && path[0].batches.Keys <= {c} && IsPath(c, path[0], path[1..])
  }

  // At no time do two consumers hold a batch.
  ghost predicate Alone(run: seq<State>) {
    forall s, c, d :: s in run && c in s.batches && d in s.batches ==> c == d
  }

  lemma {:induction false} RunThenPath(c: Consumer, run: seq<State>, path: seq<State>)
    requires IsRun(run) && Alone(run) && IsPath(c, Last(run), path)
    ensures IsRun(run + path) && Alone(run + path)
    decreases |path|
  {
    hide Next;
    if path == [] {
      assert run + path == run;
    } else {
      var longer := run + [path[0]];
      forall i | 0 < i < |longer| ensures Next(longer[i - 1], longer[i]) {
        if i < |run| {
          assert longer[i - 1] == run[i - 1] && longer[i] == run[i];
        }
      }
      RunThenPath(c, longer, path[1..]);
      assert run + path == longer + path[1..];
    }
  }

  lemma {:induction false} PathAppend(c: Consumer, s: State, path: seq<State>, t: State)
    requires IsPath(c, s, path) && t.batches.Keys <= {c}
    requires Next(if path == [] then s else path[|path| - 1], t)
    ensures IsPath(c, s, path + [t])
    decreases |path|
  {
    hide Next;
    if path == [] {
      assert [t][1..] == [];
    } else {
      PathAppend(c, path[0], path[1..], t);
      assert (path + [t])[1..] == path[1..] + [t];
    }
  }

  // A consumer that dies leaves its batch; the run goes on without it.
  lemma Abandon(run: seq<State>, c: Consumer) returns (r: seq<State>)
    requires IsRun(run) && Alone(run) && c in Last(run).batches
    ensures IsRun(r) && Alone(r) && run <= r && Last(r) == Last(run).(batches := map[])
  {
    var s := Last(run);
    assert s in run;
    var t := Apply(s, Drop(c));
    assert t.batches == map[] by {
      assert forall d :: d in s.batches ==> d == c;
    }
    assert Next(s, t);
    hide Next;
    assert IsPath(c, s, [t]) by { assert [t][1..] == []; }
    RunThenPath(c, run, [t]);
    r := run + [t];
  }

  function EndOf(s: State, path: seq<State>): State {
    if path == [] then s else path[|path| - 1]
  }

  // BulkInsert of the first n events is n insertion steps.
  lemma {:induction false} InsertPath(c: Consumer, s: State, b: Batch, n: nat, table: Table) returns (path: seq<State>)
    requires s.batches == map[c := b] && b.parsed == |b.ids| && b.inserted == 0 && n <= |b.events|
    requires Inserted(s.table, b.events[..n], table)
    ensures IsPath(c, s, path)
    ensures EndOf(s, path) == s.(table := table, batches := map[c := b.(inserted := n)])
    decreases n
  {
    hide IsPath, Parse, ClickOf, Insertable, InsertRow, KeysOf;
    if n == 0 {
      path := [];
      EmptyPath(c, s);
    } else {
      assert b.events[..n] == b.events[..n - 1] + [b.events[n - 1]];
      var m := InsertedSplit(s.table, b.events[..n - 1], [b.events[n - 1]], table);
      path := InsertPath(c, s, b, n - 1, m);
      var k := EndOf(s, path);
      assert Inserted(InsertRow(m, b.events[n - 1]), [], table);
      var t := k.(table := table, batches := map[c := b.(inserted := n)]);
      assert Enabled(k, InsertOne(c)) && t == Apply(k, InsertOne(c));
      PathAppend(c, s, path, t);
      path := path + [t];
    }
  }

  lemma EmptyPath(c: Consumer, s: State)
    ensures IsPath(c, s, [])
  {
  }

  lemma RefreshOne(c: Consumer, s: State, b: Batch, key: DayKey) returns (t: State, u: State)
    requires s.batches == map[c := b] && b.parsed == |b.ids| && b.inserted == |b.events| && b.read.None?
    requires key in KeysOf(b.events) && Recomputable(key)
    ensures Next(s, t) && t.batches.Keys <= {c} && Next(t, u)
    ensures u == s.(stats := s.stats[key := DayStats(s.table.clicks, key)],
                    batches := map[c := b.(settled := b.settled + {key})])
  {
    hide DayStats, KeysOf, Parse, ClickOf, InsertRow;
    t := Apply(s, Recompute(c, key));
    u := Apply(t, Upsert(c));
  }

  // UpdateDailyStats of some keys is a recompute and an upsert for each.
  lemma {:induction false} RefreshPath(c: Consumer, s: State, b: Batch, keys: seq<DayKey>) returns (path: seq<State>)
    requires s.batches == map[c := b] && b.parsed == |b.ids| && b.inserted == |b.events| && b.read.None? && b.settled == {}
    requires forall key :: key in keys ==> key in KeysOf(b.events) && Recomputable(key)
    ensures IsPath(c, s, path)
    ensures EndOf(s, path) == s.(stats := Refreshed(s.stats, s.table.clicks, keys),
                                 batches := map[c := b.(settled := set key | key in keys)])
    decreases |keys|
  {
    hide IsPath, DayStats, KeysOf, Next;
    if keys == [] {
      path := [];
      EmptyPath(c, s);
      assert b.(settled := set key | key in keys) == b;
    } else {
      var init, last := keys[..|keys| - 1], keys[|keys| - 1];
      assert keys == init + [last];
      path := RefreshPath(c, s, b, init);
      var k := EndOf(s, path);
      var t, u := RefreshOne(c, k, b.(settled := set key | key in init), last);
      PathAppend(c, s, path, t);
      path := path + [t];
      PathAppend(c, s, path, u);
      path := path + [u];
      assert (set key | key in init) + {last} == set key | key in keys;
    }
  }
}
