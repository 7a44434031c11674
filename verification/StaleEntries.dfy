// When a cache entry can outlive a change of its link that dropped it (internal/service/link.go).
module StaleEntries {
  import opened Util
  import opened Links
  import opened LinkCaches
  import opened RedirectRaces
  import opened RedirectTheorems

  // The row of code changes, and its cache entries are dropped without fail.
  function Changed(s: State, code: Code, row: Option<Link>): State
    requires s.versions != []
  {
    Apply(Apply(s, ChangeRow(code, row)), Drop(code, true, true))
  }

  ghost predicate IsPath(path: seq<State>) {
    path != [] && forall i :: 0 < i < |path| ==> Next(path[i - 1], path[i])
  }

  // The request has read the row and will still write it to the cache.
  predicate WillWrite(q: Request, now: int) {
    q.stage.WriteCache? || (q.stage.ChooseTtl? && (q.stage.link.expiresAt.Some? ==> now < q.stage.link.expiresAt.value))
  }

  // A live entry shows a version older than n.
  ghost predicate ShowsOlder(s: State, code: Code, n: nat) {
    Live(s, code).Some? && Live(s, code).value.seen.version < n
  }

  // Neither the cache nor a request that will write holds a version older than n.
  ghost predicate NothingOlder(s: State, code: Code, n: nat) {
    && |s.versions| > n
    && (code in s.cache ==> s.cache[code].seen.version >= n)
    && forall r :: r in s.requests && s.requests[r].code == code && WillWrite(s.requests[r], s.now)
         ==> s.requests[r].stage.seen.version >= n
  }

  lemma ContinuedCache(s: State, r: RequestId, luck: Luck, code: Code, n: nat)
    requires r in s.requests && s.versions != [] && NothingOlder(s, code, n)
    ensures var t := Proceed(s, r, luck);
            && t.versions == s.versions && t.now == s.now
            && (code in t.cache ==> t.cache[code].seen.version >= n)
  {
    hide Overwrite, LinkTtl, WholeSeconds, Validate, ToLink, TargetOf, Lasts;
    var q := s.requests[r];
    assert q.code == code && WillWrite(q, s.now) ==> q.stage.seen.version >= n;
    hide NothingOlder;
  }

  lemma ContinuedRequest(s: State, r: RequestId, luck: Luck, code: Code, n: nat)
    requires r in s.requests && s.versions != [] && NothingOlder(s, code, n)
    ensures var t := Proceed(s, r, luck);
            r in t.requests ==> t.requests[r].code == s.requests[r].code
                                && (t.requests[r].code == code && WillWrite(t.requests[r], s.now) ==> t.requests[r].stage.seen.version >= n)
  {
    hide Written, LinkTtl, Validate, ToLink, TargetOf, Lasts;
    var q := s.requests[r];
    assert q.code == code && WillWrite(q, s.now) ==> q.stage.seen.version >= n;
    assert |s.versions| > n;
    hide NothingOlder;
  }

  lemma RestNothingOlder(s: State, step: Step, code: Code, n: nat)
    requires Enabled(s, step) && !step.Continue? && NothingOlder(s, code, n)
    ensures NothingOlder(Apply(s, step), code, n)
  {
    hide Proceed;
  }

  lemma NothingOlderStep(s: State, t: State, code: Code, n: nat)
    requires Next(s, t) && NothingOlder(s, code, n)
    ensures NothingOlder(t, code, n)
  {
    hide Proceed, WillWrite;
    var step :| Enabled(s, step) && t == Apply(s, step);
    if step.Continue? {
      Others(s, step.r, step.luck);
      ContinuedCache(s, step.r, step.luck, code, n);
      ContinuedRequest(s, step.r, step.luck, code, n);
    } else {
      RestNothingOlder(s, step, code, n);
    }
  }

  lemma {:induction false} NothingOlderAlong(path: seq<State>, i: nat, code: Code, n: nat)
    requires IsPath(path) && NothingOlder(path[0], code, n) && i < |path|
    ensures NothingOlder(path[i], code, n)
  {
    hide Next, NothingOlder;
    if i > 0 {
      NothingOlderAlong(path, i - 1, code, n);
      NothingOlderStep(path[i - 1], path[i], code, n);
    }
  }

  // From the change on, a request that will write does so when its turn comes.
  lemma LateWrite(s: State, code: Code, r: RequestId) returns (path: seq<State>)
    requires s.versions != [] && r in s.requests && s.requests[r].code == code && WillWrite(s.requests[r], s.now)
    requires Live(s, code).None?
    ensures IsPath(path) && path[0] == s
    ensures var t := path[|path| - 1];
            Live(t, code).Some? && Live(t, code).value.seen == s.requests[r].stage.seen
  {
    hide Overwrite, LinkTtl;
    var step := Continue(r, Works);
    path := [s];
    if s.requests[r].stage.ChooseTtl? {
      var t := Apply(s, step);
      assert Next(s, t);
      path := path + [t];
    }
    var t := path[|path| - 1];
    var u := Apply(t, step);
    assert Next(t, u);
    path := path + [u];
  }

  // After a change whose invalidation succeeded, the cache can come to show an older version of
  // the row if and only if some request had read the row before the change and not yet written it.
  lemma StaleEntryIff(s: State, code: Code, row: Option<Link>)
    requires Inv(s)
    ensures (exists path :: IsPath(path) && path[0] == Changed(s, code, row)
                            && ShowsOlder(path[|path| - 1], code, |s.versions|))
       <==> exists r :: r in s.requests && s.requests[r].code == code && WillWrite(s.requests[r], s.now)
  {
    var t, n := Changed(s, code, row), |s.versions|;
    if r :| r in s.requests && s.requests[r].code == code && WillWrite(s.requests[r], s.now) {
      assert RequestOk(s, s.requests[r]);
      var path := LateWrite(t, code, r);
      assert ShowsOlder(path[|path| - 1], code, n);
    } else {
      assert NothingOlder(t, code, n);
      forall path | IsPath(path) && path[0] == t ensures !ShowsOlder(path[|path| - 1], code, n) {
        NothingOlderAlong(path, |path| - 1, code, n);
      }
    }
  }

  // A write cut between HSET and EXPIRE leaves an entry without a lifetime: however much later, a
  // request is still answered from it.
  lemma Everlasting(code: Code, l: Link, now: int, age: nat) returns (run: seq<State>, a: Answer)
    requires l.expiresAt.None?
    ensures Answered(run, a) && a.source.FromCache? && a.began == a.source.entry.writtenAt + age
  {
    hide IsRun, ToCachedLink, ToLink, Validate;
    InitIsRun(now);
    run := Extend([Init(now)], ChangeRow(code, Some(l)));
    run := Read(run, 0, code);
    run := Extend(run, Continue(0, Works));
    run := Extend(run, Continue(0, CutShort));
    run := Extend(run, Tick(now + age));
    run := Extend(run, Begin(1, code));
    run := Extend(run, Continue(1, Works));
    run := Extend(run, Continue(1, Works));
    a := Last(run).answers[0];
  }
}
