// When a cache hash made of two rows can come to be live: one with an expires_at that the row it shows does
// not have (internal/cache/link.go).
module MixedEntries {
  import opened Util
  import opened Links
  import opened LinkCaches
  import opened RedirectRaces
  import opened StaleEntries

  ghost predicate Mixed(s: State, code: Code) {
    && Live(s, code).Some?
    && Live(s, code).value.hash.expiresAt.Some?
    && Live(s, code).value.seen.version < |s.versions|
    && RowIn(s, Live(s, code).value.seen, code).Some?
    && RowIn(s, Live(s, code).value.seen, code).value.expiresAt.None?
  }

  predicate Ahead(l: Link, now: int) {
    l.expiresAt.Some? ==> now < l.expiresAt.value
  }

  // A request for the code that will write a row with, or without, an expiry.
  ghost predicate Writer(s: State, code: Code, r: RequestId, expires: bool) {
    && r in s.requests && s.requests[r].code == code && WillWrite(s.requests[r], s.now)
    && s.requests[r].stage.link.expiresAt.Some? == expires
  }

  // Where an expiry for the hash can come from: a live hash, a writer, or the row, for the next reader.
  ghost predicate ExpiryAtHand(s: State, code: Code) {
    s.versions != []
    && (|| (Live(s, code).Some? && Live(s, code).value.hash.expiresAt.Some?)
        || (exists r :: Writer(s, code, r, true))
        || (code in Current(s) && Current(s)[code].expiresAt.Some? && Ahead(Current(s)[code], s.now)))
  }

  // Where a row without one can come from.
  ghost predicate UnlimitedAtHand(s: State, code: Code) {
    s.versions != []
    && (|| (exists r :: Writer(s, code, r, false))
        || (code in Current(s) && Current(s)[code].expiresAt.None?))
  }

  // Steps in the course of which no row changes.
  ghost predicate Steady(path: seq<State>) {
    IsPath(path) && forall i :: 0 <= i < |path| ==> path[i].versions == path[0].versions
  }

  // ---- what keeps mixed hashes away ----

  ghost predicate NoExpiry(s: State, code: Code) {
    s.versions != [] && !ExpiryAtHand(s, code)
  }

  lemma NoExpiryCache(s: State, r: RequestId, luck: Luck, code: Code)
    requires NoExpiry(s, code) && r in s.requests
    ensures var t := Proceed(s, r, luck);
            && (Live(t, code).Some? ==> Live(t, code).value.hash.expiresAt.None?) && t.versions == s.versions && t.now == s.now
  {
    hide LinkTtl, WholeSeconds, Validate, ToLink, TargetOf, TypeText, BoolText;
    assert !Writer(s, code, r, true);
    hide NoExpiry;
  }

  lemma NoExpiryContinue(s: State, r: RequestId, luck: Luck, code: Code)
    requires NoExpiry(s, code) && r in s.requests
    ensures var t := Proceed(s, r, luck);
            && (Live(t, code).Some? ==> Live(t, code).value.hash.expiresAt.None?)
            && !Writer(t, code, r, true) && t.versions == s.versions && t.now == s.now
  {
    NoExpiryCache(s, r, luck, code);
    hide LinkTtl, Written, Validate, ToLink, TargetOf, Live;
    assert !Writer(s, code, r, true);
  }

  lemma NoExpiryStep(s: State, t: State, code: Code)
    requires NoExpiry(s, code) && Next(s, t) && t.versions == s.versions
    ensures NoExpiry(t, code)
  {
    hide Proceed, WillWrite;
    var step :| Enabled(s, step) && t == Apply(s, step);
    if step.Continue? {
      Others(s, step.r, step.luck);
      NoExpiryContinue(s, step.r, step.luck, code);
      forall q ensures !Writer(t, code, q, true) {
        assert !Writer(s, code, q, true);
      }
    } else {
      NoExpiryRest(s, step, code);
    }
  }

  lemma NoExpiryRest(s: State, step: Step, code: Code)
    requires NoExpiry(s, code) && Enabled(s, step) && !step.Continue? && Apply(s, step).versions == s.versions
    ensures NoExpiry(Apply(s, step), code)
  {
    hide Proceed;
    var t := Apply(s, step);
    forall q ensures !Writer(t, code, q, true) {
      assert !Writer(s, code, q, true);
    }
  }

  ghost predicate NoUnlimited(s: State, code: Code) {
    s.versions != [] && !UnlimitedAtHand(s, code) && !Mixed(s, code)
  }

  lemma NoUnlimitedCache(s: State, r: RequestId, luck: Luck, code: Code)
    requires NoUnlimited(s, code) && r in s.requests && RequestOk(s, s.requests[r])
    ensures var t := Proceed(s, r, luck);
            !Mixed(t, code) && t.versions == s.versions && t.now == s.now
  {
    hide LinkTtl, WholeSeconds, Validate, ToLink, TargetOf, TypeText, BoolText, CachedOk, NegativeOk, Saw;
    assert !Writer(s, code, r, false);
  }

  lemma NoUnlimitedContinue(s: State, r: RequestId, luck: Luck, code: Code)
    requires NoUnlimited(s, code) && r in s.requests && RequestOk(s, s.requests[r])
    ensures var t := Proceed(s, r, luck);
            !Writer(t, code, r, false) && !Mixed(t, code) && t.versions == s.versions && t.now == s.now
  {
    NoUnlimitedCache(s, r, luck, code);
    hide LinkTtl, Written, Validate, ToLink, TargetOf, Mixed, RequestOk, Live;
    assert !Writer(s, code, r, false);
  }

  lemma NoUnlimitedStep(s: State, t: State, code: Code)
    requires NoUnlimited(s, code) && Inv(s) && Next(s, t) && t.versions == s.versions
    ensures NoUnlimited(t, code)
  {
    hide Proceed, WillWrite, RequestOk, CachedOk, NegativeOk, AnswerOk;
    var step :| Enabled(s, step) && t == Apply(s, step);
    if step.Continue? {
      Others(s, step.r, step.luck);
      NoUnlimitedContinue(s, step.r, step.luck, code);
      hide Mixed;
      forall q ensures !Writer(t, code, q, false) {
        assert !Writer(s, code, q, false);
      }
    } else {
      NoUnlimitedRest(s, step, code);
    }
  }

  lemma NoUnlimitedRest(s: State, step: Step, code: Code)
    requires NoUnlimited(s, code) && Enabled(s, step) && !step.Continue? && Apply(s, step).versions == s.versions
    ensures NoUnlimited(Apply(s, step), code)
  {
    hide Proceed;
    var t := Apply(s, step);
    forall q ensures !Writer(t, code, q, false) {
      assert !Writer(s, code, q, false);
    }
  }

  lemma {:induction false} NeverMixed(path: seq<State>, i: nat, code: Code)
    requires Steady(path) && i < |path| && Inv(path[0])
    requires NoExpiry(path[0], code) || NoUnlimited(path[0], code)
    ensures Inv(path[i])
    ensures NoExpiry(path[0], code) ==> NoExpiry(path[i], code)
    ensures NoUnlimited(path[0], code) ==> NoUnlimited(path[i], code)
  {
    hide Next, Inv, NoExpiry, NoUnlimited;
    if i > 0 {
      NeverMixed(path, i - 1, code);
      InvStep(path[i - 1], path[i]);
      if NoExpiry(path[0], code) {
        NoExpiryStep(path[i - 1], path[i], code);
      }
      if NoUnlimited(path[0], code) {
        NoUnlimitedStep(path[i - 1], path[i], code);
      }
    }
  }

  // ---- what brings them about ----

  // A path without row changes, at the end of which the other requests are where they were.
  ghost predicate Leads(path: seq<State>, s: State, t: State, keep: set<RequestId>) {
    && Steady(path) && path[0] == s && path[|path| - 1] == t && t.now == s.now
    && forall q :: q in keep && q in s.requests ==> q in t.requests && t.requests[q] == s.requests[q]
  }

  lemma Join(a: seq<State>, b: seq<State>, s: State, t: State, u: State, keep: set<RequestId>)
    requires Leads(a, s, t, keep) && Leads(b, t, u, keep)
    ensures Leads(a + b[1..], s, u, keep)
  {
    hide Next;
    var c := a + b[1..];
    forall i | 0 < i < |c| ensures Next(c[i - 1], c[i]) {
      if i >= |a| {
        assert c[i - 1] == b[i - |a|] && c[i] == b[i - |a| + 1];
      }
    }
    forall i | 0 <= i < |c| ensures c[i].versions == c[0].versions {
      if i >= |a| {
        assert c[i] == b[i - |a| + 1];
      }
    }
    assert c[|c| - 1] == u;
  }

  lemma One(s: State, step: Step, keep: set<RequestId>) returns (path: seq<State>)
    requires Enabled(s, step) && Apply(s, step).versions == s.versions && Apply(s, step).now == s.now
    requires forall q :: q in keep && q in s.requests ==>
               q in Apply(s, step).requests && Apply(s, step).requests[q] == s.requests[q]
    ensures Leads(path, s, Apply(s, step), keep)
  {
    hide Apply, Enabled;
    assert Next(s, Apply(s, step));
    path := [s, Apply(s, step)];
  }

  // A writer writes: its row over what is live.
  lemma WriteOver(s: State, code: Code, r: RequestId, keep: set<RequestId>) returns (path: seq<State>, t: State)
    requires s.versions != [] && r in s.requests && s.requests[r].code == code && WillWrite(s.requests[r], s.now) && r !in keep
    ensures Leads(path, s, t, keep)
    ensures Live(t, code).Some? && Live(t, code).value.seen == s.requests[r].stage.seen
    ensures Live(t, code).value.hash
         == Overwrite(if Live(s, code).Some? then Some(Live(s, code).value.hash) else None, s.requests[r].stage.link)
  {
    hide Overwrite, LinkTtl;
    var step := Continue(r, Works);
    if s.requests[r].stage.ChooseTtl? {
      var u := Apply(s, step);
      var first := One(s, step, keep);
      var second := One(u, step, keep);
      t := Apply(u, step);
      Join(first, second, s, u, t, keep);
      path := first + second[1..];
    } else {
      path := One(s, step, keep);
      t := Apply(s, step);
    }
  }

  lemma {:induction false} FreshId(ids: set<RequestId>) returns (r: RequestId)
    ensures forall q :: q in ids ==> q < r
    decreases |ids|
  {
    r := 0;
    if ids != {} {
      var x :| x in ids;
      var above := FreshId(ids - {x});
      r := if x < above then above else x + 1;
      forall q | q in ids ensures q < r {
        assert q == x || q in ids - {x};
      }
    }
  }

  // A new request whose cache read fails reads the row; if the row's expiry is ahead it will write it.
  lemma NewReader(s: State, code: Code, keep: set<RequestId>) returns (path: seq<State>, t: State, r: RequestId)
    requires s.versions != [] && code in Current(s) && Ahead(Current(s)[code], s.now) && keep <= s.requests.Keys
    ensures Leads(path, s, t, keep) && r !in keep && r in t.requests
    ensures t.versions == s.versions && t.cache == s.cache && t.requests[r].code == code && WillWrite(t.requests[r], t.now)
    ensures t.requests[r].stage == ChooseTtl(Current(s)[code], Now(s))
  {
    r := FreshId(s.requests.Keys);
    var u := Apply(s, Begin(r, code));
    path := One(s, Begin(r, code), keep);
    var v := Apply(u, Continue(r, Fails));
    assert v == Goto(u, r, ReadTable);
    var next := One(u, Continue(r, Fails), keep);
    Join(path, next, s, u, v, keep);
    path := path + next[1..];
    t := Apply(v, Continue(r, Works));
    assert t == Goto(v, r, ChooseTtl(Current(s)[code], Now(s)));
    next := One(v, Continue(r, Works), keep);
    Join(path, next, s, v, t, keep);
    path := path + next[1..];
  }

  // An expiry at hand can be brought into the live hash, with a writer of a row without one still to come.
  lemma BringExpiry(s: State, code: Code, keep: set<RequestId>) returns (path: seq<State>, t: State)
    requires ExpiryAtHand(s, code) && keep <= s.requests.Keys
    requires forall r :: r in keep ==> !Writer(s, code, r, true)
    ensures Leads(path, s, t, keep)
    ensures Live(t, code).Some? && Live(t, code).value.hash.expiresAt.Some?
  {
    if Live(s, code).Some? && Live(s, code).value.hash.expiresAt.Some? {
      path, t := [s], s;
    } else if r :| Writer(s, code, r, true) {
      path, t := WriteOver(s, code, r, keep);
    } else {
      var r;
      path, t, r := NewReader(s, code, keep);
      var u := t;
      var next;
      next, t := WriteOver(u, code, r, keep);
      Join(path, next, s, u, t, keep);
      path := path + next[1..];
    }
  }

  // A writer of a row without expiry then makes a mixed hash.
  lemma MixBy(s: State, code: Code, r: RequestId) returns (path: seq<State>, t: State)
    requires s.versions != [] && Live(s, code).Some? && Live(s, code).value.hash.expiresAt.Some? && Writer(s, code, r, false)
    requires var g := s.requests[r].stage.seen;
             g.version < |s.versions| && RowIn(s, g, code) == Some(s.requests[r].stage.link)
    ensures Leads(path, s, t, {}) && Mixed(t, code)
  {
    path, t := WriteOver(s, code, r, {});
    assert t.versions == path[0].versions;
  }

  lemma MixedReachable(s: State, code: Code) returns (path: seq<State>)
    requires Inv(s) && ExpiryAtHand(s, code) && UnlimitedAtHand(s, code)
    ensures Steady(path) && path[0] == s && Mixed(path[|path| - 1], code)
  {
    var t, u, next;
    if r :| Writer(s, code, r, false) {
      assert RequestOk(s, s.requests[r]);
      path, t := BringExpiry(s, code, {r});
      assert t.versions == path[0].versions;
      next, u := MixBy(t, code, r);
    } else {
      path, t := BringExpiry(s, code, {});
      assert t.versions == path[0].versions;
      var v, r, last;
      next, v, r := NewReader(t, code, {});
      last, u := MixBy(v, code, r);
      Join(next, last, t, v, u, {});
      next := next + last[1..];
    }
    assert Leads(path, s, t, {});
    Join(path, next, s, t, u, {});
    path := path + next[1..];
  }

  // While the row does not change, a live hash that carries an expires_at its row does not have can come about if
  // and only if there is one already, or both an expiry and a row without one are at hand.
  lemma MixedEntryIff(s: State, code: Code)
    requires Inv(s)
    ensures (exists path :: Steady(path) && path[0] == s && Mixed(path[|path| - 1], code))
       <==> Mixed(s, code) || (ExpiryAtHand(s, code) && UnlimitedAtHand(s, code))
  {
    hide Next;
    if Mixed(s, code) {
      assert Steady([s]) && Mixed([s][0], code);
    } else if ExpiryAtHand(s, code) && UnlimitedAtHand(s, code) {
      var path := MixedReachable(s, code);
    } else {
      assert NoExpiry(s, code) || NoUnlimited(s, code);
      forall path | Steady(path) && path[0] == s ensures !Mixed(path[|path| - 1], code) {
        NeverMixed(path, |path| - 1, code);
      }
    }
  }
}
