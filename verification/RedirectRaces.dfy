// Redirects while links change: every cache and table access of ResolveRedirect is a step of its
// own, cache deletions come late or never, and keys may be evicted (internal/service/link.go,
// internal/cache/link.go). The history of the table is kept so that answers can be held against it.
module RedirectRaces {
  import opened Util
  import opened Links
  import opened LinkCaches

  type RequestId = nat

  // The rows that are not deleted, from a moment on.
  datatype Version = Version(since: int, links: map<Code, Link>)

  // A read of the table: which version it saw, and when.
  datatype Sighting = Sighting(version: nat, at: int)

  // A hash with its end of life, which it may lack, the sighting its fields came from, and the one its expires_at came from.
  datatype Cached = Cached(hash: CachedLink, expiresAt: Option<int>, writtenAt: int, seen: Sighting, expirySeen: Sighting)

  datatype Negative = Negative(expiresAt: int, seen: Sighting)

  datatype Stage =
    | ReadCache
    | ReadNegative
    | ReadTable
    | ValidateCached(entry: Cached, readAt: int)
    | FoundNegative(key: Negative, readAt: int)
    | ChooseTtl(link: Link, seen: Sighting)
    | WriteCache(link: Link, seen: Sighting, ttl: int)
    | ValidateRow(link: Link, seen: Sighting)
    | WriteNegative(seen: Sighting)

  datatype Request = Request(code: Code, began: int, stage: Stage)

  datatype Source =
    | FromTable(seen: Sighting)
    | FromCache(entry: Cached, readAt: int)
    | FromNegative(key: Negative, readAt: int)

  datatype Answer = Answer(code: Code, outcome: Outcome, began: int, at: int, source: Source)

  datatype State = State(
    now: int, versions: seq<Version>, cache: map<Code, Cached>, negative: map<Code, Negative>,
    requests: map<RequestId, Request>, answers: seq<Answer>)

  // How an access goes. A cache write may be cut between HSET and EXPIRE.
  datatype Luck = Works | Fails | CutShort

  datatype Step =
    | Tick(now: int)
    | ChangeRow(code: Code, row: Option<Link>)                  // create, update or delete in the table
    | Drop(code: Code, hash: bool, negative: bool)              // a cache deletion, or an eviction
    | Begin(r: RequestId, code: Code)
    | Continue(r: RequestId, luck: Luck)                        // the next access succeeds, or its error is ignored
    | Abandon(r: RequestId)                                     // a table error, or a lost client

  function Current(s: State): map<Code, Link>
    requires s.versions != []
  {
    s.versions[|s.versions| - 1].links
  }

  function Now(s: State): Sighting
    requires s.versions != []
  {
    Sighting(|s.versions| - 1, s.now)
  }

  predicate Enabled(s: State, step: Step) {
    s.versions != []
    && match step
       case Tick(now) => now >= s.now
       case ChangeRow(_, _) => true
       case Drop(_, _, _) => true
       case Begin(r, _) => r !in s.requests
       case Continue(r, _) => r in s.requests
       case Abandon(r) => r in s.requests
  }

  function Goto(s: State, r: RequestId, stage: Stage): State
    requires r in s.requests
  {
    s.(requests := s.requests[r := s.requests[r].(stage := stage)])
  }

  function Reply(s: State, r: RequestId, outcome: Outcome, source: Source): State
    requires r in s.requests
  {
    s.(requests := s.requests - {r},
       answers := s.answers + [Answer(s.requests[r].code, outcome, s.requests[r].began, s.now, source)])
  }

  predicate Lasts(e: Cached, now: int) {
    e.expiresAt.Some? ==> now < e.expiresAt.value
  }

  // The cached hash of a code that has not run out.
  function Live(s: State, code: Code): Option<Cached> {
    if code in s.cache && Lasts(s.cache[code], s.now) then Some(s.cache[code]) else None
  }

  // The effect of HSET and EXPIRE, or of HSET alone: then the hash keeps the lifetime it had, if any.
  function Written(live: Option<Cached>, l: Link, seen: Sighting, ttl: Option<int>, now: int): Cached {
    Cached(Overwrite(if live.Some? then Some(live.value.hash) else None, l),
           if ttl.Some? then Some(now + WholeSeconds(ttl.value)) else if live.Some? then live.value.expiresAt else None,
           now, seen, if l.expiresAt.None? && live.Some? then live.value.expirySeen else seen)
  }

  function Proceed(s: State, r: RequestId, luck: Luck): State
    requires Enabled(s, Continue(r, luck))
  {
    var code := s.requests[r].code;
    match s.requests[r].stage
    case ReadCache =>
      if !luck.Works? then Goto(s, r, ReadTable)
      else if Live(s, code).Some? then Goto(s, r, ValidateCached(Live(s, code).value, s.now))
      else Goto(s, r, ReadNegative)
    case ValidateCached(entry, readAt) => Reply(s, r, Validate(ToLink(entry.hash), s.now), FromCache(entry, readAt))
    case ReadNegative =>
      if luck.Works? && code in s.negative && s.now < s.negative[code].expiresAt then
        Goto(s, r, FoundNegative(s.negative[code], s.now))
      else Goto(s, r, ReadTable)
    case FoundNegative(key, readAt) => Reply(s, r, NotFound, FromNegative(key, readAt))
    case ReadTable =>
      if code in Current(s) then Goto(s, r, ChooseTtl(Current(s)[code], Now(s)))
      else Goto(s, r, WriteNegative(Now(s)))
    case ChooseTtl(link, seen) =>
      if link.expiresAt.Some? && link.expiresAt.value <= s.now then Goto(s, r, ValidateRow(link, seen))
      else Goto(s, r, WriteCache(link, seen, LinkTtl(link, s.now)))
    case WriteCache(link, seen, ttl) =>
      var t :=
        if luck.Fails? then s
        else s.(cache := s.cache[code := Written(Live(s, code), link, seen, if luck.Works? then Some(ttl) else None, s.now)]);
      Goto(t, r, ValidateRow(link, seen))
    case ValidateRow(link, seen) => Reply(s, r, Validate(TargetOf(link), s.now), FromTable(seen))
    case WriteNegative(seen) =>
      var t := if luck.Works? then s.(negative := s.negative[code := Negative(s.now + NEGATIVE_CACHE_TTL, seen)]) else s;
      Reply(t, r, NotFound, FromTable(seen))
  }

  function Apply(s: State, step: Step): State
    requires Enabled(s, step)
  {
    match step
    case Tick(now) => s.(now := now)
    case ChangeRow(code, row) =>
      var links := if row.Some? then Current(s)[code := row.value] else Current(s) - {code};
      s.(versions := s.versions + [Version(s.now, links)])
    case Drop(code, hash, negative) =>
      s.(cache := if hash then s.cache - {code} else s.cache, negative := if negative then s.negative - {code} else s.negative)
    case Begin(r, code) => s.(requests := s.requests[r := Request(code, s.now, ReadCache)])
    case Continue(r, luck) => Proceed(s, r, luck)
    case Abandon(r) => s.(requests := s.requests - {r})
  }

  function Init(now: int): State {
    State(now, [Version(now, map[])], map[], map[], map[], [])
  }

  ghost predicate Next(s: State, t: State) {
    exists step :: Enabled(s, step) && t == Apply(s, step)
  }

  ghost predicate IsRun(run: seq<State>) {
    && run != []
    && run[0] == Init(run[0].now)
    && forall i :: 0 < i < |run| ==> Next(run[i - 1], run[i])
  }

  // ---- the invariant ----

  // The version was in effect when it was seen.
  ghost predicate Saw(s: State, g: Sighting) {
    && g.version < |s.versions|
    && s.versions[g.version].since <= g.at <= s.now
    && (g.version + 1 < |s.versions| ==> g.at <= s.versions[g.version + 1].since)
  }

  function RowIn(s: State, g: Sighting, code: Code): Option<Link>
    requires g.version < |s.versions|
  {
    var links := s.versions[g.version].links;
    if code in links then Some(links[code]) else None
  }

  ghost predicate SawRow(s: State, g: Sighting, code: Code) {
    Saw(s, g) && RowIn(s, g, code).Some?
  }

  // Destination, type and enabled flag of a hash are those of one row, its expires_at that of one
  // row, and it lives no more than a day unless it lost its EXPIRE.
  ghost predicate CachedOk(s: State, code: Code, e: Cached) {
    && SawRow(s, e.seen, code) && SawRow(s, e.expirySeen, code)
    && e.hash == ToCachedLink(RowIn(s, e.seen, code).value).(
                   expiresAt := FloorSeconds(RowIn(s, e.expirySeen, code).value.expiresAt))
    && e.seen.at <= e.writtenAt && e.expirySeen.at <= e.writtenAt <= s.now
    && (e.expiresAt.Some? ==> e.expiresAt.value <= e.writtenAt + DEFAULT_LINK_TTL)
  }

  ghost predicate NegativeOk(s: State, code: Code, n: Negative) {
    && Saw(s, n.seen) && RowIn(s, n.seen, code).None?
    && n.seen.at + NEGATIVE_CACHE_TTL <= n.expiresAt <= s.now + NEGATIVE_CACHE_TTL
  }

  ghost predicate RequestOk(s: State, q: Request) {
    match q.stage
    case ReadCache => q.began <= s.now
    case ReadNegative => q.began <= s.now
    case ReadTable => q.began <= s.now
    case ValidateCached(e, readAt) => CachedOk(s, q.code, e) && q.began <= readAt <= s.now && e.writtenAt <= readAt && Lasts(e, readAt)
    case FoundNegative(key, readAt) =>
      && NegativeOk(s, q.code, key) && q.began <= readAt <= s.now
      && key.expiresAt - NEGATIVE_CACHE_TTL <= readAt < key.expiresAt
    case ChooseTtl(link, seen) => HoldsRow(s, q, seen, link)
    case WriteCache(link, seen, ttl) => HoldsRow(s, q, seen, link) && ttl <= DEFAULT_LINK_TTL
    case ValidateRow(link, seen) => HoldsRow(s, q, seen, link)
    case WriteNegative(seen) => Saw(s, seen) && RowIn(s, seen, q.code).None? && q.began <= seen.at <= s.now
  }

  ghost predicate HoldsRow(s: State, q: Request, seen: Sighting, link: Link) {
    SawRow(s, seen, q.code) && RowIn(s, seen, q.code).value == link && q.began <= seen.at <= s.now
  }

  // What an answer says is justified by the table as it was at some moment.
  ghost predicate AnswerOk(s: State, a: Answer) {
    match a.source
    case FromTable(seen) =>
      && Saw(s, seen) && a.began <= seen.at <= a.at
      && a.outcome == Lookup(s.versions[seen.version].links, a.code, a.at)
    case FromCache(e, readAt) =>
      && CachedOk(s, a.code, e) && a.began <= readAt <= a.at && e.writtenAt <= readAt && Lasts(e, readAt)
      && a.outcome == Validate(ToLink(e.hash), a.at)
    case FromNegative(key, readAt) =>
      && NegativeOk(s, a.code, key) && a.began <= readAt <= a.at && key.expiresAt - NEGATIVE_CACHE_TTL <= readAt < key.expiresAt
      && a.outcome == NotFound
  }

  ghost predicate TableOk(s: State) {
    && s.versions != []
    && s.versions[|s.versions| - 1].since <= s.now
  }

  ghost predicate Inv(s: State) {
    && TableOk(s)
    && (forall code :: code in s.cache ==> CachedOk(s, code, s.cache[code]))
    && (forall code :: code in s.negative ==> NegativeOk(s, code, s.negative[code]))
    && (forall r :: r in s.requests ==> RequestOk(s, s.requests[r]))
    && (forall i :: 0 <= i < |s.answers| ==> AnswerOk(s, s.answers[i]))
  }

  // The clock moves on and the table gains versions; nothing seen earlier changes.
  ghost predicate Extends(s: State, t: State) {
    && TableOk(s) && TableOk(t) && s.now <= t.now
    && (t.versions == s.versions || (|t.versions| == |s.versions| + 1 && s.versions <= t.versions
                                     && t.versions[|s.versions|].since == s.now))
  }

  lemma SawLater(s: State, t: State, g: Sighting)
    requires Extends(s, t) && Saw(s, g)
    ensures Saw(t, g) && forall code :: RowIn(t, g, code) == RowIn(s, g, code)
  {
  }

  lemma CachedLater(s: State, t: State, code: Code, e: Cached)
    requires Extends(s, t) && CachedOk(s, code, e)
    ensures CachedOk(t, code, e)
  {
    assert s.now <= t.now;
    hide Saw, Extends, ToCachedLink, FloorSeconds;
    SawLater(s, t, e.seen);
    SawLater(s, t, e.expirySeen);
  }

  lemma NegativeLater(s: State, t: State, code: Code, n: Negative)
    requires Extends(s, t) && NegativeOk(s, code, n)
    ensures NegativeOk(t, code, n)
  {
    SawLater(s, t, n.seen);
  }

  lemma RequestLater(s: State, t: State, q: Request)
    requires Extends(s, t) && RequestOk(s, q)
    ensures RequestOk(t, q)
  {
    hide Saw, CachedOk, NegativeOk;
    match q.stage
    case ValidateCached(e, _) => CachedLater(s, t, q.code, e);
    case FoundNegative(key, _) => NegativeLater(s, t, q.code, key);
    case ChooseTtl(_, seen) => SawLater(s, t, seen);
    case WriteCache(_, seen, _) => SawLater(s, t, seen);
    case ValidateRow(_, seen) => SawLater(s, t, seen);
    case WriteNegative(seen) => SawLater(s, t, seen);
    case _ =>
  }

  lemma AnswerLater(s: State, t: State, a: Answer)
    requires Extends(s, t) && AnswerOk(s, a)
    ensures AnswerOk(t, a)
  {
    hide CachedOk, NegativeOk, ToLink;
    match a.source
    case FromTable(seen) => SawLater(s, t, seen);
    case FromCache(e, _) => CachedLater(s, t, a.code, e);
    case FromNegative(key, _) => NegativeLater(s, t, a.code, key);
  }

  lemma StepExtends(s: State, step: Step)
    requires TableOk(s) && Enabled(s, step)
    ensures Extends(s, Apply(s, step))
  {
    hide Validate, ToLink, Overwrite, LinkTtl, WholeSeconds;
  }

  // What the table just read is what a read at this moment sees.
  lemma SeesNow(s: State, code: Code)
    requires TableOk(s)
    ensures Saw(s, Now(s)) && RowIn(s, Now(s), code) == (if code in Current(s) then Some(Current(s)[code]) else None)
  {
  }

  // A cache write keeps the hash made of rows that were really there.
  lemma WrittenOk(s: State, code: Code, link: Link, seen: Sighting, ttl: Option<int>)
    requires code in s.cache ==> CachedOk(s, code, s.cache[code])
    requires SawRow(s, seen, code) && RowIn(s, seen, code).value == link
    requires ttl.Some? ==> ttl.value <= DEFAULT_LINK_TTL
    ensures CachedOk(s, code, Written(Live(s, code), link, seen, ttl, s.now))
  {
    hide TypeText, BoolText;
  }

  lemma InCaches(s: State, code: Code)
    requires Inv(s)
    ensures code in s.cache ==> CachedOk(s, code, s.cache[code]) && s.cache[code].writtenAt <= s.now
    ensures code in s.negative ==>
              NegativeOk(s, code, s.negative[code]) && s.negative[code].expiresAt <= s.now + NEGATIVE_CACHE_TTL
  {
    assert code in s.cache ==> CachedOk(s, code, s.cache[code]);
    assert code in s.negative ==> NegativeOk(s, code, s.negative[code]);
  }

  lemma ContinueRequest(s: State, r: RequestId, luck: Luck)
    requires Inv(s) && Enabled(s, Continue(r, luck))
    ensures var t := Proceed(s, r, luck); r in t.requests ==> RequestOk(s, t.requests[r])
  {
    hide CachedOk, NegativeOk, Saw, Written, Validate, ToLink, TargetOf;
    var q := s.requests[r];
    assert RequestOk(s, q);
    InCaches(s, q.code);
    SeesNow(s, q.code);
    hide Inv;
  }

  // The answer a request gives, if this step gives one.
  lemma ContinueAnswer(s: State, r: RequestId, luck: Luck)
    requires TableOk(s) && r in s.requests && RequestOk(s, s.requests[r])
    ensures var t := Proceed(s, r, luck); forall i :: |s.answers| <= i < |t.answers| ==> AnswerOk(s, t.answers[i])
  {
    hide CachedOk, NegativeOk, Saw, Written, Validate, ToLink;
  }

  lemma ContinueCache(s: State, r: RequestId, luck: Luck)
    requires Inv(s) && Enabled(s, Continue(r, luck))
    ensures var t := Proceed(s, r, luck);
            forall code :: code in t.cache ==> CachedOk(s, code, t.cache[code])
  {
    hide CachedOk, NegativeOk, Saw, Written, Validate, ToLink;
    var q := s.requests[r];
    assert RequestOk(s, q);
    if q.stage.WriteCache? {
      WrittenOk(s, q.code, q.stage.link, q.stage.seen, if luck.Works? then Some(q.stage.ttl) else None);
    }
  }

  lemma ContinueNegative(s: State, r: RequestId, luck: Luck)
    requires Inv(s) && Enabled(s, Continue(r, luck))
    ensures var t := Proceed(s, r, luck);
            forall code :: code in t.negative ==> NegativeOk(s, code, t.negative[code])
  {
    hide CachedOk, Saw, Written, Validate, ToLink;
    var q := s.requests[r];
    assert RequestOk(s, q);
  }

  lemma RestStep(s: State, step: Step)
    requires Inv(s) && Enabled(s, step) && !step.Continue?
    ensures var t := Apply(s, step);
            && t.answers == s.answers
            && (forall code :: code in t.cache ==> CachedOk(s, code, t.cache[code]))
            && (forall code :: code in t.negative ==> NegativeOk(s, code, t.negative[code]))
            && (forall r :: r in t.requests ==> RequestOk(s, t.requests[r]))
  {
    hide CachedOk, NegativeOk, HoldsRow;
    var t := Apply(s, step);
    forall r | r in t.requests ensures RequestOk(s, t.requests[r]) {
      assert r in s.requests ==> RequestOk(s, s.requests[r]);
    }
  }

  lemma InvStep(s: State, t: State)
    requires Inv(s) && Next(s, t)
    ensures Inv(t) && Extends(s, t) && s.answers <= t.answers
  {
    hide CachedOk, NegativeOk, RequestOk, AnswerOk, Extends, Proceed;
    var step :| Enabled(s, step) && t == Apply(s, step);
    StepExtends(s, step);
    if step.Continue? {
      ContinueRequest(s, step.r, step.luck);
      ContinueAnswer(s, step.r, step.luck);
      ContinueCache(s, step.r, step.luck);
      ContinueNegative(s, step.r, step.luck);
      Others(s, step.r, step.luck);
      assert t == Proceed(s, step.r, step.luck);
      hide Apply;
      assert forall r :: r in t.requests && r != step.r ==> RequestOk(s, t.requests[r]);
    } else {
      RestStep(s, step);
    }
    hide Apply, Enabled;
    InvLater(s, t);
  }

  // The requests but r are as they were, and no answer is taken back.
  ghost predicate OnlyOf(s: State, t: State, r: RequestId) {
    && s.answers <= t.answers
    && forall q :: q in t.requests && q != r ==> q in s.requests && t.requests[q] == s.requests[q]
  }

  lemma GotoOnlyOf(s: State, u: State, r: RequestId, stage: Stage)
    requires u.requests == s.requests && u.answers == s.answers && r in u.requests
    ensures OnlyOf(s, Goto(u, r, stage), r)
  {
  }

  lemma ReplyOnlyOf(s: State, u: State, r: RequestId, outcome: Outcome, source: Source)
    requires u.requests == s.requests && u.answers == s.answers && r in u.requests
    ensures OnlyOf(s, Reply(u, r, outcome, source), r)
  {
  }

  lemma Others(s: State, r: RequestId, luck: Luck)
    requires Enabled(s, Continue(r, luck))
    ensures OnlyOf(s, Proceed(s, r, luck), r)
  {
    hide Written, Validate, ToLink, LinkTtl, TargetOf, Goto, Reply, OnlyOf, Live;
    forall u: State, stage: Stage | u.requests == s.requests && u.answers == s.answers
      ensures OnlyOf(s, Goto(u, r, stage), r)
    {
      GotoOnlyOf(s, u, r, stage);
    }
    forall u: State, outcome: Outcome, source: Source | u.requests == s.requests && u.answers == s.answers
      ensures OnlyOf(s, Reply(u, r, outcome, source), r)
    {
      ReplyOnlyOf(s, u, r, outcome, source);
    }
  }

  lemma InvLater(s: State, t: State)
    requires Extends(s, t) && Inv(s)
    requires forall code :: code in t.cache ==> CachedOk(s, code, t.cache[code])
    requires forall code :: code in t.negative ==> NegativeOk(s, code, t.negative[code])
    requires forall r :: r in t.requests ==> RequestOk(s, t.requests[r]) || RequestOk(t, t.requests[r])
    requires forall i :: 0 <= i < |t.answers| ==> AnswerOk(s, t.answers[i])
    ensures Inv(t)
  {
    assert TableOk(t);
    hide CachedOk, NegativeOk, RequestOk, AnswerOk, Extends, TableOk;
    forall code | code in t.cache ensures CachedOk(t, code, t.cache[code]) {
      CachedLater(s, t, code, t.cache[code]);
    }
    forall code | code in t.negative ensures NegativeOk(t, code, t.negative[code]) {
      NegativeLater(s, t, code, t.negative[code]);
    }
    forall r | r in t.requests ensures RequestOk(t, t.requests[r]) {
      if RequestOk(s, t.requests[r]) {
        RequestLater(s, t, t.requests[r]);
      }
    }
    forall i | 0 <= i < |t.answers| ensures AnswerOk(t, t.answers[i]) {
      AnswerLater(s, t, t.answers[i]);
    }
  }

  lemma {:induction false} InvRun(run: seq<State>, i: nat)
    requires IsRun(run) && i < |run|
    ensures Inv(run[i])
  {
    hide Next, CachedOk, NegativeOk, RequestOk, AnswerOk;
    if i > 0 {
      InvRun(run, i - 1);
      InvStep(run[i - 1], run[i]);
    }
  }
}
