// What can and what cannot be said of a redirect answered while its link changes.
module RedirectTheorems {
  import opened Util
  import opened Links
  import opened LinkCaches
  import opened RedirectRaces

  ghost function Last(run: seq<State>): State
    requires run != []
  {
    run[|run| - 1]
  }

  ghost predicate Answered(run: seq<State>, a: Answer) {
    IsRun(run) && a in Last(run).answers
  }

  ghost function Versions(run: seq<State>): seq<Version>
    requires run != []
  {
    Last(run).versions
  }

  lemma AnswerJustified(run: seq<State>, a: Answer)
    requires Answered(run, a)
    ensures AnswerOk(Last(run), a)
  {
    assert run != [];
    hide IsRun, AnswerOk, CachedOk, NegativeOk, RequestOk;
    InvRun(run, |run| - 1);
  }

  // An answer that went to the table is the one the table gave at a moment t during the request, when version
  // k was current.
  lemma TableAnswersAreFresh(run: seq<State>, a: Answer) returns (k: nat, t: int)
    requires Answered(run, a) && a.source.FromTable?
    ensures a.began <= t <= a.at
    ensures k < |Versions(run)| && Versions(run)[k].since <= t && (k + 1 < |Versions(run)| ==> t <= Versions(run)[k + 1].since)
    ensures a.outcome == Lookup(Versions(run)[k].links, a.code, a.at)
  {
    AnswerJustified(run, a);
    k, t := a.source.seen.version, a.source.seen.at;
  }

  // A redirect from the cache has the destination, type and enabled flag the row had at one
  // moment. Unless its entry lost its EXPIRE, it was written less than a day before it was read, and if
  // the writer took at most delay between reading the row and writing it, the row was so within
  // the last day and that delay. Its expiry is that of a row as well, though maybe of another moment.
  lemma ServedTripleIsReal(run: seq<State>, a: Answer, delay: int) returns (k: nat, t: int, x: nat)
    requires Answered(run, a) && a.source.FromCache? && a.outcome.Redirect?
    requires a.source.entry.writtenAt - a.source.entry.seen.at <= delay
    ensures a.source.entry.writtenAt - delay <= t <= a.source.entry.writtenAt <= a.at
    ensures k < |Versions(run)| && Versions(run)[k].since <= t && (k + 1 < |Versions(run)| ==> t <= Versions(run)[k + 1].since)
    ensures a.source.entry.expiresAt.Some? ==> a.source.readAt - 86_400_000_000_000 < a.source.entry.writtenAt
    ensures x < |Versions(run)| && a.code in Versions(run)[k].links && a.code in Versions(run)[x].links
    ensures var l := Versions(run)[k].links[a.code];
            l.enabled && a.outcome == Redirect(l.destination, l.redirectType)
    ensures var expiry := Versions(run)[x].links[a.code].expiresAt;
            expiry.Some? ==> a.at <= expiry.value - expiry.value % 1_000_000_000
  {
    AnswerJustified(run, a);
    var e := a.source.entry;
    k, t, x := e.seen.version, e.seen.at, e.expirySeen.version;
    CacheRoundTrip(Versions(run)[k].links[a.code]);
    CacheRoundTrip(Versions(run)[x].links[a.code]);
    hide ToCachedLink;
  }

  // A not-found from a negative entry: the code was free when the writer looked, and the entry was
  // written less than five minutes before it was read.
  lemma NegativeAnswersAreRecent(run: seq<State>, a: Answer, delay: int) returns (k: nat, t: int)
    requires Answered(run, a) && a.source.FromNegative?
    requires a.source.key.expiresAt - 300_000_000_000 - a.source.key.seen.at <= delay
    ensures a.outcome == NotFound
    ensures a.source.readAt - 300_000_000_000 - delay <= t <= a.at
    ensures k < |Versions(run)| && Versions(run)[k].since <= t && (k + 1 < |Versions(run)| ==> t <= Versions(run)[k + 1].since)
    ensures a.code !in Versions(run)[k].links
  {
    AnswerJustified(run, a);
    k, t := a.source.key.seen.version, a.source.key.seen.at;
  }

  ghost predicate ExpiryNeverChanges(run: seq<State>, code: Code, expiry: Option<int>)
    requires run != []
  {
    forall k :: 0 <= k < |Versions(run)| && code in Versions(run)[k].links ==> Versions(run)[k].links[code].expiresAt == expiry
  }

  // A link whose expiry never changes is never redirected after it, nor reported as expired when
  // it has none or when more than the last fraction of a second is left.
  lemma UnchangedExpiryIsKept(run: seq<State>, a: Answer, expiry: Option<int>)
    requires Answered(run, a) && ExpiryNeverChanges(run, a.code, expiry)
    ensures a.outcome.Redirect? && expiry.Some? ==> a.at <= expiry.value
    ensures a.outcome.Expired? ==> expiry.Some? && expiry.value - expiry.value % 1_000_000_000 < a.at
  {
    AnswerJustified(run, a);
    match a.source
    case FromTable(seen) =>
      assert seen.version < |Versions(run)|;
    case FromCache(e, _) =>
      var x := Versions(run)[e.expirySeen.version].links[a.code];
      assert x.expiresAt == expiry;
      CacheRoundTrip(x);
      hide ToCachedLink;
    case FromNegative(_, _) =>
  }

  // A code that only ever had one row is redirected as that row says, if at all.
  lemma UnchangedLinkIsServedExactly(run: seq<State>, a: Answer, l: Link)
    requires Answered(run, a)
    requires forall k :: 0 <= k < |Versions(run)| && a.code in Versions(run)[k].links ==> Versions(run)[k].links[a.code] == l
    ensures a.outcome.Redirect? ==> l.enabled && a.outcome == Redirect(l.destination, l.redirectType) && !IsExpired(l.expiresAt, a.at)
    ensures a.outcome.Disabled? ==> !l.enabled
  {
    AnswerJustified(run, a);
    match a.source
    case FromTable(seen) =>
      assert seen.version < |Versions(run)|;
    case FromCache(e, _) =>
      assert Versions(run)[e.seen.version].links[a.code] == l == Versions(run)[e.expirySeen.version].links[a.code];
      CacheRoundTrip(l);
      hide ToCachedLink;
    case FromNegative(_, _) =>
  }

  // ---- what fails ----

  lemma Extend(run: seq<State>, step: Step) returns (r: seq<State>)
    requires IsRun(run) && Enabled(Last(run), step)
    ensures IsRun(r) && r != [] && Last(r) == Apply(Last(run), step)
  {
    hide Enabled, Apply;
    r := run + [Apply(Last(run), step)];
    assert Next(Last(run), Last(r));
    hide Next;
    forall i | 0 < i < |r| ensures Next(r[i - 1], r[i]) {
      if i < |run| {
        assert r[i - 1] == run[i - 1] && r[i] == run[i];
      }
    }
  }

  lemma InitIsRun(now: int)
    ensures IsRun([Init(now)])
  {
  }

  // A request reads a row and falls asleep before it writes the row to the cache.
  function Reader(s: State, r: RequestId, code: Code): State
    requires s.versions != [] && code in Current(s)
  {
    s.(requests := s.requests[r := Request(code, s.now, ChooseTtl(Current(s)[code], Now(s)))])
  }

  lemma Read(run: seq<State>, r: RequestId, code: Code) returns (r': seq<State>)
    requires IsRun(run)
    requires var s := Last(run); s.versions != [] && code in Current(s) && r !in s.requests && s.cache == map[] && s.negative == map[]
    ensures IsRun(r') && r' != [] && Last(r') == Reader(Last(run), r, code)
  {
    assert run != [];
    hide IsRun;
    var s := Last(run);
    r' := Extend(run, Begin(r, code));
    var s1 := Last(r');
    r' := Extend(r', Continue(r, Works));
    var s2 := Last(r');
    assert s2 == Goto(s1, r, ReadNegative);
    r' := Extend(r', Continue(r, Works));
    var s3 := Last(r');
    assert s3 == Goto(s2, r, ReadTable);
    r' := Extend(r', Continue(r, Works));
    assert Last(r') == Goto(s3, r, ChooseTtl(Current(s)[code], Now(s)));
    assert Last(r').requests == Reader(s, r, code).requests;
  }

  // It wakes up, writes and answers.
  function Writer(s: State, r: RequestId): State
    requires r in s.requests && s.requests[r].stage.ChooseTtl?
  {
    var q := s.requests[r];
    var link, seen := q.stage.link, q.stage.seen;
    s.(cache := s.cache[q.code := Written(Live(s, q.code), link, seen, Some(LinkTtl(link, s.now)), s.now)],
       requests := s.requests - {r},
       answers := s.answers + [Answer(q.code, Validate(TargetOf(link), s.now), q.began, s.now, FromTable(seen))])
  }

  lemma Write(run: seq<State>, r: RequestId) returns (r': seq<State>)
    requires IsRun(run)
    requires var s := Last(run);
             && s.versions != [] && r in s.requests && s.requests[r].stage.ChooseTtl?
             && (s.requests[r].stage.link.expiresAt.Some? ==> s.now < s.requests[r].stage.link.expiresAt.value)
    ensures IsRun(r') && r' != [] && Last(r') == Writer(Last(run), r)
  {
    assert run != [];
    hide IsRun, Written, LinkTtl, Validate;
    var s := Last(run);
    var q := s.requests[r];
    r' := Extend(run, Continue(r, Works));
    var s1 := Last(r');
    assert s1 == Goto(s, r, WriteCache(q.stage.link, q.stage.seen, LinkTtl(q.stage.link, s.now)));
    r' := Extend(r', Continue(r, Works));
    var s2 := Last(r');
    assert s2.requests[r] == q.(stage := ValidateRow(q.stage.link, q.stage.seen));
    assert Live(s1, q.code) == Live(s, q.code);
    r' := Extend(r', Continue(r, Works));
    assert Last(r').requests == s.requests - {r};
  }

  // Every access works and the change drops the cache entry, yet a request that read the row
  // before the change writes it afterwards, and a request made after all that is redirected
  // as before, whatever the link was changed to.
  lemma StaleRedirect(code: Code, before: Link, after: Option<Link>, now: int) returns (run: seq<State>, a: Answer)
    requires before.enabled && before.expiresAt.None?
    ensures Answered(run, a) && a.code == code
    ensures var s := Last(run);
            && s.versions == Init(now).versions + [Version(now, map[code := before]), Version(now, Table(code, after))]
            && a.began == a.at == now && a.outcome == Redirect(before.destination, before.redirectType)
  {
    hide IsRun;
    InitIsRun(now);
    run := Extend([Init(now)], ChangeRow(code, Some(before)));
    assert Current(Last(run)) == Table(code, Some(before));
    run := Read(run, 0, code);
    run := Extend(run, ChangeRow(code, after));
    assert Current(Last(run)) == Table(code, after);
    run := Extend(run, Drop(code, true, true));
    run := Write(run, 0);
    run := Extend(run, Begin(1, code));
    run := Extend(run, Continue(1, Works));
    run := Extend(run, Continue(1, Works));
    a := Last(run).answers[1];
    CacheRoundTrip(before);
  }

  function Table(code: Code, row: Option<Link>): map<Code, Link> {
    if row.Some? then map[code := row.value] else map[]
  }

  // A write of the old row followed by a write of the new one.
  lemma TwoWrites(code: Code, before: Link, after: Link, now: int) returns (run: seq<State>)
    requires before.expiresAt.Some? && now < before.expiresAt.value && after.expiresAt.None?
    ensures IsRun(run) && run != []
    ensures var s := Last(run);
            && s.now == now && s.requests == map[] && |s.answers| == 2
            && s.versions == Init(now).versions + [Version(now, Table(code, Some(before))), Version(now, Table(code, Some(after)))]
            && code in s.cache && s.cache[code].expiresAt == Some(now + DEFAULT_LINK_TTL)
            && s.cache[code].hash == ToCachedLink(after).(expiresAt := FloorSeconds(before.expiresAt))
  {
    hide IsRun, ToCachedLink, FloorSeconds, Validate;
    InitIsRun(now);
    run := Extend([Init(now)], ChangeRow(code, Some(before)));
    assert Current(Last(run)) == Table(code, Some(before));
    run := Read(run, 0, code);
    run := Extend(run, ChangeRow(code, Some(after)));
    assert Current(Last(run)) == Table(code, Some(after));
    run := Extend(run, Drop(code, true, true));
    run := Read(run, 1, code);
    hide Apply, Enabled;
    var s := Last(run);
    assert s.requests[0].stage == ChooseTtl(before, Sighting(1, now)) && s.requests[1].stage == ChooseTtl(after, Sighting(2, now));
    run := Write(run, 0);
    run := Write(run, 1);
    OverBy(before, after, now);
    assert Last(run).requests == map[];
  }

  lemma OverBy(before: Link, after: Link, now: int)
    requires before.expiresAt.Some? && now < before.expiresAt.value && after.expiresAt.None?
    ensures WholeSeconds(LinkTtl(before, now)) >= SECOND && WholeSeconds(LinkTtl(after, now)) == DEFAULT_LINK_TTL
    ensures Overwrite(None, before) == ToCachedLink(before)
    ensures Overwrite(Some(ToCachedLink(before)), after) == ToCachedLink(after).(expiresAt := FloorSeconds(before.expiresAt))
  {
  }

  // Again with every access working: a hash of two rows. The link had an expiry and lost it, the
  // hash has the new destination and the old expires_at, and once that passes the link is reported
  // as expired though it never expires.
  lemma MixedSnapshot(code: Code, before: Link, after: Link, expiry: int, now: int) returns (run: seq<State>, a: Answer)
    requires before.expiresAt == Some(expiry) && now < expiry < now + DEFAULT_LINK_TTL - 1
    requires after.enabled && after.expiresAt.None? && before.destination != after.destination
    ensures Answered(run, a) && a.code == code && a.outcome == Expired && a.source.FromCache?
    ensures Versions(run) == [Version(now, map[]), Version(now, map[code := before]), Version(now, map[code := after])]
    ensures Lookup(map[code := after], code, a.at) == Redirect(after.destination, after.redirectType)
    ensures a.source.entry.hash != ToCachedLink(before) && a.source.entry.hash != ToCachedLink(after)
  {
    hide IsRun;
    run := TwoWrites(code, before, after, now);
    var mixed := Last(run).cache[code];
    run := Extend(run, Tick(expiry + 1));
    run := Extend(run, Begin(2, code));
    run := Extend(run, Continue(2, Works));
    run := Extend(run, Continue(2, Works));
    a := Last(run).answers[2];
    CacheRoundTrip(after);
  }
}
