// The link service, one call at a time, follows the interleaved model: each of its operations is a path of steps
// with nothing in between (internal/service/link.go).
module RedirectRefinement {
  import opened Util
  import opened Links
  import opened LinkCaches
  import opened RedirectRaces
  import opened StaleEntries
  import S = LinkServices

  // The same live entries, with the same lifetimes. What has lapsed does not matter.
  ghost predicate SameEntry(s: State, entries: map<Code, Entry>, code: Code) {
    if code in entries && s.now < entries[code].expiresAt then
      && code in s.cache && s.cache[code].hash == entries[code].hash
      && s.cache[code].expiresAt == Some(entries[code].expiresAt)
    else Live(s, code).None?
  }

  ghost predicate LiveNegative(s: State, code: Code) {
    code in s.negative && s.now < s.negative[code].expiresAt
  }

  ghost predicate SameNegative(s: State, negative: map<Code, int>, code: Code) {
    if code in negative && s.now < negative[code] then code in s.negative && s.negative[code].expiresAt == negative[code]
    else !LiveNegative(s, code)
  }

  ghost predicate SameCache(s: State, entries: map<Code, Entry>, negative: map<Code, int>) {
    forall code :: SameEntry(s, entries, code) && SameNegative(s, negative, code)
  }

  // The state shows the service's clock, table and cache.
  ghost predicate Shows(s: State, service: S.LinkService) reads service, service.cache {
    && s.versions != [] && s.now == service.now && Current(s) == service.links
    && SameCache(s, service.cache.links, service.cache.negative)
  }

  lemma Start(s: State)
    ensures IsPath([s])
  {
  }

  lemma Onward(path: seq<State>, step: Step) returns (longer: seq<State>)
    requires IsPath(path) && Enabled(path[|path| - 1], step)
    ensures IsPath(longer) && longer != [] && longer[0] == path[0] && longer[|longer| - 1] == Apply(path[|path| - 1], step)
  {
    hide Enabled, Apply;
    longer := path + [Apply(path[|path| - 1], step)];
    assert Next(path[|path| - 1], longer[|longer| - 1]);
    hide Next;
  }

  // ---- a request that nothing comes between ----

  // The request has come so far.
  function At(s: State, r: RequestId, code: Code, stage: Stage): State {
    s.(requests := s.requests[r := Request(code, s.now, stage)])
  }

  lemma Goes(s: State, r: RequestId, code: Code, stage: Stage, later: Stage)
    ensures Goto(At(s, r, code, stage), r, later) == At(s, r, code, later)
  {
  }

  lemma Replies(s: State, r: RequestId, code: Code, stage: Stage, outcome: Outcome, source: Source)
    requires r !in s.requests
    ensures Reply(At(s, r, code, stage), r, outcome, source) == s.(answers := s.answers + [Answer(code, outcome, s.now, s.now, source)])
  {
    assert s.requests[r := Request(code, s.now, stage)] - {r} == s.requests;
  }

  // What it has done to the state in the end.
  function Whole(s: State, code: Code): State
    requires s.versions != []
  {
    var (outcome, source) := Answering(s, code);
    Remembered(s, code).(answers := s.answers + [Answer(code, outcome, s.now, s.now, source)])
  }

  function Answering(s: State, code: Code): (Outcome, Source)
    requires s.versions != []
  {
    if Live(s, code).Some? then (Validate(ToLink(Live(s, code).value.hash), s.now), FromCache(Live(s, code).value, s.now))
    else if code in s.negative && s.now < s.negative[code].expiresAt then (NotFound, FromNegative(s.negative[code], s.now))
    else (Lookup(Current(s), code, s.now), FromTable(Now(s)))
  }

  function Remembered(s: State, code: Code): State
    requires s.versions != []
  {
    if Live(s, code).Some? || (code in s.negative && s.now < s.negative[code].expiresAt) then s
    else if code !in Current(s) then s.(negative := s.negative[code := Negative(s.now + 300_000_000_000, Now(s))])
    else
      var l := Current(s)[code];
      if l.expiresAt.Some? && l.expiresAt.value <= s.now then s
      else s.(cache := s.cache[code := Written(None, l, Now(s), Some(LinkTtl(l, s.now)), s.now)])
  }

  lemma Uninterrupted(s: State, code: Code, r: RequestId) returns (path: seq<State>)
    requires s.versions != [] && r !in s.requests
    ensures IsPath(path) && path[0] == s && path[|path| - 1] == Whole(s, code)
  {
    hide IsPath, Validate, ToLink, TargetOf, Written, LinkTtl;
    Start(s);
    path := Onward([s], Begin(r, code));
    var step := Continue(r, Works);
    path := Onward(path, step);
    if Live(s, code).Some? {
      var e := Live(s, code).value;
      Goes(s, r, code, ReadCache, ValidateCached(e, s.now));
      path := Onward(path, step);
      Replies(s, r, code, ValidateCached(e, s.now), Validate(ToLink(e.hash), s.now), FromCache(e, s.now));
    } else {
      Goes(s, r, code, ReadCache, ReadNegative);
      path := Missed(s, code, r, path);
    }
  }

  lemma Missed(s: State, code: Code, r: RequestId, before: seq<State>) returns (path: seq<State>)
    requires s.versions != [] && r !in s.requests && Live(s, code).None?
    requires IsPath(before) && before[|before| - 1] == At(s, r, code, ReadNegative)
    ensures IsPath(path) && path[0] == before[0] && path[|path| - 1] == Whole(s, code)
  {
    hide IsPath, Validate, ToLink, TargetOf, Written, LinkTtl;
    var step := Continue(r, Works);
    path := Onward(before, step);
    if code in s.negative && s.now < s.negative[code].expiresAt {
      var key := s.negative[code];
      Goes(s, r, code, ReadNegative, FoundNegative(key, s.now));
      path := Onward(path, step);
      Replies(s, r, code, FoundNegative(key, s.now), NotFound, FromNegative(key, s.now));
    } else {
      Goes(s, r, code, ReadNegative, ReadTable);
      path := Asked(s, code, r, path);
    }
  }

  lemma Asked(s: State, code: Code, r: RequestId, before: seq<State>) returns (path: seq<State>)
    requires s.versions != [] && r !in s.requests && Live(s, code).None?
    requires !(code in s.negative && s.now < s.negative[code].expiresAt)
    requires IsPath(before) && before[|before| - 1] == At(s, r, code, ReadTable)
    ensures IsPath(path) && path[0] == before[0] && path[|path| - 1] == Whole(s, code)
  {
    hide IsPath, Validate, ToLink, TargetOf, Written, LinkTtl;
    var step := Continue(r, Works);
    path := Onward(before, step);
    if code !in Current(s) {
      Goes(s, r, code, ReadTable, WriteNegative(Now(s)));
      path := Onward(path, step);
      Replies(Remembered(s, code), r, code, WriteNegative(Now(s)), NotFound, FromTable(Now(s)));
    } else {
      Goes(s, r, code, ReadTable, ChooseTtl(Current(s)[code], Now(s)));
      path := RowRead(s, code, r, path);
    }
  }

  lemma RowRead(s: State, code: Code, r: RequestId, before: seq<State>) returns (path: seq<State>)
    requires s.versions != [] && r !in s.requests && Live(s, code).None? && code in Current(s)
    requires !(code in s.negative && s.now < s.negative[code].expiresAt)
    requires IsPath(before) && before[|before| - 1] == At(s, r, code, ChooseTtl(Current(s)[code], Now(s)))
    ensures IsPath(path) && path[0] == before[0] && path[|path| - 1] == Whole(s, code)
  {
    hide IsPath, Validate, ToLink, TargetOf, Written, LinkTtl;
    var step := Continue(r, Works);
    var l, seen := Current(s)[code], Now(s);
    path := Onward(before, step);
    if !(l.expiresAt.Some? && l.expiresAt.value <= s.now) {
      var ttl := LinkTtl(l, s.now);
      Goes(s, r, code, ChooseTtl(l, seen), WriteCache(l, seen, ttl));
      path := Onward(path, step);
      Goes(Remembered(s, code), r, code, WriteCache(l, seen, ttl), ValidateRow(l, seen));
    } else {
      Goes(s, r, code, ChooseTtl(l, seen), ValidateRow(l, seen));
    }
    path := Onward(path, step);
    Replies(Remembered(s, code), r, code, ValidateRow(l, seen), Validate(TargetOf(l), s.now), FromTable(seen));
  }

  // ---- the caches stay the same ----

  lemma WholeShows(
    s: State, code: Code, entries: map<Code, Entry>, negative: map<Code, int>, after: map<Code, Entry>, afterNegative: map<Code, int>)
    requires s.versions != [] && SameCache(s, entries, negative)
    requires var live := code in entries && s.now < entries[code].expiresAt;
             var known := code in negative && s.now < negative[code];
             if live || known then after == entries && afterNegative == negative
             else if code !in Current(s) then after == entries && afterNegative == negative[code := s.now + 300_000_000_000]
             else if S.Ahead(Current(s)[code], s.now) then
               && after == entries[code := Entry(ToCachedLink(Current(s)[code]), s.now + WholeSeconds(LinkTtl(Current(s)[code], s.now)))]
               && afterNegative == negative - {code}
             else after == entries - {code} && afterNegative == negative - {code}
    ensures SameCache(Whole(s, code), after, afterNegative)
  {
    hide ToCachedLink, LinkTtl, WholeSeconds, Answering;
    assert SameEntry(s, entries, code) && SameNegative(s, negative, code);
    forall c ensures SameEntry(Whole(s, code), after, c) && SameNegative(Whole(s, code), afterNegative, c) {
      assert SameEntry(s, entries, c) && SameNegative(s, negative, c);
    }
  }

  lemma DroppedShows(s: State, code: Code, entries: map<Code, Entry>, negative: map<Code, int>)
    requires s.versions != [] && SameCache(s, entries, negative)
    ensures SameCache(Apply(s, Drop(code, true, true)), entries - {code}, negative - {code})
  {
    forall c ensures SameEntry(Apply(s, Drop(code, true, true)), entries - {code}, c)
                     && SameNegative(Apply(s, Drop(code, true, true)), negative - {code}, c) {
      assert SameEntry(s, entries, c) && SameNegative(s, negative, c);
    }
  }

  // Time passing, answers and changes of the table do not touch it either.
  lemma OthersShow(s: State, t: State, entries: map<Code, Entry>, negative: map<Code, int>)
    requires SameCache(s, entries, negative)
    requires t.cache == s.cache && t.negative == s.negative && s.now <= t.now
    ensures SameCache(t, entries, negative)
  {
    forall c ensures SameEntry(t, entries, c) && SameNegative(t, negative, c) {
      assert SameEntry(s, entries, c) && SameNegative(s, negative, c);
    }
  }

  // The answer is the service's, and finding a link expired writes nothing.
  lemma WholeAnswers(s: State, code: Code, entries: map<Code, Entry>, negative: map<Code, int>)
    requires s.versions != [] && SameCache(s, entries, negative)
    ensures var live := code in entries && s.now < entries[code].expiresAt;
            var known := code in negative && s.now < negative[code];
            var outcome := if live then Validate(ToLink(entries[code].hash), s.now)
                           else if known then NotFound else Lookup(Current(s), code, s.now);
            var t := Whole(s, code);
            && t.versions == s.versions && t.requests == s.requests && t.now == s.now
            && |t.answers| == |s.answers| + 1 && s.answers <= t.answers
            && (var a := t.answers[|s.answers|]; a.code == code && a.outcome == outcome && a.began == a.at == s.now)
            && (outcome == Expired ==> t.cache == s.cache && t.negative == s.negative)
  {
    hide ToLink, Written, LinkTtl;
    assert SameEntry(s, entries, code) && SameNegative(s, negative, code);
    hide SameCache;
  }

  // ---- the operations ----

  // Before anything has happened, and as time passes.
  lemma InitShows(service: S.LinkService)
    requires service.links == map[] && service.cache.links == map[] && service.cache.negative == map[]
    ensures Shows(Init(service.now), service)
  {
  }

  method Wait(service: S.LinkService, later: int, s: State) returns (ghost path: seq<State>)
    requires service.Valid() && Shows(s, service) && service.now <= later
    modifies service`now
    ensures service.Valid() && service.now == later && IsPath(path) && path[0] == s && Shows(path[|path| - 1], service)
    ensures path[|path| - 1].answers == s.answers && path[|path| - 1].requests == s.requests
  {
    hide IsPath, SameCache;
    service.Tick(later);
    Start(s);
    path := Onward([s], Tick(later));
    OthersShow(s, path[|path| - 1], service.cache.links, service.cache.negative);
  }

  // A redirect is a request that nothing comes between, with the same answer; if it finds the link expired, the
  // cache deletion that follows is one more step.
  method Resolve(service: S.LinkService, code: Code, s: State, r: RequestId) returns (outcome: Outcome, ghost path: seq<State>)
    requires service.Valid() && Shows(s, service) && r !in s.requests
    modifies service.cache
    ensures service.Valid() && IsPath(path) && path[0] == s
    ensures var t := path[|path| - 1];
            && Shows(t, service) && t.versions == s.versions && t.requests == s.requests
            && |t.answers| == |s.answers| + 1 && s.answers <= t.answers
            && var a := t.answers[|s.answers|];
               a.code == code && a.outcome == outcome && a.began == a.at == s.now
  {
    hide IsPath, ToLink, ToCachedLink, LinkTtl, WholeSeconds, Validate, Lookup, Whole, SameCache;
    hide S.LinkService.Coherent, S.LinkService.CachedRow, S.TableOk, S.FinalSubSecond, S.Ahead;
    ghost var entries, negative := service.cache.links, service.cache.negative;
    var hit, link;
    outcome, hit, link := service.ResolveRedirect(code);
    path := Uninterrupted(s, code, r);
    WholeAnswers(s, code, entries, negative);
    if outcome == Expired {
      OthersShow(s, Whole(s, code), entries, negative);
      DroppedShows(Whole(s, code), code, entries, negative);
      path := Onward(path, Drop(code, true, true));
    } else {
      WholeShows(s, code, entries, negative, service.cache.links, service.cache.negative);
    }
  }

  // A row changes, and afterwards its cache entries are dropped or not.
  lemma ChangedShows(s: State, code: Code, row: Option<Link>, entries: map<Code, Entry>, negative: map<Code, int>)
    returns (path: seq<State>)
    requires s.versions != [] && SameCache(s, entries, negative)
    ensures IsPath(path) && path[0] == s
    ensures var t := path[|path| - 1];
            && t == Apply(s, ChangeRow(code, row)) && SameCache(t, entries, negative)
  {
    hide IsPath, SameCache;
    Start(s);
    path := Onward([s], ChangeRow(code, row));
    OthersShow(s, path[|path| - 1], entries, negative);
  }

  lemma DropAfter(before: seq<State>, code: Code, entries: map<Code, Entry>, negative: map<Code, int>) returns (path: seq<State>)
    requires IsPath(before) && before[|before| - 1].versions != [] && SameCache(before[|before| - 1], entries, negative)
    ensures IsPath(path) && path[0] == before[0]
    ensures var s, t := before[|before| - 1], path[|path| - 1];
            && t == Apply(s, Drop(code, true, true)) && SameCache(t, entries - {code}, negative - {code})
  {
    assert before != [];
    hide IsPath, SameCache;
    DroppedShows(before[|before| - 1], code, entries, negative);
    path := Onward(before, Drop(code, true, true));
  }

  // Creating a link changes its row and nothing else.
  method Create(service: S.LinkService, input: S.CreateInput, draw: S.Draw, answered: nat, s: State)
    returns (r: S.Result<Code>, ghost path: seq<State>)
    requires service.Valid() && S.Drawn(draw) && Shows(s, service)
    modifies service`links, service`usedIds
    ensures service.Valid() && IsPath(path) && path[0] == s && Shows(path[|path| - 1], service)
    ensures path[|path| - 1].answers == s.answers && path[|path| - 1].requests == s.requests
    ensures r.Err? ==> path == [s]
  {
    hide IsPath, SameCache, S.CreateError, S.LinkService.Coherent, S.TableOk;
    r := service.CreateLink(input, draw, answered);
    Start(s);
    path := [s];
    if r.Ok? {
      path := ChangedShows(s, r.value, Some(service.links[r.value]), service.cache.links, service.cache.negative);
    }
  }

  // Updating one changes the row and then drops its cache entries.
  method Update(service: S.LinkService, id: LinkId, input: S.UpdateInput, s: State) returns (r: S.Result<Link>, ghost path: seq<State>)
    requires service.Valid() && Shows(s, service)
    modifies service`links, service.cache
    ensures service.Valid() && IsPath(path) && path[0] == s && Shows(path[|path| - 1], service)
    ensures path[|path| - 1].answers == s.answers && path[|path| - 1].requests == s.requests
    ensures r.Err? ==> path == [s]
  {
    hide IsPath, SameCache, S.Updated, S.LinkService.Coherent, S.TableOk;
    ghost var entries, negative := service.cache.links, service.cache.negative;
    ghost var code;
    r, code := service.UpdateLink(id, input);
    Start(s);
    path := [s];
    if r.Ok? {
      path := ChangedShows(s, code, Some(r.value), entries, negative);
      path := DropAfter(path, code, entries, negative);
    }
  }

  // So does deleting one.
  method Delete(service: S.LinkService, id: LinkId, s: State) returns (found: bool, ghost path: seq<State>)
    requires service.Valid() && Shows(s, service)
    modifies service`links, service.cache
    ensures service.Valid() && IsPath(path) && path[0] == s && Shows(path[|path| - 1], service)
    ensures path[|path| - 1].answers == s.answers && path[|path| - 1].requests == s.requests
    ensures !found ==> path == [s]
  {
    hide IsPath, SameCache, S.LinkService.Coherent, S.TableOk;
    ghost var entries, negative := service.cache.links, service.cache.negative;
    ghost var code;
    found, code := service.DeleteLink(id);
    Start(s);
    path := [s];
    if found {
      path := ChangedShows(s, code, None, entries, negative);
      path := DropAfter(path, code, entries, negative);
    }
  }
}
