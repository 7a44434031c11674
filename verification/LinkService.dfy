// The link service (internal/service/link.go) over the links table (internal/repository/link.go) and
// the cache, each call taken as a whole and Redis answering. In every state these calls can lead to,
// resolving through the cache refines reading the table.
module LinkServices {
  import opened Util
  import opened Links
  import opened LinkCaches

  const MAX_DESTINATION_LENGTH: nat := 2048

  datatype Error =
    | InvalidDestination | UrlTooLong | InvalidAlias | AliasExists | AliasNotGenerated
    | QueryFailed | LinkNotFound | LinkExpired | ExpiresInPast | InvalidRedirectType

  datatype Result<T> = Ok(value: T) | Err(error: Error)

  // A destination with the verdict of URL parsing: http or https, with a host.
  datatype Destination = Destination(text: string, parsesAsWebUrl: bool)

  function DestinationError(d: Destination): Option<Error> {
    if d.text == "" then Some(InvalidDestination)
    else if |d.text| > MAX_DESTINATION_LENGTH then Some(UrlTooLong)
    else if !d.parsesAsWebUrl then Some(InvalidDestination)
    else None
  }

  predicate ValidAlias(alias: string) {
    3 <= |alias| <= 50
    && forall i :: 0 <= i < |alias| ==>
         'a' <= alias[i] <= 'z' || 'A' <= alias[i] <= 'Z' || '0' <= alias[i] <= '9' || alias[i] == '-'
  }

  // redirectType 0 stands for the default; alias "" asks for a generated one.
  datatype CreateInput = CreateInput(
    destination: Destination, alias: Code, redirectType: int, expiresAt: Option<int>, ownerId: string)

  const MAX_ALIAS_RETRIES: nat := 3

  // What creating a link draws: its primary key, and the codes to try if it has to generate one.
  datatype Draw = Draw(id: LinkId, candidates: seq<Code>)

  ghost predicate Drawn(d: Draw) {
    && d.id != "" && |d.candidates| == MAX_ALIAS_RETRIES
    && forall i :: 0 <= i < |d.candidates| ==> ValidAlias(d.candidates[i])
  }

  function OwnerOf(ownerId: string): string {
    if ownerId == "" then "system" else ownerId
  }

  // The first check of a creation that fails before the table is consulted.
  function CreateError(input: CreateInput, now: int): Option<Error> {
    if DestinationError(input.destination).Some? then DestinationError(input.destination)
    else if input.redirectType != 0 && !ValidType(input.redirectType) then Some(InvalidRedirectType)
    else if input.expiresAt.Some? && input.expiresAt.value < now then Some(ExpiresInPast)
    else if input.alias != "" && !ValidAlias(input.alias) then Some(InvalidAlias)
    else None
  }

  datatype UpdateInput = UpdateInput(
    destination: Option<Destination>, redirectType: Option<int>, expiresAt: Option<int>, enabled: Option<bool>, clearExpiry: bool)

  // The link an accepted update leaves, or the first check that fails.
  function Updated(l: Link, input: UpdateInput, now: int): Result<Link> {
    if IsExpired(l.expiresAt, now) then Err(LinkExpired)
    else if input.destination.Some? && DestinationError(input.destination.value).Some? then
      Err(DestinationError(input.destination.value).value)
    else if input.redirectType.Some? && !ValidType(input.redirectType.value) then Err(InvalidRedirectType)
    else if !input.clearExpiry && input.expiresAt.Some? && input.expiresAt.value < now then Err(ExpiresInPast)
    else
      Ok(Link(
        l.id, l.ownerId,
        if input.destination.Some? then input.destination.value.text else l.destination,
        if input.redirectType.Some? then input.redirectType.value else l.redirectType,
        if input.enabled.Some? then input.enabled.value else l.enabled,
        if input.clearExpiry then None else if input.expiresAt.Some? then input.expiresAt else l.expiresAt,
        l.createdAt))
  }

  // Which check fails for which input, and otherwise each field: the one asked for, or the one it had.
  lemma UpdatedInPlainTerms(l: Link, input: UpdateInput, now: int)
    ensures var r := Updated(l, input, now);
            var live := l.expiresAt.None? || now <= l.expiresAt.value;
            var destinationOk := input.destination.None?
                                   || (1 <= |input.destination.value.text| <= 2048 && input.destination.value.parsesAsWebUrl);
            var typeOk := input.redirectType.None? || input.redirectType.value == 301 || input.redirectType.value == 302;
            var expiryOk := input.clearExpiry || input.expiresAt.None? || now <= input.expiresAt.value;
            && (r.Ok? <==> live && destinationOk && typeOk && expiryOk)
            && (r == Err(LinkExpired) <==> !live)
            && (r == Err(UrlTooLong) <==> live && input.destination.Some? && |input.destination.value.text| > 2048)
            && (r == Err(InvalidDestination) <==> live && !destinationOk && |input.destination.value.text| <= 2048)
            && (r == Err(InvalidRedirectType) <==> live && destinationOk && !typeOk)
            && (r == Err(ExpiresInPast) <==> live && destinationOk && typeOk && !expiryOk)
    ensures Updated(l, input, now).Ok? ==>
              var u := Updated(l, input, now).value;
              && u.id == l.id && u.ownerId == l.ownerId && u.createdAt == l.createdAt
              && u.destination == (if input.destination.Some? then input.destination.value.text else l.destination)
              && u.redirectType == (if input.redirectType.Some? then input.redirectType.value else l.redirectType)
              && u.enabled == (if input.enabled.Some? then input.enabled.value else l.enabled)
              && u.expiresAt == (if input.clearExpiry then None else if input.expiresAt.Some? then input.expiresAt else l.expiresAt)
  {
  }

  // The last fraction of a second before a link expires.
  predicate FinalSubSecond(l: Link, now: int) {
    l.expiresAt.Some? && UnixSeconds(l.expiresAt.value) * SECOND < now <= l.expiresAt.value
  }

  // The link's expiry, if any, is still to come.
  predicate Ahead(l: Link, now: int) {
    l.expiresAt.Some? ==> now < l.expiresAt.value
  }

  // The table's own checks: the length of codes, unique primary keys.
  ghost predicate TableOk(links: map<Code, Link>, usedIds: set<LinkId>) {
    && (forall code :: code in links ==> 3 <= |code| <= 50 && links[code].id != "" && links[code].id in usedIds)
    && (forall a, b :: a in links && b in links && a != b ==> links[a].id != links[b].id)
  }

  lemma UpdateKeepsTable(links: map<Code, Link>, usedIds: set<LinkId>, code: Code, l: Link)
    requires TableOk(links, usedIds) && code in links && l.id == links[code].id
    ensures TableOk(links[code := l], usedIds)
  {
  }

  class LinkService {
    const cache: LinkCache
    var links: map<Code, Link>    // the rows that are not deleted, by short code
    var usedIds: set<LinkId>      // primary keys, of deleted rows too
    var now: int                  // the clock, which does not go back

    // A live cache entry is the cached form of the row of its code; a live negative entry was
    // written when there was no such row.
    ghost predicate Coherent() reads this, cache {
      && (forall code :: cache.Live(code, now).Some? ==>
            code in links && cache.Live(code, now).value == ToCachedLink(links[code]))
      && (forall code :: cache.NegativelyCached(code, now) && code in links ==>
            links[code].createdAt >= cache.negative[code] - NEGATIVE_CACHE_TTL)
      && (forall code :: code in cache.negative ==> cache.negative[code] <= now + NEGATIVE_CACHE_TTL)
    }

    ghost predicate CachedRow(code: Code) reads this, cache {
      code in links && cache.Live(code, now) == Some(ToCachedLink(links[code]))
    }

    ghost predicate Valid() reads this, cache {
      TableOk(links, usedIds) && Coherent()
    }

    constructor (cache: LinkCache, now: int)
      requires cache.links == map[] && cache.negative == map[]
      ensures Valid() && this.cache == cache && this.now == now && links == map[] && usedIds == {}
    {
      this.cache, this.now := cache, now;
      links, usedIds := map[], {};
    }

    // Time passes; cached entries may lapse.
    method Tick(later: int)
      requires Valid() && now <= later
      modifies this`now
      ensures Valid() && now == later
    {
      now := later;
    }

    // generateUniqueAlias, for the random candidates drawn and a number of queries the database answers.
    method GenerateUniqueAlias(candidates: seq<Code>, answered: nat) returns (r: Result<Code>)
      requires |candidates| == 3
      ensures r.Ok? ==> exists i :: 0 <= i < |candidates| && i < answered && r.value == candidates[i] && r.value !in links
                                    && forall j :: 0 <= j < i ==> candidates[j] in links
      ensures r.Err? ==> forall i :: 0 <= i < |candidates| && i < answered ==> candidates[i] in links
      ensures r.Err? ==> r.error == if answered < |candidates| then QueryFailed else AliasNotGenerated
    {
      for i := 0 to MAX_ALIAS_RETRIES
        invariant i <= answered
        invariant forall j :: 0 <= j < i ==> candidates[j] in links
      {
        if i >= answered {
          return Err(QueryFailed);
        }
        if candidates[i] !in links {
          return Ok(candidates[i]);
        }
      }
      return Err(AliasNotGenerated);
    }

    // CreateLink. Nothing is cached or invalidated: a negative entry for the code stays.
    method CreateLink(input: CreateInput, draw: Draw, answered: nat) returns (r: Result<Code>)
      requires Valid() && Drawn(draw)
      modifies this`links, this`usedIds
      ensures Valid()
      ensures r.Err? ==> links == old(links) && usedIds == old(usedIds)
      ensures CreateError(input, now).Some? ==> r == Err(CreateError(input, now).value)
      ensures CreateError(input, now).None? && input.alias != "" ==>
                r == if input.alias in old(links) || draw.id in old(usedIds) then Err(AliasExists) else Ok(input.alias)
      ensures r.Ok? ==> r.value !in old(links) && (input.alias == "" ==> r.value in draw.candidates)
      ensures r.Ok? ==> links == old(links)[r.value := Link(
                          draw.id, OwnerOf(input.ownerId), input.destination.text,
                          if input.redirectType == 0 then TEMPORARY else input.redirectType,
                          true, input.expiresAt, now)]
      ensures r.Ok? ==> 3 <= |r.value| <= 50 && forall i :: 0 <= i < |r.value| ==>
                'a' <= r.value[i] <= 'z' || 'A' <= r.value[i] <= 'Z' || '0' <= r.value[i] <= '9' || r.value[i] == '-'
      ensures var destinationOk := 1 <= |input.destination.text| <= 2048 && input.destination.parsesAsWebUrl;
              var typeOk := input.redirectType == 0 || input.redirectType == 301 || input.redirectType == 302;
              var expiryOk := input.expiresAt.None? || now <= input.expiresAt.value;
              var aliasOk := input.alias == "" || (3 <= |input.alias| <= 50 && forall i :: 0 <= i < |input.alias| ==>
                'a' <= input.alias[i] <= 'z' || 'A' <= input.alias[i] <= 'Z' || '0' <= input.alias[i] <= '9' || input.alias[i] == '-');
              && (r.Ok? ==> destinationOk && typeOk && expiryOk && aliasOk)
              && (r == Err(UrlTooLong) <==> |input.destination.text| > 2048)
              && (r == Err(InvalidDestination) <==> !destinationOk && |input.destination.text| <= 2048)
              && (r == Err(InvalidRedirectType) <==> destinationOk && !typeOk)
              && (r == Err(ExpiresInPast) <==> destinationOk && typeOk && !expiryOk)
              && (r == Err(InvalidAlias) <==> destinationOk && typeOk && expiryOk && !aliasOk)
              && (destinationOk && typeOk && expiryOk && aliasOk && input.alias != "" ==>
                    r == if input.alias in old(links) || draw.id in old(usedIds) then Err(AliasExists) else Ok(input.alias))
              && (destinationOk && typeOk && expiryOk && input.alias == "" ==>
                    && (r == Err(QueryFailed) || r == Err(AliasNotGenerated)
                        <==> forall i :: 0 <= i < 3 && i < answered ==> draw.candidates[i] in old(links))
                    && (r == Err(QueryFailed) ==> answered < 3) && (r == Err(AliasNotGenerated) ==> answered >= 3)
                    && (r == Err(AliasExists) ==> draw.id in old(usedIds)))
      ensures r.Ok? ==>
                var l := links[r.value];
                && l.id == draw.id && l.destination == input.destination.text && l.enabled && l.expiresAt == input.expiresAt
                && l.redirectType == (if input.redirectType == 0 then 302 else input.redirectType)
                && l.ownerId == (if input.ownerId == "" then "system" else input.ownerId) && l.createdAt == now
    {
      hide Coherent, TableOk;
      var invalid := DestinationError(input.destination);
      if invalid.Some? {
        return Err(invalid.value);
      }
      var redirectType: RedirectType := TEMPORARY;
      if input.redirectType != 0 {
        if !ValidType(input.redirectType) {
          return Err(InvalidRedirectType);
        }
        redirectType := input.redirectType;
      }
      if input.expiresAt.Some? && input.expiresAt.value < now {
        return Err(ExpiresInPast);
      }
      var alias := input.alias;
      if alias != "" {
        if !ValidAlias(alias) {
          return Err(InvalidAlias);
        }
      } else {
        var generated := GenerateUniqueAlias(draw.candidates, answered);
        if generated.Err? {
          return Err(generated.error);
        }
        alias := generated.value;
      }
      var ownerId := input.ownerId;
      if ownerId == "" {
        ownerId := "system";
      }
      r := InsertLink(alias, Link(draw.id, ownerId, input.destination.text, redirectType, true, input.expiresAt, now));
    }

    // The repository's insert: codes and primary keys are unique.
    method InsertLink(code: Code, l: Link) returns (r: Result<Code>)
      requires Valid() && 3 <= |code| <= 50 && l.id != "" && l.createdAt == now
      modifies this`links, this`usedIds
      ensures Valid()
      ensures r == if code in old(links) || l.id in old(usedIds) then Err(AliasExists) else Ok(code)
      ensures links == if r.Ok? then old(links)[code := l] else old(links)
      ensures usedIds == if r.Ok? then old(usedIds) + {l.id} else old(usedIds)
    {
      hide ToCachedLink;
      if code in links || l.id in usedIds {
        return Err(AliasExists);
      }
      links, usedIds := links[code := l], usedIds + {l.id};
      return Ok(code);
    }

    // GetLinkByID: the row, found through whichever code it has.
    method GetLinkByID(id: LinkId) returns (code: Option<Code>)
      ensures code.Some? ==> code.value in links && links[code.value].id == id
      ensures code.None? ==> forall c :: c in links ==> links[c].id != id
    {
      if c :| c in links && links[c].id == id {
        return Some(c);
      }
      return None;
    }

    // The checks and assignments of an update, in the order the service makes them.
    method ApplyUpdate(before: Link, input: UpdateInput) returns (r: Result<Link>)
      ensures r == Updated(before, input, now)
    {
      var link := before;
      if IsExpired(link.expiresAt, now) {
        return Err(LinkExpired);
      }
      if input.destination.Some? {
        var invalid := DestinationError(input.destination.value);
        if invalid.Some? {
          return Err(invalid.value);
        }
        link := link.(destination := input.destination.value.text);
      }
      if input.redirectType.Some? {
        if !ValidType(input.redirectType.value) {
          return Err(InvalidRedirectType);
        }
        link := link.(redirectType := input.redirectType.value);
      }
      if input.clearExpiry {
        link := link.(expiresAt := None);
      } else if input.expiresAt.Some? {
        if input.expiresAt.value < now {
          return Err(ExpiresInPast);
        }
        link := link.(expiresAt := input.expiresAt);
      }
      if input.enabled.Some? {
        link := link.(enabled := input.enabled.value);
      }
      return Ok(link);
    }

    // UpdateLink: table first, then the cache entry is dropped.
    method UpdateLink(id: LinkId, input: UpdateInput) returns (r: Result<Link>, ghost code: Code)
      requires Valid()
      modifies this`links, cache
      ensures Valid()
      ensures r.Err? ==> links == old(links)
      ensures r == Err(LinkNotFound) || (code in old(links) && old(links)[code].id == id && r == Updated(old(links)[code], input, now))
      ensures r.Ok? ==> links == old(links)[code := r.value]
                        && cache.links == old(cache.links) - {code} && cache.negative == old(cache.negative) - {code}
      ensures r.Err? ==> cache.links == old(cache.links) && cache.negative == old(cache.negative)
      ensures r == Err(LinkNotFound) <==> forall c :: c in old(links) ==> old(links)[c].id != id
      ensures r != Err(LinkNotFound) ==>
                var before := old(links)[code];
                var live := before.expiresAt.None? || now <= before.expiresAt.value;
                var destinationOk := input.destination.None?
                                   || (1 <= |input.destination.value.text| <= 2048 && input.destination.value.parsesAsWebUrl);
                var typeOk := input.redirectType.None? || input.redirectType.value == 301 || input.redirectType.value == 302;
                var expiryOk := input.clearExpiry || input.expiresAt.None? || now <= input.expiresAt.value;
                && (r.Ok? <==> live && destinationOk && typeOk && expiryOk)
                && (r == Err(LinkExpired) <==> !live)
                && (r == Err(UrlTooLong) <==> live && input.destination.Some? && |input.destination.value.text| > 2048)
                && (r == Err(InvalidDestination) <==> live && !destinationOk && |input.destination.value.text| <= 2048)
                && (r == Err(InvalidRedirectType) <==> live && destinationOk && !typeOk)
                && (r == Err(ExpiresInPast) <==> live && destinationOk && typeOk && !expiryOk)
      ensures r.Ok? ==>
                var before, after := old(links)[code], links[code];
                && after.id == before.id && after.ownerId == before.ownerId && after.createdAt == before.createdAt
                && after.destination == (if input.destination.Some? then input.destination.value.text else before.destination)
                && after.redirectType == (if input.redirectType.Some? then input.redirectType.value else before.redirectType)
                && after.enabled == (if input.enabled.Some? then input.enabled.value else before.enabled)
                && after.expiresAt == (if input.clearExpiry then None
                                       else if input.expiresAt.Some? then input.expiresAt else before.expiresAt)
    {
      hide DestinationError, Updated, Coherent;
      var found := GetLinkByID(id);
      code := "";
      if found.None? {
        return Err(LinkNotFound), code;
      }
      code := found.value;
      r := ApplyUpdate(links[found.value], input);
      UpdatedInPlainTerms(links[found.value], input, now);
      if r.Err? {
        return;
      }
      Store(found.value, r.value);
    }

    // The repository's update of a row, then the cache deletion that follows it.
    method Store(code: Code, l: Link)
      requires Valid()
      requires code in links && l.id == links[code].id && l.createdAt == links[code].createdAt
      modifies this`links, cache
      ensures Valid()
      ensures links == old(links)[code := l]
      ensures cache.links == old(cache.links) - {code} && cache.negative == old(cache.negative) - {code}
    {
      hide ToCachedLink, TableOk;
      UpdateKeepsTable(links, usedIds, code, l);
      links := links[code := l];
      cache.DeleteLink(code);
    }

    // DeleteLink: the row is soft-deleted, so no query sees it any more; the cache entry is dropped.
    method DeleteLink(id: LinkId) returns (found: bool, ghost code: Code)
      requires Valid()
      modifies this`links, cache
      ensures Valid()
      ensures !found ==> links == old(links) && forall c :: c in links ==> links[c].id != id
      ensures found ==> code in old(links) && old(links)[code].id == id && links == old(links) - {code}
      ensures if found then cache.links == old(cache.links) - {code} && cache.negative == old(cache.negative) - {code}
              else cache.links == old(cache.links) && cache.negative == old(cache.negative)
    {
      hide ToCachedLink;
      var row := GetLinkByID(id);
      if row.None? {
        return false, "";
      }
      links := links - {row.value};
      cache.DeleteLink(row.value);
      return true, row.value;
    }

    // ResolveRedirect answers as the table would, with exactly two exceptions: a cache hit reports
    // a link as expired in the last fraction of its last second, and a negative entry hides a link
    // that was created less than five minutes ago.
    method ResolveRedirect(code: Code) returns (outcome: Outcome, hit: bool, link: Option<Target>)
      requires Valid()
      modifies cache
      ensures Valid()
      ensures cache.links - {code} == old(cache.links) - {code} && cache.negative - {code} == old(cache.negative) - {code}
      ensures outcome == NotFound ==> cache.NegativelyCached(code, now)
      ensures outcome == NotFound && !old(cache.NegativelyCached(code, now)) ==> cache.negative[code] == now + 300_000_000_000
      ensures (outcome == Disabled || outcome.Redirect?) ==> code in links && (Ahead(links[code], now) ==> CachedRow(code))
      ensures outcome == Expired ==> cache.Live(code, now).None?
      ensures Resolved(code, old(cache.Live(code, now)), old(cache.NegativelyCached(code, now)), outcome,
                       old(cache.links), old(cache.negative))
      ensures hit <==> old(cache.Live(code, now)).Some?
      ensures outcome == if hit then Validate(ToLink(old(cache.Live(code, now)).value), now)
                         else if old(cache.NegativelyCached(code, now)) then NotFound else Lookup(links, code, now)
      ensures outcome.Redirect? ==>
                code in links && link == Some(if hit then ToLink(ToCachedLink(links[code])) else TargetOf(links[code]))
      ensures outcome != Lookup(links, code, now)
         <==> (hit && code in links && links[code].enabled && FinalSubSecond(links[code], now))
              || (!hit && old(cache.NegativelyCached(code, now)) && code in links)
      ensures outcome != Lookup(links, code, now) ==>
                if hit then outcome == Expired
                else outcome == NotFound && now < links[code].createdAt + 300_000_000_000
      ensures match outcome
              case Redirect(destination, redirectType) =>
                && code in links && links[code].enabled
                && destination == links[code].destination && redirectType == links[code].redirectType
                && (links[code].expiresAt.Some? ==> now <= links[code].expiresAt.value)
              case Disabled => code in links && !links[code].enabled
              case Expired =>
                && code in links && links[code].enabled && links[code].expiresAt.Some?
                && links[code].expiresAt.value - links[code].expiresAt.value % 1_000_000_000 < now
                && (!hit ==> links[code].expiresAt.value < now)
              case NotFound => code !in links || now < links[code].createdAt + 300_000_000_000
    {
      hide TableOk;
      var cached := cache.GetLink(code, now);
      if cached.Some? {
        CacheRoundTrip(links[code]);
        hide ToLink, ToCachedLink;
        outcome := ValidateRedirectLink(ToLink(cached.value), code);
        return outcome, true, Some(ToLink(cached.value));
      }
      var negative := cache.IsNegativelyCached(code, now);
      if negative {
        return NotFound, false, None;
      }
      outcome := ResolveMiss(code);
      return outcome, false, if code in links then Some(TargetOf(links[code])) else None;
    }

    // What a redirect leaves in the cache. A hit leaves it alone, but for an expired link, which is dropped, and so
    // does a negative entry; otherwise a missing row leaves a negative entry, a row whose expiry has come is
    // dropped, and another is written with its lifetime.
    ghost predicate Resolved(
      code: Code, live: Option<CachedLink>, known: bool, outcome: Outcome, entries: map<Code, Entry>, negative: map<Code, int>)
      reads this, cache
    {
      if outcome == Expired then cache.links == entries - {code} && cache.negative == negative - {code}
      else if live.Some? || known then cache.links == entries && cache.negative == negative
      else if code !in links then cache.links == entries && cache.negative == negative[code := now + 300_000_000_000]
      else if Ahead(links[code], now) then
        && cache.links == entries[code := Entry(ToCachedLink(links[code]), now + WholeSeconds(LinkTtl(links[code], now)))]
        && cache.negative == negative - {code}
      else cache.links == entries - {code} && cache.negative == negative - {code}
    }

    // The rest of ResolveRedirect, when the cache knows nothing: the table answers and is remembered.
    method ResolveMiss(code: Code) returns (outcome: Outcome)
      requires Valid() && cache.Live(code, now).None?
      modifies cache
      ensures Valid() && outcome == Lookup(links, code, now)
      ensures cache.links - {code} == old(cache.links) - {code} && cache.negative - {code} == old(cache.negative) - {code}
      ensures outcome == NotFound ==> cache.NegativelyCached(code, now) && cache.negative[code] == now + NEGATIVE_CACHE_TTL
      ensures (outcome == Disabled || outcome.Redirect?) ==> code in links && (Ahead(links[code], now) ==> CachedRow(code))
      ensures outcome == Expired ==> cache.Live(code, now).None?
      ensures Resolved(code, None, false, outcome, old(cache.links), old(cache.negative))
    {
      hide TableOk, ToCachedLink, WholeSeconds, LinkTtl;
      if code !in links {
        cache.SetNegativeCache(code, now);
        return NotFound;
      }
      cache.SetLink(code, links[code], now);
      outcome := ValidateRedirectLink(TargetOf(links[code]), code);
    }

    // validateRedirectLink: an expired link is evicted.
    method ValidateRedirectLink(t: Target, code: Code) returns (outcome: Outcome)
      requires Valid()
      modifies cache
      ensures Valid()
      ensures outcome == Validate(t, now)
      ensures if outcome == Expired then cache.links == old(cache.links) - {code} && cache.negative == old(cache.negative) - {code}
              else cache.links == old(cache.links) && cache.negative == old(cache.negative)
    {
      if !t.enabled {
        return Disabled;
      }
      if IsExpired(t.expiresAt, now) {
        cache.DeleteLink(code);
        return Expired;
      }
      return Redirect(t.destination, t.redirectType);
    }
  }

  // A code that somebody asked for before it was created: the new link is not found for exactly five
  // minutes, although the table has it.
  method AskedTooEarly(service: LinkService, input: CreateInput, draw: Draw, later: int) returns (outcome: Outcome)
    requires service.Valid() && Drawn(draw) && CreateError(input, service.now).None? && input.alias != ""
    requires input.alias !in service.links && draw.id !in service.usedIds
    requires !service.cache.NegativelyCached(input.alias, service.now) && service.now <= later
    modifies service, service.cache
    ensures service.Valid() && service.now == later
    ensures input.alias in service.links
    ensures outcome == NotFound <==> later < old(service.now) + 300_000_000_000
    ensures !IsExpired(input.expiresAt, later) ==> Lookup(service.links, input.alias, later).Redirect?
  {
    hide DestinationError, CreateError, ToLink, ToCachedLink;
    var before, hit, link := service.ResolveRedirect(input.alias);
    var created := service.CreateLink(input, draw, MAX_ALIAS_RETRIES);
    service.Tick(later);
    outcome, hit, link := service.ResolveRedirect(input.alias);
  }
}
