// The Redis side of redirects: link hashes and negative entries, with their lifetimes
// (internal/cache/link.go).
module LinkCaches {
  import opened Util
  import opened Links

  const DEFAULT_LINK_TTL: int := 24 * HOUR
  const NEGATIVE_CACHE_TTL: int := 5 * MINUTE

  datatype Entry = Entry(hash: CachedLink, expiresAt: int)

  // EXPIRE takes whole seconds, at least one.
  function WholeSeconds(ttl: int): int {
    if ttl < SECOND then SECOND else ttl - ttl % SECOND
  }

  function LinkTtl(l: Link, now: int): int {
    if l.expiresAt.Some? && l.expiresAt.value - now < DEFAULT_LINK_TTL then l.expiresAt.value - now else DEFAULT_LINK_TTL
  }

  // HSET writes the fields it is given and leaves others in place: an old expires_at survives
  // when the new link has none.
  function Overwrite(before: Option<CachedLink>, l: Link): CachedLink {
    var c := ToCachedLink(l);
    if c.expiresAt.None? && before.Some? then c.(expiresAt := before.value.expiresAt) else c
  }

  // The hash is a snapshot of the link if and only if the link expires, or no expiry was there.
  lemma OverwriteIsSnapshotIff(before: Option<CachedLink>, l: Link)
    ensures Overwrite(before, l) == ToCachedLink(l)
       <==> l.expiresAt.Some? || before.None? || before.value.expiresAt.None?
  {
  }

  class LinkCache {
    var links: map<Code, Entry>
    var negative: map<Code, int>

    constructor ()
      ensures links == map[] && negative == map[]
    {
      links, negative := map[], map[];
    }

    ghost function Live(code: Code, now: int): Option<CachedLink> reads this {
      if code in links && now < links[code].expiresAt then Some(links[code].hash) else None
    }

    ghost predicate NegativelyCached(code: Code, now: int) reads this {
      code in negative && now < negative[code]
    }

    method GetLink(code: Code, now: int) returns (cached: Option<CachedLink>)
      ensures cached == Live(code, now)
    {
      cached := if code in links && now < links[code].expiresAt then Some(links[code].hash) else None;
    }

    method SetLink(code: Code, l: Link, now: int)
      modifies this
      ensures negative == old(negative) - {code}
      ensures if l.expiresAt.Some? && l.expiresAt.value <= now then links == old(links) - {code}
              else links == old(links)[code := Entry(Overwrite(old(Live(code, now)), l), now + WholeSeconds(LinkTtl(l, now)))]
      ensures l.expiresAt.None? || now < l.expiresAt.value ==>
                && code in links
                && var hash, life := links[code].hash, links[code].expiresAt - now;
                   && hash.destination == l.destination
                   && hash.redirectType == (if l.redirectType == 301 then "301" else "302")
                   && hash.enabled == (if l.enabled then "1" else "0")
                   && (l.expiresAt.Some? ==>
                         hash.expiresAt.Some?
                         && hash.expiresAt.value * 1_000_000_000 <= l.expiresAt.value < (hash.expiresAt.value + 1) * 1_000_000_000)
                   && (l.expiresAt.None? ==>
                         hash.expiresAt == (if old(Live(code, now)).Some? then old(Live(code, now)).value.expiresAt else None))
                   && life % 1_000_000_000 == 0 && 1_000_000_000 <= life <= 86_400_000_000_000
                   && (l.expiresAt.None? || l.expiresAt.value >= now + 86_400_000_000_000 ==> life == 86_400_000_000_000)
                   && (l.expiresAt.Some? && l.expiresAt.value < now + 86_400_000_000_000 ==>
                         l.expiresAt.value - now < life + 1_000_000_000 && (life == 1_000_000_000 || now + life <= l.expiresAt.value))
    {
      var ttl := DEFAULT_LINK_TTL;
      if l.expiresAt.Some? {
        var expiresIn := l.expiresAt.value - now;
        if expiresIn <= 0 {
          links, negative := links - {code}, negative - {code};
          return;
        }
        if expiresIn < ttl {
          ttl := expiresIn;
        }
      }
      var fields := ToCachedLink(l);
      if fields.expiresAt.None? && code in links && now < links[code].expiresAt {
        fields := fields.(expiresAt := links[code].hash.expiresAt);
      }
      links := links[code := Entry(fields, now + WholeSeconds(ttl))];
      negative := negative - {code};
    }

    method DeleteLink(code: Code)
      modifies this
      ensures links == old(links) - {code} && negative == old(negative) - {code}
    {
      links, negative := links - {code}, negative - {code};
    }

    method IsNegativelyCached(code: Code, now: int) returns (r: bool)
      ensures r == NegativelyCached(code, now)
    {
      r := code in negative && now < negative[code];
    }

    method SetNegativeCache(code: Code, now: int)
      modifies this`negative
      ensures negative == old(negative)[code := now + 300_000_000_000]
    {
      negative := negative[code := now + NEGATIVE_CACHE_TTL];
    }
  }

  // What is written over nothing is read back as it was written, for as long as its lifetime lasts and no
  // longer: never beyond a day, nor, but for the second Redis grants at least, beyond the link's expiry.
  method WriteThenRead(cache: LinkCache, code: Code, l: Link, now: int, later: int) returns (cached: Option<CachedLink>)
    requires cache.Live(code, now).None? && now <= later && (l.expiresAt.Some? ==> now < l.expiresAt.value)
    modifies cache
    ensures cached.Some? <==> later < now + WholeSeconds(LinkTtl(l, now))
    ensures cached.Some? ==> cached.value == ToCachedLink(l) && later < now + 86_400_000_000_000
    ensures cached.Some? && l.expiresAt.Some? ==> later < l.expiresAt.value || later < now + 1_000_000_000
  {
    cache.SetLink(code, l, now);
    cached := cache.GetLink(code, later);
  }
}
