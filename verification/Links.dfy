// Links, their cached form, and what a redirect lookup means (internal/model/link.go).
// Times are in nanoseconds since the epoch; the cached form keeps whole seconds.
module Links {
  import opened Util

  const SECOND: int := 1_000_000_000
  const MINUTE: int := 60 * SECOND
  const HOUR: int := 60 * MINUTE

  const PERMANENT: int := 301
  const TEMPORARY: int := 302

  type Code = string
  type LinkId = string

  predicate ValidType(redirectType: int) {
    redirectType == PERMANENT || redirectType == TEMPORARY
  }

  // What the table's check constraint admits.
  type RedirectType = t: int | ValidType(t) witness TEMPORARY

  // The columns a redirect depends on, with the row's identity and creation time.
  datatype Link = Link(
    id: LinkId, ownerId: string, destination: string, redirectType: RedirectType, enabled: bool, expiresAt: Option<int>, createdAt: int)

  // The Redis hash, field by field; timestamps are whole seconds, absent when not set.
  datatype CachedLink = CachedLink(destination: string, redirectType: string, enabled: string, expiresAt: Option<int>)

  function UnixSeconds(t: int): int {
    t / SECOND
  }

  function FloorSeconds(expiresAt: Option<int>): Option<int> {
    if expiresAt.Some? then Some(UnixSeconds(expiresAt.value)) else None
  }

  function TypeText(redirectType: RedirectType): string {
    if redirectType == PERMANENT then "301" else "302"
  }

  function BoolText(b: bool): string {
    if b then "1" else "0"
  }

  function ToCachedLink(l: Link): CachedLink {
    CachedLink(l.destination, TypeText(l.redirectType), BoolText(l.enabled), FloorSeconds(l.expiresAt))
  }

  // A link as a redirect gets it. Out of the cache it has no id and no owner.
  datatype Target = Target(
    id: LinkId, ownerId: string, destination: string, redirectType: RedirectType, enabled: bool, expiresAt: Option<int>)

  function TargetOf(l: Link): Target {
    Target(l.id, l.ownerId, l.destination, l.redirectType, l.enabled, l.expiresAt)
  }

  function ToLink(c: CachedLink): Target {
    Target(
      "", "", c.destination, if c.redirectType == "301" then PERMANENT else TEMPORARY, c.enabled == "1",
      if c.expiresAt.Some? then Some(c.expiresAt.value * SECOND) else None)
  }

  // Through the cache and back, everything a redirect needs survives except the fraction of the
  // second in which the link expires; whose link it is does not.
  lemma CacheRoundTrip(l: Link)
    ensures var t := ToLink(ToCachedLink(l));
            && t == TargetOf(l).(id := "", ownerId := "", expiresAt := t.expiresAt)
            && (t.expiresAt.None? <==> l.expiresAt.None?)
            && (t.expiresAt.Some? ==> t.expiresAt.value <= l.expiresAt.value < t.expiresAt.value + 1_000_000_000)
  {
    assert "301" != "302" && "1" != "0" by { assert "301"[2] != "302"[2] && "1"[0] != "0"[0]; }
  }

  predicate IsExpired(expiresAt: Option<int>, now: int) {
    expiresAt.Some? && now > expiresAt.value
  }

  datatype Outcome = Redirect(destination: string, redirectType: RedirectType) | NotFound | Disabled | Expired

  // validateRedirectLink, for a row that is not deleted.
  function Validate(t: Target, now: int): Outcome {
    if !t.enabled then Disabled
    else if IsExpired(t.expiresAt, now) then Expired
    else Redirect(t.destination, t.redirectType)
  }

  // What a redirect should answer, read straight from the table.
  function Lookup(links: map<Code, Link>, code: Code, now: int): Outcome {
    if code in links then Validate(TargetOf(links[code]), now) else NotFound
  }
}
