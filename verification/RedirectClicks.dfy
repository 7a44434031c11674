// The clicks that redirects publish (internal/handler/redirect.go), and what becomes of them in
// the ingestion (internal/analytics/validation.go, internal/analytics/worker.go).
module RedirectClicks {
  import opened Util
  import opened Clicks
  import opened Links
  import opened LinkServices
  import opened IngestionProtocol
  import opened IngestionTheorems

  // What a request contributes to its click, as the worker will decode it.
  datatype Visit = Visit(referrer: string, userAgent: string, visitorHash: string, countryCode: string, clickedAt: int)

  // A visit as the publisher's sanitising leaves it.
  predicate Sanitized(v: Visit) {
    && |v.visitorHash| == 16 && IsHex(v.visitorHash)
    && (v.countryCode == "" || |v.countryCode| == 2)
    && v.clickedAt > 0 && |v.referrer| <= 500 && |v.userAgent| <= 500
  }

  function PayloadOf(code: Code, link: Target, v: Visit): Payload {
    Payload(code, link.id, link.ownerId, v.referrer, v.userAgent, v.visitorHash, v.countryCode, v.clickedAt,
            |link.id| <= INDEX_ROW_ROOM)
  }

  // The redirect handler: every redirect publishes a click for the link it was given. The worker accepts
  // the click if and only if the redirect was answered from the table: a link out of the cache has no id.
  method Redirect(service: LinkService, code: Code, v: Visit)
    returns (outcome: Outcome, hit: bool, published: Option<Payload>)
    requires service.Valid()
    modifies service.cache
    ensures service.Valid() && (published.Some? <==> outcome.Redirect?)
    ensures published.Some? ==> (Parse(Decoded(published.value)).Accepted? <==> !hit && Sanitized(v))
    ensures published.Some? && hit ==> published.value.linkId == "" && published.value.ownerId == ""
    ensures published.Some? && !hit ==>
              code in service.links && published.value.shortCode == code
              && published.value.linkId == service.links[code].id && published.value.ownerId == service.links[code].ownerId
    ensures published.Some? ==>
              && published.value.shortCode == code && published.value.clickedAt == v.clickedAt
              && published.value.referrer == v.referrer && published.value.userAgent == v.userAgent
              && published.value.visitorHash == v.visitorHash && published.value.countryCode == v.countryCode
  {
    hide IsHex;
    var link;
    outcome, hit, link := service.ResolveRedirect(code);
    if outcome.Redirect? {
      published := Some(PayloadOf(code, link.value, v));
    } else {
      published := None;
    }
  }

  // A click without a link id is never counted: in no run does it become a row, and once acknowledged
  // it was handed to the dead-letter step.
  lemma AnonymousClickIsLost(run: seq<State>, id: StreamId, p: Payload)
    requires IsRun(run) && id in Last(run).stream && Last(run).stream[id] == Decoded(p) && p.linkId == ""
    ensures forall c :: c in Last(run).table.clicks ==> c.eventId != id
    ensures id in Last(run).acked ==> id in Last(run).deadLettered
  {
    assert run != [];
    hide IsRun, IsHex;
    assert !AcceptedId(Last(run).stream, id);
    RowsAreEntries(run);
    if id in Last(run).acked {
      AckedIsProcessed(run, id);
    }
  }
}
