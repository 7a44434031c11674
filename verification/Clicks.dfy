// Click events as they travel from the Redis stream to the click_events table
// (internal/analytics/validation.go, internal/analytics/worker.go, internal/model/click_event.go).
module Clicks {
  import opened Util

  // A Redis stream entry id, and a click_events primary key.
  type StreamId = nat
  type RowId = nat

  const MILLIS_PER_DAY: int := 24 * 60 * 60 * 1000

  // The decoded body of a stream entry. longIdFits is no part of it: it is the verdict of the database's
  // indexes on a link id that is long, which depends on how well it compresses.
  datatype Payload = Payload(
    shortCode: string, linkId: string, ownerId: string, referrer: string, userAgent: string,
    visitorHash: string, countryCode: string, clickedAt: int, longIdFits: bool)

  // A stream entry's value: the payload field may be absent, may not be JSON, or may decode.
  datatype Message = NoPayload | Undecodable | Decoded(payload: Payload)

  datatype Reason = InvalidFormat | UnmarshalError | ValidationError

  datatype Parsed = Accepted(payload: Payload) | Rejected(reason: Reason)

  // What the click_events table keeps of a click; eventId is its unique idempotency key.
  datatype Click = Click(
    eventId: StreamId, shortCode: string, linkId: string, referrer: string, userAgent: string,
    visitorHash: string, countryCode: string, clickedAt: int, longIdFits: bool)

  // A click in the worker's memory. The row id is drawn anew at every parse; the owner is not stored.
  datatype ClickEvent = ClickEvent(id: RowId, ownerId: string, click: Click)

  // The bucket of daily_link_stats a click falls into.
  datatype DayKey = DayKey(linkId: string, day: int)

  predicate IsHex(value: string) {
    forall i :: 0 <= i < |value| ==>
      '0' <= value[i] <= '9' || 'a' <= value[i] <= 'f' || 'A' <= value[i] <= 'F'
  }

  predicate ValidPayload(p: Payload) {
    && 3 <= |p.shortCode| <= 50
    && p.linkId != ""
    && |p.visitorHash| == 16 && IsHex(p.visitorHash)
    && (p.countryCode == "" || |p.countryCode| == 2)
    && p.clickedAt > 0
    && |p.referrer| <= 500
    && |p.userAgent| <= 500
  }

  function Parse(m: Message): Parsed {
    match m
    case NoPayload => Rejected(InvalidFormat)
    case Undecodable => Rejected(UnmarshalError)
    case Decoded(p) => if ValidPayload(p) then Accepted(p) else Rejected(ValidationError)
  }

  function ClickOf(id: StreamId, p: Payload): Click {
    Click(id, p.shortCode, p.linkId, p.referrer, p.userAgent, p.visitorHash, p.countryCode, p.clickedAt, p.longIdFits)
  }

  function KeyOf(c: Click): DayKey {
    DayKey(c.linkId, c.clickedAt / MILLIS_PER_DAY)
  }

  // The first millisecond after the last year a timestamptz holds, 294276 AD.
  const TIMESTAMP_END: int := 9_224_318_016_000_000

  // A link id this long fits an index row as it is, on pages of 8 kB, with room for the rest of the key.
  const INDEX_ROW_ROOM: nat := 2_679

  // What PostgreSQL can store: text without NUL characters, a timestamp in its range, a link id that
  // fits the indexes. Validation asks for none of them.
  predicate Storable(c: Click) {
    && NoNul(c.shortCode) && NoNul(c.linkId) && NoNul(c.referrer) && NoNul(c.userAgent)
    && NoNul(c.visitorHash) && NoNul(c.countryCode)
    && c.clickedAt < TIMESTAMP_END
    && (|c.linkId| <= INDEX_ROW_ROOM || c.longIdFits)
  }

  // The end of the bucket's day is a timestamp too, so its window can be queried.
  predicate Recomputable(key: DayKey) {
    (key.day + 1) * MILLIS_PER_DAY < TIMESTAMP_END
  }

  // No statement made for the event is bound to be refused: storing it, recounting its day, and looking up
  // its owner's endpoints.
  predicate Sound(e: ClickEvent) {
    Storable(e.click) && Recomputable(KeyOf(e.click)) && NoNul(e.ownerId)
  }

  // The first millisecond of the year 10000, which JSON timestamps cannot express.
  const JSON_TIME_END: int := 253_402_300_800_000

  // The event's webhook payload can be encoded, or there is none.
  predicate Announceable(e: ClickEvent) {
    e.ownerId == "" || e.click.clickedAt < JSON_TIME_END
  }

  // The same in plain terms: texts without NUL, a time in range, an id that fits; and for the event, an
  // owner without NUL and a day that ends in range.
  lemma StorableInPlainTerms(c: Click)
    ensures Storable(c) <==>
              && '\0' !in c.shortCode && '\0' !in c.linkId && '\0' !in c.referrer && '\0' !in c.userAgent
              && '\0' !in c.visitorHash && '\0' !in c.countryCode
              && c.clickedAt < 9_224_318_016_000_000 && (|c.linkId| <= 2_679 || c.longIdFits)
  {
    NulInPlainTerms(c.shortCode);
    NulInPlainTerms(c.linkId);
    NulInPlainTerms(c.referrer);
    NulInPlainTerms(c.userAgent);
    NulInPlainTerms(c.visitorHash);
    NulInPlainTerms(c.countryCode);
  }

  lemma SoundInPlainTerms(e: ClickEvent)
    ensures Sound(e) <==>
              && '\0' !in e.click.shortCode && '\0' !in e.click.linkId && '\0' !in e.click.referrer && '\0' !in e.click.userAgent
              && '\0' !in e.click.visitorHash && '\0' !in e.click.countryCode && '\0' !in e.ownerId
              && (e.click.clickedAt / 86_400_000 + 1) * 86_400_000 < 9_224_318_016_000_000
              && (|e.click.linkId| <= 2_679 || e.click.longIdFits)
  {
    hide NoNul;
    StorableInPlainTerms(e.click);
    NulInPlainTerms(e.ownerId);
  }

  lemma NulInPlainTerms(text: string)
    ensures NoNul(text) <==> '\0' !in text
  {
    assert forall i :: 0 <= i < |text| ==> text[i] in text;
  }

  // In particular a click whose day is the last one of the timestamps can be stored but not recounted.
  lemma LastDayIsStoredNotCounted(e: ClickEvent)
    requires TIMESTAMP_END - MILLIS_PER_DAY <= e.click.clickedAt < TIMESTAMP_END
    ensures !Recomputable(KeyOf(e.click)) && !Sound(e)
  {
  }

  // The UNIQUE constraint on click_events.event_id.
  ghost predicate UniqueIds(table: seq<Click>) {
    forall i, j :: 0 <= i < j < |table| ==> table[i].eventId != table[j].eventId
  }

  // The rows the aggregation query selects: one link, one UTC day.
  function Window(table: seq<Click>, key: DayKey): seq<Click> {
    if table == [] then []
    else
      var init, last := table[..|table| - 1], table[|table| - 1];
      Window(init, key) + if KeyOf(last) == key then [last] else []
  }

  lemma WindowAppend(table: seq<Click>, c: Click, key: DayKey)
    ensures Window(table + [c], key) == Window(table, key) + if KeyOf(c) == key then [c] else []
  {
    assert (table + [c])[..|table|] == table;
  }

  lemma {:induction false} WindowConcat(a: seq<Click>, b: seq<Click>, key: DayKey)
    ensures Window(a + b, key) == Window(a, key) + Window(b, key)
  {
    if b == [] {
      assert a + b == a;
    } else {
      var init, last := b[..|b| - 1], b[|b| - 1];
      WindowConcat(a, init, key);
      assert a + b == (a + init) + [last];
      WindowAppend(a + init, last, key);
    }
  }

  lemma {:induction false} WindowMembers(table: seq<Click>, key: DayKey, c: Click)
    ensures c in Window(table, key) <==> c in table && KeyOf(c) == key
  {
    if table != [] {
      var init, last := table[..|table| - 1], table[|table| - 1];
      WindowMembers(init, key, c);
      assert table == init + [last];
    }
  }

  lemma {:induction false} WindowUnique(table: seq<Click>, key: DayKey)
    requires UniqueIds(table)
    ensures UniqueIds(Window(table, key))
  {
    if table != [] {
      var init, last := table[..|table| - 1], table[|table| - 1];
      WindowUnique(init, key);
      forall i | 0 <= i < |Window(init, key)| ensures Window(init, key)[i].eventId != last.eventId {
        WindowMembers(init, key, Window(init, key)[i]);
      }
    }
  }
}
