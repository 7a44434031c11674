// Listing links page by page (internal/repository/link.go, internal/service/link.go): keyset
// pagination over (created_at, id), newest first, while links come, change and go.
module Pagination {
  import opened Util
  import opened Links

  // Ids as the database orders them.
  type RowId = int

  datatype Row = Row(
    id: RowId, shortCode: Code, ownerId: string, createdAt: int, deleted: bool,
    destination: string, redirectType: RedirectType, enabled: bool, expiresAt: Option<int>)

  type Table = seq<Row>

  datatype Filter = Filter(ownerId: string, createdAfter: Option<int>, createdBefore: Option<int>)

  // What a caller may send as a cursor: nothing, one that decodes, or one that does not.
  datatype Cursor = Start | Below(createdAt: int, id: RowId) | Garbage

  datatype Page = Page(links: seq<Row>, next: Option<Cursor>)

  datatype Result<T> = Ok(value: T) | InvalidCursor

  predicate Precedes(aCreated: int, a: RowId, bCreated: int, b: RowId) {
    aCreated < bCreated || (aCreated == bCreated && a < b)
  }

  // Strictly older: later in the listing.
  predicate Older(a: Row, b: Row) {
    Precedes(a.createdAt, a.id, b.createdAt, b.id)
  }

  predicate PastCursor(r: Row, c: Cursor) {
    c.Below? ==> Precedes(r.createdAt, r.id, c.createdAt, c.id)
  }

  // The conditions that no later change of a link can affect.
  predicate InScope(r: Row, f: Filter) {
    && r.ownerId == f.ownerId
    && (f.createdAfter.Some? ==> r.createdAt >= f.createdAfter.value)
    && (f.createdBefore.Some? ==> r.createdAt <= f.createdBefore.value)
  }

  predicate Selected(r: Row, f: Filter, c: Cursor) {
    !r.deleted && InScope(r, f) && PastCursor(r, c)
  }

  function InsertOrdered(r: Row, s: seq<Row>): seq<Row> {
    if s == [] || Older(s[0], r) then [r] + s else [s[0]] + InsertOrdered(r, s[1..])
  }

  // What the query returns but for its limit: the selected rows, newest first.
  function Listing(table: Table, f: Filter, c: Cursor): seq<Row> {
    if table == [] then []
    else
      var rest, r := Listing(table[..|table| - 1], f, c), table[|table| - 1];
      if Selected(r, f, c) then InsertOrdered(r, rest) else rest
  }

  // One page of a query result.
  function PageOf(rows: seq<Row>, limit: nat): Page
    requires limit >= 1
  {
    if |rows| <= limit then Page(rows, None)
    else Page(rows[..limit], Some(Below(rows[limit - 1].createdAt, rows[limit - 1].id)))
  }

  ghost predicate UniqueIds(table: Table) {
    forall i, j :: 0 <= i < j < |table| ==> table[i].id != table[j].id
  }

  ghost predicate Descending(s: seq<Row>) {
    forall i, j :: 0 <= i < j < |s| ==> Older(s[j], s[i])
  }

  lemma DescendingCons(r: Row, s: seq<Row>)
    requires Descending(s) && forall x :: x in s ==> Older(x, r)
    ensures Descending([r] + s)
  {
  }

  lemma {:induction false} InsertMeaning(r: Row, s: seq<Row>)
    requires Descending(s) && forall x :: x in s ==> x.id != r.id
    ensures Descending(InsertOrdered(r, s))
    ensures forall x :: x in InsertOrdered(r, s) <==> x == r || x in s
  {
    if s == [] || Older(s[0], r) {
      DescendingCons(r, s);
    } else {
      var tail := s[1..];
      assert s == [s[0]] + tail;
      assert s[0] in s && Older(r, s[0]);
      forall x | x in tail ensures Older(x, s[0]) {
        var j :| 0 < j < |s| && s[j] == x;
      }
      InsertMeaning(r, tail);
      DescendingCons(s[0], InsertOrdered(r, tail));
    }
  }

  // The listing is sorted and holds exactly the selected rows.
  lemma {:induction false} ListingMeaning(table: Table, f: Filter, c: Cursor)
    requires UniqueIds(table)
    ensures Descending(Listing(table, f, c))
    ensures forall r :: r in Listing(table, f, c) <==> r in table && Selected(r, f, c)
  {
    hide Older, Selected, InsertOrdered;
    if table != [] {
      var init, last := table[..|table| - 1], table[|table| - 1];
      ListingMeaning(init, f, c);
      assert table == init + [last];
      if Selected(last, f, c) {
        InsertMeaning(last, Listing(init, f, c));
      }
    }
  }

  // In plain terms: the owner's links that are not deleted and were created within the bounds, below the cursor
  // in (created_at, id), newest first and among those created at the same time highest id first.
  lemma ListingInPlainTerms(table: Table, f: Filter, c: Cursor)
    requires UniqueIds(table)
    ensures var rows := Listing(table, f, c);
            && (forall i, j :: 0 <= i < j < |rows| ==>
                  rows[i].createdAt > rows[j].createdAt || (rows[i].createdAt == rows[j].createdAt && rows[i].id > rows[j].id))
            && forall r :: r in rows <==>
                 && r in table && !r.deleted && r.ownerId == f.ownerId
                 && (f.createdAfter.Some? ==> r.createdAt >= f.createdAfter.value)
                 && (f.createdBefore.Some? ==> r.createdAt <= f.createdBefore.value)
                 && (c.Below? ==> r.createdAt < c.createdAt || (r.createdAt == c.createdAt && r.id < c.id))
  {
    ListingMeaning(table, f, c);
    hide Listing;
  }

  // There is only one way to list a set of rows.
  lemma {:induction false} SameListing(a: seq<Row>, b: seq<Row>)
    requires Descending(a) && Descending(b)
    requires forall r :: r in a <==> r in b
    ensures a == b
  {
    assert a != [] ==> a[0] in a && a[0] in b;
    assert b != [] ==> b[0] in b && b[0] in a;
    if a != [] && b != [] {
      var i :| 0 <= i < |b| && b[i] == a[0];
      var j :| 0 <= j < |a| && a[j] == b[0];
      assert a[0] == b[0];
      forall r ensures r in a[1..] <==> r in b[1..] {
        assert r in a[1..] <==> r in a && r != a[0];
        assert r in b[1..] <==> r in b && r != b[0];
      }
      SameListing(a[1..], b[1..]);
    }
  }

  // A page in plain terms: the first links of the listing, as many as the limit allows. The next cursor is the
  // last of them, and there is one exactly if a link that should be listed is not on the page; every such link is
  // older than all on it.
  lemma PageInPlainTerms(table: Table, f: Filter, c: Cursor, limit: nat)
    requires UniqueIds(table) && limit >= 1
    ensures var page := PageOf(Listing(table, f, c), limit);
            && |page.links| <= limit
            && (forall i, j :: 0 <= i < j < |page.links| ==>
                  page.links[i].createdAt > page.links[j].createdAt
                  || (page.links[i].createdAt == page.links[j].createdAt && page.links[i].id > page.links[j].id))
            && (forall r :: r in page.links ==>
                  && r in table && !r.deleted && r.ownerId == f.ownerId
                  && (f.createdAfter.Some? ==> r.createdAt >= f.createdAfter.value)
                  && (f.createdBefore.Some? ==> r.createdAt <= f.createdBefore.value)
                  && (c.Below? ==> r.createdAt < c.createdAt || (r.createdAt == c.createdAt && r.id < c.id)))
            && (page.next.Some? ==>
                  |page.links| == limit
                  && page.next == Some(Below(page.links[limit - 1].createdAt, page.links[limit - 1].id)))
    ensures var page := PageOf(Listing(table, f, c), limit);
            forall r :: (&& r in table && r !in page.links && !r.deleted && r.ownerId == f.ownerId
                         && (f.createdAfter.Some? ==> r.createdAt >= f.createdAfter.value)
                         && (f.createdBefore.Some? ==> r.createdAt <= f.createdBefore.value)
                         && (c.Below? ==> r.createdAt < c.createdAt || (r.createdAt == c.createdAt && r.id < c.id))) ==>
                page.next.Some? && forall q :: q in page.links ==>
                  r.createdAt < q.createdAt || (r.createdAt == q.createdAt && r.id < q.id)
  {
    ListingInPlainTerms(table, f, c);
    var rows := Listing(table, f, c);
    hide Listing;
    assert rows == rows[..if |rows| <= limit then |rows| else limit] + rows[if |rows| <= limit then |rows| else limit..];
  }

  // ---- a fixed table ----

  // Resuming from a row of the listing gives what comes after it.
  lemma ResumeIsSuffix(table: Table, f: Filter, c: Cursor, k: nat)
    requires UniqueIds(table) && !c.Garbage? && 0 < k <= |Listing(table, f, c)|
    ensures var rows := Listing(table, f, c);
            Listing(table, f, Below(rows[k - 1].createdAt, rows[k - 1].id)) == rows[k..]
  {
    hide Listing, InScope;
    var rows := Listing(table, f, c);
    var last := rows[k - 1];
    var next := Below(last.createdAt, last.id);
    ListingMeaning(table, f, c);
    ListingMeaning(table, f, next);
    assert last in rows;
    forall r ensures r in Listing(table, f, next) <==> r in rows[k..] {
      if r in rows[k..] {
        var j :| k <= j < |rows| && rows[j] == r;
        assert r in rows && Older(r, last);
      }
      if r in Listing(table, f, next) {
        assert r in rows;
        var j :| 0 <= j < |rows| && rows[j] == r;
        assert Older(r, last);
        assert j < k - 1 ==> Older(last, r);
        assert r == rows[k..][j - k];
      }
    }
    SameListing(Listing(table, f, next), rows[k..]);
  }

  // All the pages, each call resuming from the cursor the last one returned. There are finitely many:
  // every page leaves fewer rows past the cursor.
  ghost function AllPages(table: Table, f: Filter, c: Cursor, limit: nat): (pages: seq<Page>)
    requires UniqueIds(table) && !c.Garbage? && limit >= 1
    decreases |Listing(table, f, c)|
  {
    var rows := Listing(table, f, c);
    var page := PageOf(rows, limit);
    if page.next.None? then [page]
    else
      ResumeIsSuffix(table, f, c, limit);
      [page] + AllPages(table, f, page.next.value, limit)
  }

  function LinksOf(pages: seq<Page>): seq<Row> {
    if pages == [] then [] else pages[0].links + LinksOf(pages[1..])
  }

  // On a table that does not change the pages, put together, are the whole listing.
  lemma {:induction false} PagesAreTheListing(table: Table, f: Filter, c: Cursor, limit: nat)
    requires UniqueIds(table) && !c.Garbage? && limit >= 1
    ensures LinksOf(AllPages(table, f, c, limit)) == Listing(table, f, c)
    decreases |Listing(table, f, c)|
  {
    hide Listing;
    var rows := Listing(table, f, c);
    var page := PageOf(rows, limit);
    if page.next.None? {
      assert LinksOf([page]) == page.links + LinksOf([page][1..]);
    } else {
      ResumeIsSuffix(table, f, c, limit);
      var rest := AllPages(table, f, page.next.value, limit);
      PagesAreTheListing(table, f, page.next.value, limit);
      assert ([page] + rest)[1..] == rest;
      assert rows == rows[..limit] + rows[limit..];
    }
  }

  // No page but the last is short, so no call is wasted.
  lemma {:induction false} PageCount(table: Table, f: Filter, c: Cursor, limit: nat)
    requires UniqueIds(table) && !c.Garbage? && limit >= 1
    ensures var pages := AllPages(table, f, c, limit);
            && pages != []
            && |Listing(table, f, c)| == (|pages| - 1) * limit + |pages[|pages| - 1].links|
            && (|pages| > 1 ==> pages[|pages| - 1].links != [])
    decreases |Listing(table, f, c)|
  {
    hide Listing;
    var rows := Listing(table, f, c);
    var page := PageOf(rows, limit);
    if page.next.Some? {
      ResumeIsSuffix(table, f, c, limit);
      var rest := AllPages(table, f, page.next.value, limit);
      PageCount(table, f, page.next.value, limit);
      OneMore(|rest|, limit);
    }
  }

  lemma OneMore(n: nat, limit: nat)
    ensures n * limit == (n - 1) * limit + limit
  {
  }

  // ---- a table that changes between the calls ----

  // Links may be added and each link may be edited or soft-deleted, never undeleted; who owns a
  // link and when it was created stay.
  ghost predicate Evolves(t: Table, u: Table) {
    && UniqueIds(t) && UniqueIds(u) && |t| <= |u|
    && forall i :: 0 <= i < |t| ==> SameLink(t[i], u[i])
  }

  predicate SameLink(r: Row, s: Row) {
    && s.id == r.id && s.shortCode == r.shortCode && s.ownerId == r.ownerId && s.createdAt == r.createdAt
    && (r.deleted ==> s.deleted)
  }

  lemma EvolvesTransitive(t: Table, u: Table, v: Table)
    requires Evolves(t, u) && Evolves(u, v)
    ensures Evolves(t, v)
  {
  }

  // A caller pages through: call i sees tables[i], asks for limits[i] rows and sends the cursor
  // call i - 1 returned.
  ghost predicate IsSession(f: Filter, tables: seq<Table>, limits: seq<nat>, pages: seq<Page>) {
    && |tables| == |limits| == |pages| > 0
    && (forall i :: 0 <= i < |tables| ==> UniqueIds(tables[i]) && limits[i] >= 1)
    && (forall i, j :: 0 <= i && j == i + 1 < |tables| ==> Evolves(tables[i], tables[j]))
    && (forall i :: 0 <= i < |pages| - 1 ==> pages[i].next.Some?)
    && (forall i :: 0 <= i < |pages| ==> pages[i] == PageOf(Listing(tables[i], f, CursorAt(pages, i)), limits[i]))
  }

  function CursorAt(pages: seq<Page>, i: nat): Cursor
    requires i <= |pages|
  {
    if i == 0 || pages[i - 1].next.None? then Start else pages[i - 1].next.value
  }

  ghost predicate Lists(page: Page, id: RowId) {
    exists r :: r in page.links && r.id == id
  }

  // A page lists rows of its table that are past its cursor and not past the next one; what is past
  // the cursor and not on the page is past the next cursor.
  lemma PageMeaning(table: Table, f: Filter, c: Cursor, limit: nat, r: Row)
    requires UniqueIds(table) && limit >= 1 && !c.Garbage?
    ensures var page := PageOf(Listing(table, f, c), limit);
            && (r in page.links ==> r in table && Selected(r, f, c))
            && (page.next.Some? ==> page.next.value.Below?
                                    && (r in page.links ==> !PastCursor(r, page.next.value)))
            && (r in table && Selected(r, f, c) && r !in page.links ==> page.next.Some? && PastCursor(r, page.next.value))
            && (page.next.Some? ==> exists l :: l in table && Selected(l, f, c)
                                                && l.createdAt == page.next.value.createdAt && l.id == page.next.value.id)
  {
    hide Listing, InScope;
    var rows := Listing(table, f, c);
    ListingMeaning(table, f, c);
    var page := PageOf(rows, limit);
    if page.next.Some? {
      var l := rows[limit - 1];
      assert l in rows;
      if r in page.links {
        var j :| 0 <= j < limit && rows[j] == r;
        assert j < limit - 1 ==> Older(l, r);
      }
      if r in rows && r !in page.links {
        assert rows == page.links + rows[limit..];
        var tail := rows[limit..];
        var j :| 0 <= j < |tail| && tail[j] == r;
        assert Older(rows[limit + j], l);
      }
    }
  }

  lemma {:induction false} TablesEvolve(f: Filter, tables: seq<Table>, limits: seq<nat>, pages: seq<Page>, i: nat, j: nat)
    requires IsSession(f, tables, limits, pages) && i <= j < |tables|
    ensures Evolves(tables[i], tables[j])
    decreases j
  {
    hide Evolves, PageOf, Listing;
    if i == j {
      assert Evolves(tables[i], tables[i]) by { Unchanged(tables[i]); }
    } else {
      TablesEvolve(f, tables, limits, pages, i, j - 1);
      EvolvesTransitive(tables[i], tables[j - 1], tables[j]);
    }
  }

  lemma Unchanged(t: Table)
    requires UniqueIds(t)
    ensures Evolves(t, t)
  {
  }

  // What is past a later cursor is past every earlier one.
  lemma {:induction false} CursorsMoveOn(
      f: Filter, tables: seq<Table>, limits: seq<nat>, pages: seq<Page>, i: nat, j: nat, r: Row)
    requires IsSession(f, tables, limits, pages) && i <= j <= |pages|
    requires forall k :: 0 <= k < j ==> pages[k].next.Some?
    requires PastCursor(r, CursorAt(pages, j))
    ensures PastCursor(r, CursorAt(pages, i)) && !CursorAt(pages, i).Garbage?
    decreases j
  {
    hide Listing, Evolves, InScope, PageOf;
    if j > 0 {
      var c := CursorAt(pages, j - 1);
      assert c.Garbage? ==> j > 1;
      if j > 1 {
        CursorsAreGood(f, tables, limits, pages, j - 1);
      }
      PageMeaning(tables[j - 1], f, c, limits[j - 1], r);
      assert PastCursor(r, c);
      CursorsMoveOn(f, tables, limits, pages, if i < j then i else j - 1, j - 1, r);
    }
    if i == j {
      CursorsAreGood(f, tables, limits, pages, j);
    }
  }

  lemma {:induction false} CursorsAreGood(f: Filter, tables: seq<Table>, limits: seq<nat>, pages: seq<Page>, i: nat)
    requires IsSession(f, tables, limits, pages) && i <= |pages|
    ensures !CursorAt(pages, i).Garbage?
  {
    hide Listing, Evolves;
  }

  // Over a whole session no link is listed twice, whatever happened between the calls.
  lemma NothingListedTwice(
      f: Filter, tables: seq<Table>, limits: seq<nat>, pages: seq<Page>, i: nat, k: nat, j: nat, l: nat)
    requires IsSession(f, tables, limits, pages)
    requires i <= j < |pages| && k < |pages[i].links| && l < |pages[j].links|
    requires pages[i].links[k].id == pages[j].links[l].id
    ensures i == j && k == l
  {
    if i == j {
      hide Listing, InScope, Evolves;
      var rows := Listing(tables[i], f, CursorAt(pages, i));
      assert pages[i].links <= rows;
      hide IsSession, PageOf;
      OnceInListing(tables[i], f, CursorAt(pages, i), k, l);
    } else {
      LaterPageDiffers(f, tables, limits, pages, i, k, j, l);
    }
  }

  lemma OnceInListing(table: Table, f: Filter, c: Cursor, k: nat, l: nat)
    requires UniqueIds(table)
    requires var rows := Listing(table, f, c); k < |rows| && l < |rows| && rows[k].id == rows[l].id
    ensures k == l
  {
    hide Listing, InScope;
    var rows := Listing(table, f, c);
    ListingMeaning(table, f, c);
    assert rows[k] in rows && rows[l] in rows;
    assert k < l ==> Older(rows[l], rows[k]);
    assert l < k ==> Older(rows[k], rows[l]);
    SameRow(table, table, rows[k], rows[l]) by { Unchanged(table); }
  }

  lemma LaterPageDiffers(
      f: Filter, tables: seq<Table>, limits: seq<nat>, pages: seq<Page>, i: nat, k: nat, j: nat, l: nat)
    requires IsSession(f, tables, limits, pages)
    requires i < j < |pages| && k < |pages[i].links| && l < |pages[j].links|
    ensures pages[i].links[k].id != pages[j].links[l].id
  {
    hide Listing, PageOf, Evolves, InScope, PastCursor, Selected;
    var a, b := pages[i].links[k], pages[j].links[l];
    var c, d := CursorAt(pages, i), CursorAt(pages, j);
    CursorsAreGood(f, tables, limits, pages, i);
    CursorsAreGood(f, tables, limits, pages, j);
    assert a in pages[i].links && b in pages[j].links;
    PageMeaning(tables[i], f, c, limits[i], a);
    PageMeaning(tables[j], f, d, limits[j], b);
    SelectedPast(b, f, d);
    CursorsMoveOn(f, tables, limits, pages, i + 1, j, b);
    if a.id == b.id {
      TablesEvolve(f, tables, limits, pages, i, j);
      SameRow(tables[i], tables[j], a, b);
      SamePast(a, b, CursorAt(pages, i + 1));
    }
  }

  lemma SelectedPast(r: Row, f: Filter, c: Cursor)
    requires Selected(r, f, c)
    ensures PastCursor(r, c)
  {
  }

  lemma SamePast(a: Row, b: Row, c: Cursor)
    requires SameLink(a, b)
    ensures PastCursor(a, c) <==> PastCursor(b, c)
  {
  }

  lemma SameRow(t: Table, u: Table, a: Row, b: Row)
    requires Evolves(t, u) && a in t && b in u && a.id == b.id
    ensures SameLink(a, b)
  {
    var p :| 0 <= p < |t| && t[p] == a;
    assert SameLink(t[p], u[p]);
  }

  // Every link in scope that was there when the session began and is not deleted when it ends has
  // been listed once the last page has come.
  lemma EverythingListed(f: Filter, tables: seq<Table>, limits: seq<nat>, pages: seq<Page>, p: nat)
    requires IsSession(f, tables, limits, pages) && pages[|pages| - 1].next.None?
    requires p < |tables[0]| && InScope(tables[0][p], f)
    requires forall i :: 0 <= i < |tables| && p < |tables[i]| ==> !tables[i][p].deleted
    ensures exists i :: 0 <= i < |pages| && Lists(pages[i], tables[0][p].id)
  {
    ListedOrAhead(f, tables, limits, pages, p, |pages|);
  }

  lemma {:induction false} ListedOrAhead(f: Filter, tables: seq<Table>, limits: seq<nat>, pages: seq<Page>, p: nat, n: nat)
    requires IsSession(f, tables, limits, pages) && n <= |pages|
    requires p < |tables[0]| && InScope(tables[0][p], f)
    requires forall i :: 0 <= i < |tables| && p < |tables[i]| ==> !tables[i][p].deleted
    ensures (exists i :: 0 <= i < n && Lists(pages[i], tables[0][p].id))
         || (PastCursor(tables[0][p], CursorAt(pages, n)) && (n > 0 ==> pages[n - 1].next.Some?))
  {
    hide Listing, PageOf, Evolves, InScope;
    if n > 0 {
      ListedOrAhead(f, tables, limits, pages, p, n - 1);
      if PastCursor(tables[0][p], CursorAt(pages, n - 1)) {
        ListedOrPassed(f, tables, limits, pages, p, n - 1);
      }
    }
  }

  // A call that has the link ahead lists it, or leaves it ahead of the next.
  lemma ListedOrPassed(f: Filter, tables: seq<Table>, limits: seq<nat>, pages: seq<Page>, p: nat, i: nat)
    requires IsSession(f, tables, limits, pages) && i < |pages|
    requires p < |tables[0]| && InScope(tables[0][p], f) && PastCursor(tables[0][p], CursorAt(pages, i))
    requires p < |tables[i]| ==> !tables[i][p].deleted
    ensures Lists(pages[i], tables[0][p].id) || (pages[i].next.Some? && PastCursor(tables[0][p], CursorAt(pages, i + 1)))
  {
    hide Listing, PageOf, Evolves;
    TablesEvolve(f, tables, limits, pages, 0, i);
    CursorsAreGood(f, tables, limits, pages, i);
    RowStays(tables[0], tables[i], p);
    var r := tables[i][p];
    PageMeaning(tables[i], f, CursorAt(pages, i), limits[i], r);
    assert r in tables[i];
    if r in pages[i].links {
      assert Lists(pages[i], tables[0][p].id);
    }
  }

  lemma RowStays(t: Table, u: Table, p: nat)
    requires Evolves(t, u) && p < |t|
    ensures p < |u| && SameLink(t[p], u[p])
  {
  }
}
