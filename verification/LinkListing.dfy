// The repository and service calls behind a link listing (internal/repository/link.go,
// internal/service/link.go).
module LinkListing {
  import opened Util
  import opened Links
  import opened Pagination

  const DEFAULT_OWNER: string := "system"
  const DEFAULT_PAGE_SIZE: nat := 20
  const MAX_PAGE_SIZE: nat := 100

  // The status of a link, computed when it is listed.
  function Status(r: Row, now: int): string {
    if r.deleted then "deleted"
    else if !r.enabled then "disabled"
    else if IsExpired(r.expiresAt, now) then "expired"
    else "active"
  }

  // The rows a status filter keeps; "" keeps all.
  function WithStatus(rows: seq<Row>, status: string, now: int): seq<Row> {
    if status == "" then rows
    else if rows == [] then []
    else
      WithStatus(rows[..|rows| - 1], status, now)
      + (if Status(rows[|rows| - 1], now) == status then [rows[|rows| - 1]] else [])
  }

  // The statuses in plain terms, and that the filter keeps the rows of one status, in their order.
  lemma {:induction false} WithStatusKeeps(rows: seq<Row>, status: string, now: int, r: Row)
    ensures r in WithStatus(rows, status, now)
       <==> && r in rows
            && (|| status == ""
                || (status == "deleted" && r.deleted)
                || (status == "disabled" && !r.deleted && !r.enabled)
                || (status == "expired" && !r.deleted && r.enabled && r.expiresAt.Some? && now > r.expiresAt.value)
                || (status == "active" && !r.deleted && r.enabled && (r.expiresAt.None? || now <= r.expiresAt.value)))
  {
    StatusIs(r, now);
    if rows != [] && status != "" {
      var init, last := rows[..|rows| - 1], rows[|rows| - 1];
      WithStatusKeeps(init, status, now, r);
      assert rows == init + [last];
      hide Status;
    }
  }

  lemma StatusIs(r: Row, now: int)
    ensures Status(r, now) != ""
    ensures Status(r, now) == "deleted" <==> r.deleted
    ensures Status(r, now) == "disabled" <==> !r.deleted && !r.enabled
    ensures Status(r, now) == "expired" <==> !r.deleted && r.enabled && r.expiresAt.Some? && now > r.expiresAt.value
    ensures Status(r, now) == "active" <==> !r.deleted && r.enabled && (r.expiresAt.None? || now <= r.expiresAt.value)
    ensures Status(r, now) in {"deleted", "disabled", "expired", "active"}
  {
    assert "deleted"[0] == 'd' && "disabled"[1] == 'i' && "deleted"[1] == 'e';
    assert "expired"[0] == 'e' && "active"[0] == 'a' && "disabled"[0] == 'd';
  }

  lemma {:induction false} WithStatusConcat(a: seq<Row>, b: seq<Row>, status: string, now: int)
    ensures WithStatus(a + b, status, now) == WithStatus(a, status, now) + WithStatus(b, status, now)
  {
    hide Status;
    if b == [] {
      assert a + b == a;
    } else if status != "" {
      var n := |b| - 1;
      WithStatusConcat(a, b[..n], status, now);
      assert (a + b)[..|a + b| - 1] == a + b[..n];
    }
  }

  function OwnerOf(ownerId: string): string {
    if ownerId == "" then DEFAULT_OWNER else ownerId
  }

  function PageSize(limit: int): (n: nat)
    ensures 1 <= n <= MAX_PAGE_SIZE
  {
    if limit <= 0 || limit > MAX_PAGE_SIZE then DEFAULT_PAGE_SIZE else limit
  }

  datatype Output = Output(links: seq<Row>, next: Option<Cursor>, hasMore: bool)

  function OutputOf(page: Page, status: string, now: int): Output {
    Output(WithStatus(page.links, status, now), page.next, page.next.Some?)
  }

  function Listed(pages: seq<Page>, status: string, now: int): seq<Row> {
    if pages == [] then [] else OutputOf(pages[0], status, now).links + Listed(pages[1..], status, now)
  }

  lemma {:induction false} ListedIsFiltered(pages: seq<Page>, status: string, now: int)
    ensures Listed(pages, status, now) == WithStatus(LinksOf(pages), status, now)
  {
    hide Status;
    if pages != [] {
      ListedIsFiltered(pages[1..], status, now);
      WithStatusConcat(pages[0].links, LinksOf(pages[1..]), status, now);
    }
  }

  // On a fixed table and at a fixed time, filtering every page by status and putting the pages
  // together is the same as filtering the whole listing.
  lemma StatusPagesAreTheFilteredListing(table: Table, f: Filter, limit: int, status: string, now: int)
    requires UniqueIds(table)
    ensures Listed(AllPages(table, f, Start, PageSize(limit)), status, now) == WithStatus(Listing(table, f, Start), status, now)
  {
    PagesAreTheListing(table, f, Start, PageSize(limit));
    ListedIsFiltered(AllPages(table, f, Start, PageSize(limit)), status, now);
  }

  class LinkRepository {
    var table: Table

    // Primary keys are unique, short codes among the links that are not deleted.
    ghost predicate Valid() reads this {
      && UniqueIds(table)
      && forall i, j :: 0 <= i < j < |table| && !table[i].deleted && !table[j].deleted ==> table[i].shortCode != table[j].shortCode
    }

    constructor ()
      ensures Valid() && table == []
    {
      table := [];
    }

    method Find(id: RowId) returns (at: Option<nat>)
      ensures at.Some? ==> at.value < |table| && table[at.value].id == id && !table[at.value].deleted
      ensures at.None? ==> forall r :: r in table && r.id == id ==> r.deleted
    {
      for i := 0 to |table|
        invariant forall j :: 0 <= j < i && table[j].id == id ==> table[j].deleted
      {
        if table[i].id == id && !table[i].deleted {
          return Some(i);
        }
      }
      return None;
    }

    method CreateLink(r: Row) returns (ok: bool)
      requires Valid() && !r.deleted
      modifies this
      ensures Valid() && Evolves(old(table), table)
      ensures ok <==> forall q :: q in old(table) ==> q.id != r.id && (q.deleted || q.shortCode != r.shortCode)
      ensures table == if ok then old(table) + [r] else old(table)
    {
      ok := true;
      for i := 0 to |table|
        invariant ok <==> forall j :: 0 <= j < i ==> table[j].id != r.id && (table[j].deleted || table[j].shortCode != r.shortCode)
      {
        if table[i].id == r.id || (!table[i].deleted && table[i].shortCode == r.shortCode) {
          ok := false;
        }
      }
      if ok {
        table := table + [r];
      }
    }

    method UpdateLink(id: RowId, destination: string, redirectType: RedirectType, enabled: bool, expiresAt: Option<int>) returns (ok: bool)
      requires Valid()
      modifies this
      ensures Valid() && Evolves(old(table), table)
      ensures ok <==> exists r :: r in old(table) && r.id == id && !r.deleted
      ensures !ok ==> table == old(table)
      ensures ok ==> |table| == |old(table)| && forall i :: 0 <= i < |table| ==>
                table[i] == if old(table)[i].id != id then old(table)[i]
                            else old(table)[i].(destination := destination, redirectType := redirectType,
                                                enabled := enabled, expiresAt := expiresAt)
    {
      var at := Find(id);
      ok := at.Some?;
      if ok {
        table := table[at.value := table[at.value].(
                         destination := destination, redirectType := redirectType, enabled := enabled, expiresAt := expiresAt)];
      }
    }

    method DeleteLink(id: RowId) returns (ok: bool)
      requires Valid()
      modifies this
      ensures Valid() && Evolves(old(table), table)
      ensures ok <==> exists r :: r in old(table) && r.id == id && !r.deleted
      ensures !ok ==> table == old(table)
      ensures ok ==> |table| == |old(table)| && forall i :: 0 <= i < |table| ==>
                table[i] == if old(table)[i].id == id then old(table)[i].(deleted := true) else old(table)[i]
    {
      var at := Find(id);
      ok := at.Some?;
      if ok {
        table := table[at.value := table[at.value].(deleted := true)];
      }
    }

    // One row more than asked for is fetched, to see whether there is a next page.
    method ListLinks(f: Filter, c: Cursor, limit: nat) returns (r: Pagination.Result<Page>)
      requires limit >= 1
      ensures r == if c.Garbage? then InvalidCursor else Ok(PageOf(Listing(table, f, c), limit))
      ensures Valid() && r.Ok? ==>
                var links := r.value.links;
                && |links| <= limit
                && (forall i, j :: 0 <= i < j < |links| ==>
                      links[i].createdAt > links[j].createdAt
                      || (links[i].createdAt == links[j].createdAt && links[i].id > links[j].id))
                && (forall l :: l in links ==>
                      l in table && !l.deleted && l.ownerId == f.ownerId
                      && (c.Below? ==> l.createdAt < c.createdAt || (l.createdAt == c.createdAt && l.id < c.id)))
    {
      if Valid() {
        PageInPlainTerms(table, f, c, limit);
      }
      hide Listing;
      if c.Garbage? {
        return InvalidCursor;
      }
      var selected := Listing(table, f, c);
      var links: seq<Row> := [];
      for i := 0 to if |selected| < limit + 1 then |selected| else limit + 1
        invariant links == selected[..i]
      {
        links := links + [selected[i]];
      }
      var next: Option<Cursor> := None;
      assert |links| <= limit ==> links == selected;
      if |links| > limit {
        links := links[..limit];
        assert links == selected[..limit];
        var last := links[|links| - 1];
        next := Some(Below(last.createdAt, last.id));
      }
      return Ok(Page(links, next));
    }
  }

  datatype Input = Input(
    ownerId: string, cursor: Cursor, limit: int, status: string, createdAfter: Option<int>, createdBefore: Option<int>)

  function FilterOf(input: Input): Filter {
    Filter(OwnerOf(input.ownerId), input.createdAfter, input.createdBefore)
  }

  // What the service lists, in plain terms.
  lemma OutputInPlainTerms(table: Table, input: Input, now: int)
    requires UniqueIds(table)
    ensures var out := OutputOf(PageOf(Listing(table, FilterOf(input), input.cursor), PageSize(input.limit)), input.status, now);
            && (out.hasMore <==> out.next.Some?)
            && forall l :: l in out.links ==>
                 && !l.deleted && l.ownerId == (if input.ownerId == "" then "system" else input.ownerId)
                 && (input.status == "disabled" ==> !l.enabled)
                 && (input.status == "expired" ==> l.enabled && l.expiresAt.Some? && now > l.expiresAt.value)
                 && (input.status == "active" ==> l.enabled && (l.expiresAt.None? || now <= l.expiresAt.value))
  {
    var f := FilterOf(input);
    PageInPlainTerms(table, f, input.cursor, PageSize(input.limit));
    var page := PageOf(Listing(table, f, input.cursor), PageSize(input.limit));
    var links := WithStatus(page.links, input.status, now);
    assert "disabled"[0] != "expired"[0] && "active"[0] != "disabled"[0] && "deleted"[1] != "disabled"[1];
    hide Listing, WithStatus, PageOf;
    forall l | l in links
      ensures && !l.deleted && l.ownerId == f.ownerId
              && (input.status == "disabled" ==> !l.enabled)
              && (input.status == "expired" ==> l.enabled && l.expiresAt.Some? && now > l.expiresAt.value)
              && (input.status == "active" ==> l.enabled && (l.expiresAt.None? || now <= l.expiresAt.value))
    {
      WithStatusKeeps(page.links, input.status, now, l);
    }
  }

  lemma PageSizeBound(table: Table, input: Input)
    ensures |PageOf(Listing(table, FilterOf(input), input.cursor), PageSize(input.limit)).links|
         <= if 1 <= input.limit <= 100 then input.limit else 20
  {
    hide Listing;
  }

  method ListLinks(repo: LinkRepository, input: Input, now: int) returns (r: Pagination.Result<Output>)
    ensures r == if input.cursor.Garbage? then InvalidCursor
                 else Ok(OutputOf(PageOf(Listing(repo.table, FilterOf(input), input.cursor), PageSize(input.limit)), input.status, now))
    ensures repo.Valid() && r.Ok? ==>
              && (r.value.hasMore <==> r.value.next.Some?)
              && forall l :: l in r.value.links ==>
                   && !l.deleted && l.ownerId == (if input.ownerId == "" then "system" else input.ownerId)
                   && (input.status == "disabled" ==> !l.enabled)
                   && (input.status == "expired" ==> l.enabled && l.expiresAt.Some? && now > l.expiresAt.value)
                   && (input.status == "active" ==> l.enabled && (l.expiresAt.None? || now <= l.expiresAt.value))
    ensures input.status == "" && r.Ok? ==> |r.value.links| <= if 1 <= input.limit <= 100 then input.limit else 20
  {
    if repo.Valid() {
      OutputInPlainTerms(repo.table, input, now);
    }
    PageSizeBound(repo.table, input);
    hide Listing, PageOf, Status, WithStatus, UniqueIds;
    var limit := input.limit;
    if limit <= 0 || limit > MAX_PAGE_SIZE {
      limit := DEFAULT_PAGE_SIZE;
    }
    var ownerId := input.ownerId;
    if ownerId == "" {
      ownerId := DEFAULT_OWNER;
    }
    var page := repo.ListLinks(Filter(ownerId, input.createdAfter, input.createdBefore), input.cursor, limit);
    if page.InvalidCursor? {
      return InvalidCursor;
    }
    var links := FilterByStatus(page.value.links, input.status, now);
    return Ok(Output(links, page.value.next, page.value.next.Some?));
  }

  // The filter on the computed status; "" stands for none.
  method FilterByStatus(links: seq<Row>, status: string, now: int) returns (filtered: seq<Row>)
    ensures filtered == WithStatus(links, status, now)
  {
    hide Status;
    if status == "" {
      return links;
    }
    filtered := [];
    for i := 0 to |links|
      invariant filtered == WithStatus(links[..i], status, now)
    {
      assert links[..i + 1][..i] == links[..i];
      if Status(links[i], now) == status {
        filtered := filtered + [links[i]];
      }
    }
    assert links[..|links|] == links;
  }
}
