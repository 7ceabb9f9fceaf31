/** Whole walks: following `next_cursor` from the first page, over a table that may change
    between the fetches. Pages served from the cache form such walks too: see `CachedListing`. */
module CatalogWalk {
  import opened Prelude
  import opened Sql
  import opened CatalogTypes
  import opened Cursor
  import opened CatalogBuilder
  import opened Catalog
  import opened CatalogHandler
  import opened KeysetPaging

  /** The request for page `i`: the first without a cursor, the others with the token the page
      before returned. */
  function RequestFor(q: CatalogQuery, pages: seq<CursorPage>, i: nat): CatalogQuery
    requires i <= |pages|
  {
    q.(cursor := if i == 0 then None else pages[i - 1].next)
  }

  ghost predicate Served(codec: JsonCodec, table: seq<Row>, q: CatalogQuery, pages: seq<CursorPage>, i: nat)
    requires i < |pages|
  {
    Keyed(table) && Serve(codec, Some(table), RequestFor(q, pages, i)) == Ok(pages[i])
  }

  /** `pages[i]` was read from `tables[i]`; every page but perhaps the last named a next one. */
  ghost predicate IsWalk(codec: JsonCodec, tables: seq<seq<Row>>, q: CatalogQuery, pages: seq<CursorPage>) {
    && |pages| == |tables| && |pages| > 0
    && (forall i :: 0 <= i < |pages| ==> Served(codec, tables[i], q, pages, i))
    && (forall i :: 0 <= i < |pages| - 1 ==> pages[i].next.Some?)
  }

  predicate Ended(pages: seq<CursorPage>) {
    pages != [] && pages[|pages| - 1].next.None?
  }

  /** The cursor page `i` was fetched with. */
  function CursorAt(q: CatalogQuery, pages: seq<CursorPage>, i: nat): Option<CatalogCursor>
    requires i <= |pages|
  {
    if i == 0 || pages[i - 1].rows == [] then None
    else Some(CursorFor(pages[i - 1].rows[|pages[i - 1].rows| - 1], q.sort, q.dir))
  }

  lemma NextNamesTheLastRow(codec: JsonCodec, table: seq<Row>, q: CatalogQuery, pages: seq<CursorPage>, i: nat)
    requires codec.Exact() && i < |pages| && Served(codec, table, q, pages, i) && pages[i].next.Some?
    ensures CursorAt(q, pages, i + 1).Some?
    ensures DecodeCursor(codec, RequestFor(q, pages, i + 1)) == Ok(CursorAt(q, pages, i + 1))
  {
    var last := pages[i].rows[|pages[i].rows| - 1];
    CursorRoundTrip(codec, CursorFor(last, q.sort, q.dir));
  }

  /** What a page of a walk holds, the token layer read away. */
  ghost predicate Holds(table: seq<Row>, q: CatalogQuery, page: CursorPage, cursor: Option<CatalogCursor>) {
    var rest := Remaining(table, ParamsOf(q, cursor));
    && page.rows == Take(q.limit, rest)
    && (page.next.Some? <==> |rest| > q.limit && page.rows != [])
  }

  lemma ServedPageHolds(codec: JsonCodec, table: seq<Row>, q: CatalogQuery, request: CatalogQuery, page: CursorPage,
        cursor: Option<CatalogCursor>)
    requires request == q.(cursor := request.cursor)
    requires DecodeCursor(codec, request) == Ok(cursor) && Serve(codec, Some(table), request) == Ok(page)
    ensures Holds(table, q, page, cursor)
  {
    assert ParamsOf(request, cursor) == ParamsOf(q, cursor);
  }

  /** Page `i` of a walk, the codec out of sight. */
  ghost predicate Reads(tables: seq<seq<Row>>, q: CatalogQuery, pages: seq<CursorPage>, i: nat)
    requires i < |pages| == |tables|
  {
    && Keyed(tables[i])
    && Holds(tables[i], q, pages[i], CursorAt(q, pages, i))
    && (i > 0 ==> CursorAt(q, pages, i).Some? && pages[i - 1].next.Some?)
  }

  ghost predicate IsReading(tables: seq<seq<Row>>, q: CatalogQuery, pages: seq<CursorPage>) {
    && |pages| == |tables| && |pages| > 0
    && (forall i :: 0 <= i < |pages| ==> Reads(tables, q, pages, i))
  }

  /** The token of the page before is decoded back to the cursor it was made from. */
  lemma RequestDecodes(codec: JsonCodec, tables: seq<seq<Row>>, q: CatalogQuery, pages: seq<CursorPage>, i: nat)
    requires codec.Exact() && i < |pages| == |tables|
    requires i > 0 ==> Served(codec, tables[i - 1], q, pages, i - 1) && pages[i - 1].next.Some?
    ensures DecodeCursor(codec, RequestFor(q, pages, i)) == Ok(CursorAt(q, pages, i))
    ensures i > 0 ==> CursorAt(q, pages, i).Some?
  {
    if i > 0 {
      NextNamesTheLastRow(codec, tables[i - 1], q, pages, i - 1);
    }
  }

  lemma ServedReads(codec: JsonCodec, tables: seq<seq<Row>>, q: CatalogQuery, pages: seq<CursorPage>, i: nat)
    requires codec.Exact() && i < |pages| == |tables| && Served(codec, tables[i], q, pages, i)
    requires i > 0 ==> Served(codec, tables[i - 1], q, pages, i - 1) && pages[i - 1].next.Some?
    ensures Reads(tables, q, pages, i)
  {
    RequestDecodes(codec, tables, q, pages, i);
    ServedPageHolds(codec, tables[i], q, RequestFor(q, pages, i), pages[i], CursorAt(q, pages, i));
  }

  lemma WalkIsReading(codec: JsonCodec, tables: seq<seq<Row>>, q: CatalogQuery, pages: seq<CursorPage>)
    requires codec.Exact() && IsWalk(codec, tables, q, pages)
    ensures IsReading(tables, q, pages)
  {
    forall i | 0 <= i < |pages| ensures Reads(tables, q, pages, i) {
      assert Served(codec, tables[i], q, pages, i);
      if i > 0 {
        assert Served(codec, tables[i - 1], q, pages, i - 1);
      }
      ServedReads(codec, tables, q, pages, i);
    }
  }

  /** What the last page's token is answered with, by any table and by a database that does not answer. */
  lemma NextAnswer(codec: JsonCodec, previous: seq<Row>, q: CatalogQuery, pages: seq<CursorPage>, db: Option<seq<Row>>)
    requires codec.Exact() && pages != [] && Served(codec, previous, q, pages, |pages| - 1) && !Ended(pages)
    ensures
      var answer := Serve(codec, db, RequestFor(q, pages, |pages|));
      && (answer.Ok? <==> db.Some? && Nullable(q.sort))
      && (answer.Err? ==> answer == Err(InternalServerError))
  {
    NextNamesTheLastRow(codec, previous, q, pages, |pages| - 1);
    var last := pages[|pages| - 1].rows[|pages[|pages| - 1].rows| - 1];
    ContinuationRunsIff(last, q.sort, q.dir);
    ServedIff(codec, db, RequestFor(q, pages, |pages|), CursorAt(q, pages, |pages|));
  }

  lemma ServedInLongerWalk(codec: JsonCodec, table: seq<Row>, q: CatalogQuery, pages: seq<CursorPage>,
        page: CursorPage, i: nat)
    requires i < |pages| && Served(codec, table, q, pages, i)
    ensures Served(codec, table, q, pages + [page], i)
  {
    assert RequestFor(q, pages + [page], i) == RequestFor(q, pages, i);
  }

  lemma TokensGrow(pages: seq<CursorPage>, page: CursorPage)
    requires pages != [] && !Ended(pages)
    requires forall i :: 0 <= i < |pages| - 1 ==> pages[i].next.Some?
    ensures forall i :: 0 <= i < |pages + [page]| - 1 ==> (pages + [page])[i].next.Some?
  {
  }

  lemma WalkGrows(
      codec: JsonCodec, tables: seq<seq<Row>>, q: CatalogQuery, pages: seq<CursorPage>, table: seq<Row>,
      page: CursorPage)
    requires |pages| == |tables| > 0 && !Ended(pages)
    requires forall i :: 0 <= i < |pages| - 1 ==> pages[i].next.Some?
    requires forall i :: 0 <= i < |pages| ==> Served(codec, tables[i], q, pages + [page], i)
    requires Served(codec, table, q, pages + [page], |pages|)
    ensures IsWalk(codec, tables + [table], q, pages + [page])
  {
    TokensGrow(pages, page);
    var longer := tables + [table];
    forall i | 0 <= i < |pages + [page]| ensures Served(codec, longer[i], q, pages + [page], i) {
      assert longer[i] == if i < |pages| then tables[i] else table;
    }
  }

  /** A next token is served, whatever the table has become, if and only if the sort column may be NULL;
      in name and diameter order it is answered with 500. */
  lemma NextTokenIsServedIff(codec: JsonCodec, tables: seq<seq<Row>>, q: CatalogQuery, pages: seq<CursorPage>,
        table: seq<Row>)
    requires codec.Exact() && IsWalk(codec, tables, q, pages) && !Ended(pages) && Keyed(table)
    ensures Nullable(q.sort) <==> exists page :: IsWalk(codec, tables + [table], q, pages + [page])
    ensures !Nullable(q.sort) ==> Serve(codec, Some(table), RequestFor(q, pages, |pages|)) == Err(InternalServerError)
  {
    var n := |pages|;
    assert Served(codec, tables[n - 1], q, pages, n - 1);
    NextAnswer(codec, tables[n - 1], q, pages, Some(table));
    if Nullable(q.sort) {
      var page := NextTokenExtends(codec, tables, q, pages, table);
    } else {
      forall page ensures !IsWalk(codec, tables + [table], q, pages + [page]) {
        RefusedTokenEnds(codec, tables, q, pages, table, page);
      }
    }
  }

  lemma NextTokenExtends(codec: JsonCodec, tables: seq<seq<Row>>, q: CatalogQuery, pages: seq<CursorPage>,
        table: seq<Row>)
      returns (page: CursorPage)
    requires codec.Exact() && IsWalk(codec, tables, q, pages) && !Ended(pages) && Keyed(table) && Nullable(q.sort)
    ensures IsWalk(codec, tables + [table], q, pages + [page])
  {
    var n := |pages|;
    assert Served(codec, tables[n - 1], q, pages, n - 1);
    NextAnswer(codec, tables[n - 1], q, pages, Some(table));
    page := Serve(codec, Some(table), RequestFor(q, pages, n)).value;
    assert RequestFor(q, pages + [page], n) == RequestFor(q, pages, n);
    forall i | 0 <= i < n ensures Served(codec, tables[i], q, pages + [page], i) {
      assert Served(codec, tables[i], q, pages, i);
      ServedInLongerWalk(codec, tables[i], q, pages, page, i);
    }
    WalkGrows(codec, tables, q, pages, table, page);
  }

  lemma RefusedTokenEnds(codec: JsonCodec, tables: seq<seq<Row>>, q: CatalogQuery, pages: seq<CursorPage>,
        table: seq<Row>, page: CursorPage)
    requires |pages| == |tables| && Serve(codec, Some(table), RequestFor(q, pages, |pages|)).Err?
    ensures !IsWalk(codec, tables + [table], q, pages + [page])
  {
    var n, longer := |pages|, tables + [table];
    assert RequestFor(q, pages + [page], n) == RequestFor(q, pages, n) && longer[n] == table;
    assert !Served(codec, longer[n], q, pages + [page], n);
  }

  // ----- Rows as places -----

  function PlacesOf(sort: SortKey, rows: seq<Row>): (r: Places)
    ensures |r| == |rows|
  {
    seq(|rows|, i requires 0 <= i < |rows| => PositionOf(sort, rows[i]))
  }

  function ListsOf(q: CatalogQuery, tables: seq<seq<Row>>): (r: seq<Places>)
    ensures |r| == |tables|
  {
    seq(|tables|, i requires 0 <= i < |tables| =>
      PlacesOf(q.sort, Listing(tables[i], q.filters, q.sort, q.dir)))
  }

  function PagesOf(q: CatalogQuery, pages: seq<CursorPage>): (r: seq<Places>)
    ensures |r| == |pages|
  {
    seq(|pages|, i requires 0 <= i < |pages| => PlacesOf(q.sort, pages[i].rows))
  }

  lemma ListingSorted(table: seq<Row>, filters: seq<Row -> Truth>, sort: SortKey, dir: SortDir)
    requires Keyed(table)
    ensures Sorted(sort, dir, Listing(table, filters, sort, dir))
  {
    FilterKeyed(PassTest(filters), table);
    SortSorted(sort, dir, Filter(PassTest(filters), table));
  }

  lemma InListing(table: seq<Row>, filters: seq<Row -> Truth>, sort: SortKey, dir: SortDir, r: Row)
    ensures r in Listing(table, filters, sort, dir) <==> r in table && Passes(filters, r)
  {
    FilterIn(PassTest(filters), table, r);
    SortIn(Ordering(sort, dir), Filter(PassTest(filters), table), r);
  }

  lemma {:induction false} PlacesOfFilter(c: CatalogCursor, rows: seq<Row>)
    requires WellTyped(c)
    ensures PlacesOf(c.sort, Filter(AfterTest(c), rows))
      == Filter(AfterPlace(c.dir, CursorPosition(c)), PlacesOf(c.sort, rows))
  {
    if rows != [] {
      PlacesOfFilter(c, rows[1..]);
      assert PlacesOf(c.sort, rows)[1..] == PlacesOf(c.sort, rows[1..]);
      if AfterTest(c)(rows[0]) {
        assert PlacesOf(c.sort, [rows[0]] + Filter(AfterTest(c), rows[1..]))
          == [PositionOf(c.sort, rows[0])] + PlacesOf(c.sort, Filter(AfterTest(c), rows[1..]));
      }
    }
  }

  lemma PlacesOfPage(table: seq<Row>, q: CatalogQuery, page: CursorPage, cursor: Option<CatalogCursor>)
    requires Holds(table, q, page, cursor)
    requires cursor.Some? ==> WellTyped(cursor.value) && cursor.value.sort == q.sort && cursor.value.dir == q.dir
    ensures
      var all := PlacesOf(q.sort, Listing(table, q.filters, q.sort, q.dir));
      var rest := Rest(q.dir, if cursor.None? then None else Some(CursorPosition(cursor.value)), all);
      && PlacesOf(q.sort, page.rows) == Take(q.limit, rest)
      && |rest| == |Remaining(table, ParamsOf(q, cursor))|
  {
    if cursor.Some? {
      PlacesOfFilter(cursor.value, Listing(table, q.filters, q.sort, q.dir));
    }
  }

  lemma PlacesAscend(table: seq<Row>, q: CatalogQuery)
    requires Keyed(table)
    ensures Ascending(q.dir, PlacesOf(q.sort, Listing(table, q.filters, q.sort, q.dir)))
  {
    ListingSorted(table, q.filters, q.sort, q.dir);
  }

  lemma ReadingPage(tables: seq<seq<Row>>, q: CatalogQuery, pages: seq<CursorPage>, i: nat)
    requires IsReading(tables, q, pages) && i < |pages|
    ensures IsPage(q.dir, q.limit, ListsOf(q, tables), PagesOf(q, pages), i)
    ensures |RestAt(q.dir, ListsOf(q, tables), PagesOf(q, pages), i)|
      == |Remaining(tables[i], ParamsOf(q, CursorAt(q, pages, i)))|
  {
    assert Reads(tables, q, pages, i);
    var cursor := CursorAt(q, pages, i);
    if cursor.Some? {
      var last := pages[i - 1].rows[|pages[i - 1].rows| - 1];
      CursorForMarksTheRow(last, q.sort, q.dir);
      assert Last(PlacesOf(q.sort, pages[i - 1].rows)) == Some(PositionOf(q.sort, last));
    }
    PlacesAscend(tables[i], q);
    PlacesOfPage(tables[i], q, pages[i], cursor);
  }

  lemma ReadingIsPaging(tables: seq<seq<Row>>, q: CatalogQuery, pages: seq<CursorPage>)
    requires IsReading(tables, q, pages)
    ensures Paging(q.dir, q.limit, ListsOf(q, tables), PagesOf(q, pages))
    ensures Ended(pages) && q.limit > 0 ==>
      |RestAt(q.dir, ListsOf(q, tables), PagesOf(q, pages), |pages| - 1)| <= q.limit
  {
    forall i | 0 <= i < |pages| ensures IsPage(q.dir, q.limit, ListsOf(q, tables), PagesOf(q, pages), i) {
      ReadingPage(tables, q, pages, i);
    }
    forall i | 0 <= i < |pages| - 1 ensures PagesOf(q, pages)[i] != [] {
      assert Reads(tables, q, pages, i + 1);
    }
    ReadingPage(tables, q, pages, |pages| - 1);
    assert Reads(tables, q, pages, |pages| - 1);
  }

  // ----- A changing table -----

  /** The row with id `at.id` is in every table read, passes the filters and keeps its place. */
  ghost predicate Stays(tables: seq<seq<Row>>, q: CatalogQuery, at: Position) {
    forall i :: 0 <= i < |tables| ==> HasRowAt(tables[i], q, at)
  }

  ghost predicate HasRowAt(table: seq<Row>, q: CatalogQuery, at: Position) {
    exists r :: r in table && Passes(q.filters, r) && PositionOf(q.sort, r) == at
  }

  /** The page returned the row with this id. */
  ghost predicate Shows(page: CursorPage, id: int) {
    exists k :: 0 <= k < |page.rows| && page.rows[k].id == id
  }

  lemma SameIdSameRow(table: seq<Row>, a: Row, b: Row)
    requires Keyed(table) && a in table && b in table && a.id == b.id
    ensures a == b
  {
    var i :| 0 <= i < |table| && table[i] == a;
    var j :| 0 <= j < |table| && table[j] == b;
  }

  lemma PageRowsComeFromTheTable(tables: seq<seq<Row>>, q: CatalogQuery, pages: seq<CursorPage>, i: nat, k: nat)
    requires IsReading(tables, q, pages) && i < |pages| && k < |pages[i].rows|
    ensures Keyed(tables[i]) && pages[i].rows[k] in tables[i]
  {
    assert Reads(tables, q, pages, i);
    var row, cursor := pages[i].rows[k], CursorAt(q, pages, i);
    var all := Listing(tables[i], q.filters, q.sort, q.dir);
    assert row in Remaining(tables[i], ParamsOf(q, cursor));
    if cursor.Some? {
      FilterIn(AfterTest(cursor.value), all, row);
    }
    InListing(tables[i], q.filters, q.sort, q.dir, row);
  }

  lemma ShowsIffPlaced(tables: seq<seq<Row>>, q: CatalogQuery, pages: seq<CursorPage>, i: nat, at: Position)
    requires IsReading(tables, q, pages) && i < |pages| && Stays(tables, q, at)
    ensures Shows(pages[i], at.id) <==> at in PlacesOf(q.sort, pages[i].rows)
    ensures at in ListsOf(q, tables)[i]
  {
    assert HasRowAt(tables[i], q, at);
    var row :| row in tables[i] && Passes(q.filters, row) && PositionOf(q.sort, row) == at;
    if Shows(pages[i], at.id) {
      var k :| 0 <= k < |pages[i].rows| && pages[i].rows[k].id == at.id;
      PageRowsComeFromTheTable(tables, q, pages, i, k);
      SameIdSameRow(tables[i], pages[i].rows[k], row);
      assert PlacesOf(q.sort, pages[i].rows)[k] == at;
    }
    if at in PlacesOf(q.sort, pages[i].rows) {
      var k :| 0 <= k < |pages[i].rows| && PlacesOf(q.sort, pages[i].rows)[k] == at;
      assert pages[i].rows[k].id == at.id;
    }
    var all := Listing(tables[i], q.filters, q.sort, q.dir);
    InListing(tables[i], q.filters, q.sort, q.dir, row);
    var j :| 0 <= j < |all| && all[j] == row;
    assert PlacesOf(q.sort, all)[j] == at;
  }

  lemma ReadingShowsAtMostOnce(tables: seq<seq<Row>>, q: CatalogQuery, pages: seq<CursorPage>, at: Position, i: nat,
        j: nat)
    requires IsReading(tables, q, pages) && Stays(tables, q, at) && i < j < |pages|
    ensures !(Shows(pages[i], at.id) && Shows(pages[j], at.id))
  {
    ReadingIsPaging(tables, q, pages);
    ShowsIffPlaced(tables, q, pages, i, at);
    ShowsIffPlaced(tables, q, pages, j, at);
    AtMostOnce(q.dir, q.limit, ListsOf(q, tables), PagesOf(q, pages), at, i, j);
  }

  lemma ReadingReaches(tables: seq<seq<Row>>, q: CatalogQuery, pages: seq<CursorPage>, at: Position)
      returns (page: nat)
    requires IsReading(tables, q, pages) && Stays(tables, q, at) && q.limit > 0 && Ended(pages)
    ensures page < |pages| && Shows(pages[page], at.id)
  {
    ReadingIsPaging(tables, q, pages);
    StaysInLists(tables, q, pages, at);
    page := Reached(q.dir, q.limit, ListsOf(q, tables), PagesOf(q, pages), at, 0);
    ShowsIffPlaced(tables, q, pages, page, at);
  }

  /** While other rows come, go and move, a row that keeps its place is never on two pages. */
  lemma StayingRowShownAtMostOnce(codec: JsonCodec, tables: seq<seq<Row>>, q: CatalogQuery, pages: seq<CursorPage>,
        at: Position, i: nat, j: nat)
    requires codec.Exact() && IsWalk(codec, tables, q, pages) && Stays(tables, q, at)
    requires i < j < |pages|
    ensures !(Shows(pages[i], at.id) && Shows(pages[j], at.id))
  {
    WalkIsReading(codec, tables, q, pages);
    ReadingShowsAtMostOnce(tables, q, pages, at, i, j);
  }

  /** Nor is any row twice on one page. */
  lemma PageHasNoRepeats(codec: JsonCodec, tables: seq<seq<Row>>, q: CatalogQuery, pages: seq<CursorPage>, i: nat,
        k: nat, l: nat)
    requires codec.Exact() && IsWalk(codec, tables, q, pages) && i < |pages| && k < l < |pages[i].rows|
    ensures pages[i].rows[k].id != pages[i].rows[l].id
  {
    WalkIsReading(codec, tables, q, pages);
    PageRowsComeFromTheTable(tables, q, pages, i, k);
    PageRowsComeFromTheTable(tables, q, pages, i, l);
    var rows := pages[i].rows;
    if rows[k].id == rows[l].id {
      SameIdSameRow(tables[i], rows[k], rows[l]);
      ReadingPage(tables, q, pages, i);
      RestAscends(q.dir, CursorBefore(PagesOf(q, pages), i), ListsOf(q, tables)[i]);
      BeforeTotal(q.dir, PlacesOf(q.sort, rows)[k], PlacesOf(q.sort, rows)[l]);
    }
  }

  /** When the walk ends, every row that kept its place was returned on exactly one page. */
  lemma StayingRowShownExactlyOnce(codec: JsonCodec, tables: seq<seq<Row>>, q: CatalogQuery, pages: seq<CursorPage>,
        at: Position)
      returns (page: nat)
    requires codec.Exact() && IsWalk(codec, tables, q, pages) && Stays(tables, q, at)
    requires q.limit > 0 && Ended(pages)
    ensures page < |pages| && Shows(pages[page], at.id)
    ensures forall j :: 0 <= j < |pages| && j != page ==> !Shows(pages[j], at.id)
  {
    WalkIsReading(codec, tables, q, pages);
    page := ReadingReaches(tables, q, pages, at);
    forall j | 0 <= j < |pages| && j != page ensures !Shows(pages[j], at.id) {
      ReadingShowsAtMostOnce(tables, q, pages, at, Min(page, j), Max(page, j));
    }
  }

  lemma StaysInLists(tables: seq<seq<Row>>, q: CatalogQuery, pages: seq<CursorPage>, at: Position)
    requires IsReading(tables, q, pages) && Stays(tables, q, at)
    ensures forall k :: 0 <= k < |tables| ==> at in ListsOf(q, tables)[k]
  {
    forall k | 0 <= k < |tables| ensures at in ListsOf(q, tables)[k] {
      ShowsIffPlaced(tables, q, pages, k, at);
    }
  }

  // ----- A fixed table -----

  lemma AfterListed(sort: SortKey, dir: SortDir, s: seq<Row>, k: nat, c: CatalogCursor)
    requires Sorted(sort, dir, s) && k < |s| && c == CursorFor(s[k], sort, dir)
    ensures Filter(AfterTest(c), s) == s[k + 1..]
  {
    var after := AfterTest(c);
    forall i | 0 <= i < |s| ensures after(s[i]) <==> i > k {
      AfterListedRow(sort, dir, s, k, i, c);
    }
    assert s == s[..k + 1] + s[k + 1..];
    FilterConcat(after, s[..k + 1], s[k + 1..]);
    FilterNone(after, s[..k + 1]);
    FilterAll(after, s[k + 1..]);
  }

  lemma AfterListedRow(sort: SortKey, dir: SortDir, s: seq<Row>, k: nat, i: nat, c: CatalogCursor)
    requires Sorted(sort, dir, s) && k < |s| && i < |s| && c == CursorFor(s[k], sort, dir)
    ensures AfterTest(c)(s[i]) <==> i > k
  {
    BeforeTotal(dir, PositionOf(sort, s[k]), PositionOf(sort, s[i]));
    CursorForMarksTheRow(s[k], sort, dir);
  }

  /** Page `i` of a fixed table starts at that row of the listing. */
  ghost predicate StartsAt(table: seq<Row>, q: CatalogQuery, pages: seq<CursorPage>, i: nat, start: nat)
    requires i < |pages|
  {
    var all := Listing(table, q.filters, q.sort, q.dir);
    && start <= |all| && (i > 0 ==> start < |all|)
    && Remaining(table, ParamsOf(q, CursorAt(q, pages, i))) == all[start..]
    && Holds(table, q, pages[i], CursorAt(q, pages, i))
  }

  lemma FirstStart(table: seq<Row>, tables: seq<seq<Row>>, q: CatalogQuery, pages: seq<CursorPage>)
    requires 0 < |pages| == |tables| && Reads(tables, q, pages, 0) && tables[0] == table
    ensures StartsAt(table, q, pages, 0, 0)
  {
    var all := Listing(table, q.filters, q.sort, q.dir);
    assert all[0..] == all;
  }

  /** After a page that was not the last, the cursor cuts the listing where that page ended. */
  lemma CutAfterPage(table: seq<Row>, q: CatalogQuery, pages: seq<CursorPage>, i: nat, start: nat)
    requires 0 < i < |pages| && 0 < q.limit <= start && Keyed(table)
    requires CursorAt(q, pages, i).Some? && pages[i - 1].next.Some?
    requires StartsAt(table, q, pages, i - 1, start - q.limit)
    ensures
      var all := Listing(table, q.filters, q.sort, q.dir);
      start < |all| && Filter(AfterTest(CursorAt(q, pages, i).value), all) == all[start..]
  {
    var all := Listing(table, q.filters, q.sort, q.dir);
    var previous := pages[i - 1].rows;
    assert previous == Take(q.limit, all[start - q.limit..]);
    assert |previous| == q.limit && previous[q.limit - 1] == all[start - 1];
    ListingSorted(table, q.filters, q.sort, q.dir);
    AfterListed(q.sort, q.dir, all, start - 1, CursorAt(q, pages, i).value);
  }

  lemma NextStart(table: seq<Row>, tables: seq<seq<Row>>, q: CatalogQuery, pages: seq<CursorPage>, i: nat, start: nat)
    requires 0 < i < |pages| == |tables| && 0 < q.limit <= start
    requires Reads(tables, q, pages, i) && tables[i] == table
    requires StartsAt(table, q, pages, i - 1, start - q.limit)
    ensures StartsAt(table, q, pages, i, start)
  {
    CutAfterPage(table, q, pages, i, start);
  }

  /** Page `i` of a fixed table starts where `i` full pages end. */
  lemma {:induction false} FixedStart(
      table: seq<Row>, tables: seq<seq<Row>>, q: CatalogQuery, pages: seq<CursorPage>, i: nat, start: nat)
    requires IsReading(tables, q, pages) && i < |pages| && q.limit > 0 && start == i * q.limit
    requires forall k :: 0 <= k < |tables| ==> tables[k] == table
    ensures StartsAt(table, q, pages, i, start)
    decreases i
  {
    assert Reads(tables, q, pages, i);
    if i == 0 {
      FirstStart(table, tables, q, pages);
    } else {
      MulStep(i, q.limit);
      FixedStart(table, tables, q, pages, i - 1, start - q.limit);
      NextStart(table, tables, q, pages, i, start);
    }
  }

  function AllRows(pages: seq<CursorPage>): seq<Row> {
    if pages == [] then [] else AllRows(pages[..|pages| - 1]) + pages[|pages| - 1].rows
  }

  lemma FixedRows(table: seq<Row>, tables: seq<seq<Row>>, q: CatalogQuery, pages: seq<CursorPage>, i: nat, start: nat)
    requires IsReading(tables, q, pages) && i < |pages| && q.limit > 0 && start == i * q.limit
    requires forall k :: 0 <= k < |tables| ==> tables[k] == table
    ensures
      var all := Listing(table, q.filters, q.sort, q.dir);
      start <= |all| && pages[i].rows == Take(q.limit, all[start..])
  {
    FixedStart(table, tables, q, pages, i, start);
  }

  lemma AllRowsStep(pages: seq<CursorPage>, k: nat)
    requires 0 < k <= |pages|
    ensures AllRows(pages[..k]) == AllRows(pages[..k - 1]) + pages[k - 1].rows
  {
    assert pages[..k][..k - 1] == pages[..k - 1];
  }

  lemma MulStep(k: nat, limit: nat)
    requires k > 0
    ensures k * limit == (k - 1) * limit + limit
  {
  }

  lemma PrefixStep(all: seq<Row>, start: nat, limit: nat)
    requires start <= |all|
    ensures Take(start + limit, all) == Take(start, all) + Take(limit, all[start..])
  {
  }

  lemma {:induction false} FixedPrefix(
        table: seq<Row>, tables: seq<seq<Row>>, q: CatalogQuery, pages: seq<CursorPage>, k: nat, start: nat)
    requires IsReading(tables, q, pages) && k <= |pages| && q.limit > 0 && start == k * q.limit
    requires forall k :: 0 <= k < |tables| ==> tables[k] == table
    ensures AllRows(pages[..k]) == Take(start, Listing(table, q.filters, q.sort, q.dir))
    decreases k
  {
    if k > 0 {
      MulStep(k, q.limit);
      FixedPrefix(table, tables, q, pages, k - 1, start - q.limit);
      FixedRows(table, tables, q, pages, k - 1, start - q.limit);
      AllRowsStep(pages, k);
      PrefixStep(Listing(table, q.filters, q.sort, q.dir), start - q.limit, q.limit);
    }
  }

  /** The pages read so far are the start of the filtered catalog in reading order; the walk
      has ended when, and only when, it has all been read, which takes ceil(n / limit) pages
      (one for an empty catalog). */
  ghost predicate CoversInOrder(table: seq<Row>, q: CatalogQuery, pages: seq<CursorPage>)
    requires q.limit > 0
  {
    var all := Listing(table, q.filters, q.sort, q.dir);
    && AllRows(pages) <= all
    && (Ended(pages) <==> AllRows(pages) == all)
    && |pages| <= Max(1, DivCeil(|all|, q.limit))
    && (Ended(pages) <==> |pages| == Max(1, DivCeil(|all|, q.limit)))
  }

  lemma FixedRowsSoFar(table: seq<Row>, tables: seq<seq<Row>>, q: CatalogQuery, pages: seq<CursorPage>, start: nat)
    requires IsReading(tables, q, pages) && q.limit > 0 && start == (|pages| - 1) * q.limit
    requires forall k :: 0 <= k < |tables| ==> tables[k] == table
    ensures AllRows(pages[..|pages|]) == Take(start + q.limit, Listing(table, q.filters, q.sort, q.dir))
  {
    assert start + q.limit == |pages| * q.limit by {
      MulStep(|pages|, q.limit);
    }
    FixedPrefix(table, tables, q, pages, |pages|, start + q.limit);
  }

  lemma FixedTableReading(table: seq<Row>, tables: seq<seq<Row>>, q: CatalogQuery, pages: seq<CursorPage>, start: nat)
    requires IsReading(tables, q, pages) && q.limit > 0 && start == (|pages| - 1) * q.limit
    requires forall k :: 0 <= k < |tables| ==> tables[k] == table
    ensures CoversInOrder(table, q, pages)
  {
    var all := Listing(table, q.filters, q.sort, q.dir);
    FixedRowsSoFar(table, tables, q, pages, start);
    assert pages[..|pages|] == pages;
    TakeIsPrefix(start + q.limit, all);
    LastFixedPage(table, tables, q, pages, start);
    PagesNeeded(|all|, q.limit, |pages|, start);
  }

  /** Following `next_cursor` on a table that does not change. */
  lemma FixedTableWalk(codec: JsonCodec, table: seq<Row>, tables: seq<seq<Row>>, q: CatalogQuery,
        pages: seq<CursorPage>)
    requires codec.Exact() && IsWalk(codec, tables, q, pages) && q.limit > 0
    requires forall k :: 0 <= k < |tables| ==> tables[k] == table
    ensures CoversInOrder(table, q, pages)
  {
    WalkIsReading(codec, tables, q, pages);
    FixedTableReading(table, tables, q, pages, (|pages| - 1) * q.limit);
  }

  lemma TakeIsPrefix(m: nat, s: seq<Row>)
    ensures Take(m, s) <= s
    ensures Take(m, s) == s <==> m >= |s|
  {
  }

  lemma LastFixedPage(table: seq<Row>, tables: seq<seq<Row>>, q: CatalogQuery, pages: seq<CursorPage>, start: nat)
    requires IsReading(tables, q, pages) && q.limit > 0 && start == (|pages| - 1) * q.limit
    requires forall k :: 0 <= k < |tables| ==> tables[k] == table
    ensures
      var n := |Listing(table, q.filters, q.sort, q.dir)|;
      && (|pages| > 1 ==> start < n)
      && (Ended(pages) <==> start + q.limit >= n)
  {
    FixedStart(table, tables, q, pages, |pages| - 1, start);
  }

  lemma PagesNeeded(n: nat, limit: nat, k: nat, start: nat)
    requires limit > 0 && k > 0 && start == (k - 1) * limit && (k > 1 ==> start < n)
    ensures k <= Max(1, DivCeil(n, limit))
    ensures start + limit >= n <==> k == Max(1, DivCeil(n, limit))
  {
    MulStep(k, limit);
    DivCeilIff(n, limit, k);
    DivCeilIff(n, limit, k - 1);
  }

  // ----- Which catalogs can be read to their end -----

  function Unchanged(table: seq<Row>, n: nat): (tables: seq<seq<Row>>)
    ensures |tables| == n && forall k :: 0 <= k < n ==> tables[k] == table
  {
    seq(n, i requires 0 <= i < n => table)
  }

  /** A walk of more than one page exists only in the orders of columns that may be NULL. */
  lemma SecondPageNeedsNullable(codec: JsonCodec, tables: seq<seq<Row>>, q: CatalogQuery, pages: seq<CursorPage>)
    requires codec.Exact() && IsWalk(codec, tables, q, pages) && |pages| > 1
    ensures Nullable(q.sort)
  {
    assert Served(codec, tables[0], q, pages, 0) && Served(codec, tables[1], q, pages, 1);
    RequestDecodes(codec, tables, q, pages, 1);
    ServedIff(codec, Some(tables[1]), RequestFor(q, pages, 1), CursorAt(q, pages, 1));
    ContinuationRunsIff(pages[0].rows[|pages[0].rows| - 1], q.sort, q.dir);
  }

  lemma FirstPage(codec: JsonCodec, table: seq<Row>, q: CatalogQuery) returns (pages: seq<CursorPage>)
    requires Keyed(table)
    ensures IsWalk(codec, Unchanged(table, |pages|), q, pages)
  {
    var page := Serve(codec, Some(table), q.(cursor := None)).value;
    pages := [page];
    assert Served(codec, table, q, pages, 0);
  }

  lemma {:induction false} ReadToTheEnd(codec: JsonCodec, table: seq<Row>, q: CatalogQuery, pages: seq<CursorPage>)
      returns (all: seq<CursorPage>)
    requires codec.Exact() && Keyed(table) && q.limit > 0 && Nullable(q.sort)
    requires IsWalk(codec, Unchanged(table, |pages|), q, pages)
    ensures IsWalk(codec, Unchanged(table, |all|), q, all) && Ended(all)
    decreases Max(1, DivCeil(|Listing(table, q.filters, q.sort, q.dir)|, q.limit)) - |pages|
  {
    FixedTableWalk(codec, table, Unchanged(table, |pages|), q, pages);
    if Ended(pages) {
      all := pages;
    } else {
      var page := NextTokenExtends(codec, Unchanged(table, |pages|), q, pages, table);
      assert Unchanged(table, |pages|) + [table] == Unchanged(table, |pages + [page]|);
      FixedTableWalk(codec, table, Unchanged(table, |pages + [page]|), q, pages + [page]);
      all := ReadToTheEnd(codec, table, q, pages + [page]);
    }
  }

  ghost predicate ReadsAll(codec: JsonCodec, table: seq<Row>, q: CatalogQuery, pages: seq<CursorPage>) {
    && IsWalk(codec, Unchanged(table, |pages|), q, pages)
    && AllRows(pages) == Listing(table, q.filters, q.sort, q.dir)
  }

  lemma OnePageReadsAll(n: nat, limit: nat)
    requires limit > 0
    ensures Max(1, DivCeil(n, limit)) == 1 <==> n <= limit
  {
    DivCeilIff(n, limit, 1);
  }

  /** By following the tokens of an unchanging table one can read the whole filtered catalog if and only if
      it is sorted by a column that may be NULL or it fits on one page. */
  lemma CatalogIsReadIff(codec: JsonCodec, table: seq<Row>, q: CatalogQuery)
    requires codec.Exact() && Keyed(table) && q.limit > 0
    ensures (exists pages :: ReadsAll(codec, table, q, pages))
      <==> Nullable(q.sort) || |Listing(table, q.filters, q.sort, q.dir)| <= q.limit
  {
    var n := |Listing(table, q.filters, q.sort, q.dir)|;
    OnePageReadsAll(n, q.limit);
    var first := FirstPage(codec, table, q);
    if Nullable(q.sort) {
      var pages := ReadToTheEnd(codec, table, q, first);
      FixedTableWalk(codec, table, Unchanged(table, |pages|), q, pages);
      assert ReadsAll(codec, table, q, pages);
    } else {
      FixedTableWalk(codec, table, Unchanged(table, |first|), q, first);
      assert n <= q.limit ==> ReadsAll(codec, table, q, first);
      forall pages | ReadsAll(codec, table, q, pages) ensures n <= q.limit {
        FixedTableWalk(codec, table, Unchanged(table, |pages|), q, pages);
        if |pages| > 1 {
          SecondPageNeedsNullable(codec, Unchanged(table, |pages|), q, pages);
        }
      }
    }
  }

  /** With a zero limit the first page is empty and last: the walk covers the catalog exactly
      when there is nothing to cover. The handlers always ask for 50. */
  lemma ZeroLimitCoversOnlyAnEmptyCatalog(codec: JsonCodec, table: seq<Row>, q: CatalogQuery, page: CursorPage)
    requires Keyed(table) && q.limit == 0 && Serve(codec, Some(table), q.(cursor := None)) == Ok(page)
    ensures page == CursorPage([], None)
    ensures AllRows([page]) == Listing(table, q.filters, q.sort, q.dir)
      <==> forall r :: r in table ==> !Passes(q.filters, r)
  {
    var all := Listing(table, q.filters, q.sort, q.dir);
    assert [page][..0] == [];
    assert AllRows([page]) == [];
    if all != [] {
      InListing(table, q.filters, q.sort, q.dir, all[0]);
    } else {
      forall r | r in table ensures !Passes(q.filters, r) {
        InListing(table, q.filters, q.sort, q.dir, r);
      }
    }
  }
}
