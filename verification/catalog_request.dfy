/** `src/api/handlers/catalog.rs`: from the query string's fields to the parameters of the listing. */
module CatalogRequest {
  import opened Prelude
  import opened Sql
  import opened CatalogTypes
  import opened CatalogFilters
  import opened CatalogBuilder
  import opened Catalog
  import opened CatalogHandler
  import opened Cursor

  const CATALOG_PAGE_SIZE: nat := 50

  /** The fields as deserialized. Texts may be empty, as a form sends them; an empty `cursor=` has
      already become `None`. */
  datatype Request = Request(
    cursor: Option<string>, history: Option<string>, sort: SortKey, dir: SortDir, name: Option<string>,
    hazardous: Option<bool>, sentryObject: Option<bool>, startDate: Option<int>, endDate: Option<int>,
    minDiameter: Option<F64>, maxDiameter: Option<F64>, orbitClass: Option<string>, spectralClass: Option<string>,
    minTorino: Option<int>, minPalermo: Option<F64>)

  function NonEmpty(text: Option<string>): Option<string> {
    if text == Some("") then None else text
  }

  function ListParamsOf(q: Request, cursor: Option<CatalogCursor>): CatalogParams {
    CatalogParams(
      cursor, q.sort, q.dir, NonEmpty(q.name), q.hazardous, q.sentryObject, q.startDate, q.endDate,
      q.minDiameter, q.maxDiameter, NonEmpty(q.orbitClass), NonEmpty(q.spectralClass),
      q.minTorino, q.minPalermo, CATALOG_PAGE_SIZE)
  }

  /** The request as the handler's paging sees it: its filters do not depend on the cursor. */
  function QueryOf(fold: char -> char, q: Request): CatalogQuery {
    CatalogQuery(q.cursor, q.history, q.sort, q.dir, FiltersOf(fold, ListParamsOf(q, None)), CATALOG_PAGE_SIZE)
  }

  lemma PagesOfOneRequest(fold: char -> char, q: Request, cursor: Option<CatalogCursor>)
    ensures ParamsFor(fold, ListParamsOf(q, cursor)) == ParamsOf(QueryOf(fold, q), cursor)
  {
    assert ListParamsOf(q, cursor).(cursor := None) == ListParamsOf(q, None);
  }

  /** Why empty texts are dropped: an empty name would keep every row anyway, but an empty class would
      keep only rows whose class is the empty text. */
  lemma EmptyTextFilters(fold: char -> char, p: CatalogParams, r: Row)
    ensures Matches(fold, p.(name := Some("")), r) <==> Matches(fold, p.(name := None), r)
    ensures Matches(fold, p.(orbitClass := Some("")), r)
      <==> Matches(fold, p.(orbitClass := None), r) && r.orbitClass == Some("")
    ensures Matches(fold, p.(spectralClass := Some("")), r)
      <==> Matches(fold, p.(spectralClass := None), r) && r.spectralClass == Some("")
  {
    PercentTakesAll(fold, r.name);
    assert NamePattern("")[1..] == "%";
  }

  /** The fields of a request, asked of a row. */
  predicate Asks(fold: char -> char, q: Request, r: Row) {
    && (q.name.Some? && q.name.value != "" ==> ILike(fold, "%" + (q.name.value + "%"), r.name))
    && (q.hazardous.Some? ==> q.hazardous.value == r.hazardous)
    && (q.sentryObject.Some? ==> q.sentryObject.value == r.sentryObject)
    && (q.startDate.Some? || q.endDate.Some? ==>
          exists d :: d in r.approaches
            && !(q.startDate.Some? && d < q.startDate.value) && !(q.endDate.Some? && d > q.endDate.value))
    && !(q.minDiameter.Some? && r.diameter < q.minDiameter.value)
    && !(q.maxDiameter.Some? && r.diameter > q.maxDiameter.value)
    && (q.orbitClass.Some? && q.orbitClass.value != "" ==> r.orbitClass == q.orbitClass)
    && (q.spectralClass.Some? && q.spectralClass.value != "" ==> r.spectralClass == q.spectralClass)
    && (q.minTorino.Some? ==> r.torino.Some? && r.torino.value >= q.minTorino.value)
    && (q.minPalermo.Some? ==> r.palermo.Some? && r.palermo.value >= q.minPalermo.value)
  }

  /** From the query string to the rows: a row of the table is in the listing a request pages through if
      and only if it meets every field of the request, empty texts asking nothing. */
  lemma RowIsListedIff(fold: char -> char, q: Request, table: seq<Row>, r: Row)
    ensures r in Listing(table, QueryOf(fold, q).filters, q.sort, q.dir) <==> r in table && Asks(fold, q, r)
  {
    var filters := QueryOf(fold, q).filters;
    FilterIn(PassTest(filters), table, r);
    SortIn(Ordering(q.sort, q.dir), Filter(PassTest(filters), table), r);
    WithinIff(r.approaches, q.startDate, q.endDate);
    assert Passes(filters, r) <==> filters[0](r) == True;
  }

  /** A first page is the start of that listing, fifty rows at most, in the asked order. */
  lemma FirstPageOfRequest(codec: JsonCodec, fold: char -> char, q: Request, table: seq<Row>, page: CursorPage)
    requires q.cursor.None? && Serve(codec, Some(table), QueryOf(fold, q)) == Ok(page)
    ensures page.rows == Take(50, Listing(table, QueryOf(fold, q).filters, q.sort, q.dir))
    ensures forall r :: r in page.rows ==> r in table && Asks(fold, q, r)
    ensures page.next.None? ==> forall r :: r in table && Asks(fold, q, r) ==> r in page.rows
  {
    AnsweredFrom(codec, table, QueryOf(fold, q), page);
    var all := Listing(table, QueryOf(fold, q).filters, q.sort, q.dir);
    forall r ensures r in all <==> r in table && Asks(fold, q, r) {
      RowIsListedIff(fold, q, table, r);
    }
  }
}
