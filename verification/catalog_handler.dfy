/** `src/api/handlers/catalog.rs`: cursor checks, the continuation cursor and Prev/Next links. */
module CatalogHandler {
  import opened Prelude
  import opened Sql
  import opened CatalogTypes
  import opened Cursor
  import opened CatalogText
  import opened CatalogBuilder
  import Catalog

  datatype Status = BadRequest | InternalServerError

  /** The request as deserialized: an empty `cursor=` has already become `None`. The handlers
      pass 50 for `limit`. */
  datatype CatalogQuery = CatalogQuery(
    cursor: Option<string>, history: Option<string>, sort: SortKey, dir: SortDir,
    filters: seq<Row -> Truth>, limit: nat)

  datatype CursorPage = CursorPage(rows: seq<Row>, next: Option<string>)

  function DecodeCursor(codec: JsonCodec, q: CatalogQuery): Result<Option<CatalogCursor>, Status> {
    if q.cursor.None? then Ok(None)
    else
      var cursor := Decode(codec, q.cursor.value);
      if cursor.None? then Err(BadRequest)
      else if cursor.value.sort != q.sort || cursor.value.dir != q.dir then Err(BadRequest)
      else Ok(cursor)
  }

  function CursorFor(last: Row, sort: SortKey, dir: SortDir): CatalogCursor {
    var value := match sort
      case ApproachActivity => DateValue(last.latest)
      case Name => TextValue(last.name)
      case Diameter => DiameterValue(last.diameter)
      case Torino => TorinoValue(last.torino)
      case Palermo => PalermoValue(last.palermo);
    CatalogCursor(sort, dir, value, last.id)
  }

  function NextCursor(codec: JsonCodec, rows: seq<Row>, hasMore: bool, sort: SortKey, dir: SortDir): Option<string> {
    if !hasMore || rows == [] then None
    else Some(Encode(codec, CursorFor(rows[|rows| - 1], sort, dir)))
  }

  function ParamsOf(q: CatalogQuery, cursor: Option<CatalogCursor>): Catalog.ListParams {
    Catalog.ListParams(cursor, q.sort, q.dir, q.filters, q.limit)
  }

  /** The answer to one listing request; `db` is the table, or nothing while the database does not answer. */
  function Serve(codec: JsonCodec, db: Option<seq<Row>>, q: CatalogQuery): Result<CursorPage, Status> {
    var cursor := DecodeCursor(codec, q);
    if cursor.Err? then Err(cursor.error)
    else
      var answer := Catalog.Answer(db, ParamsOf(q, cursor.value));
      if answer.Err? then Err(InternalServerError)
      else
        var (rows, hasMore) := answer.value;
        Ok(CursorPage(rows, NextCursor(codec, rows, hasMore, q.sort, q.dir)))
  }

  /** The token as text and as bytes: it names a cursor with the request's own sort and direction. */
  predicate Usable(codec: JsonCodec, token: string, sort: SortKey, dir: SortDir) {
    var bytes := Base64Decode(token);
    bytes.Some? &&
    var cursor := codec.fromSlice(bytes.value);
    cursor.Some? && cursor.value.sort == sort && cursor.value.dir == dir
  }

  /** 400 exactly for a token that cannot be used, and 500 exactly for one whose query cannot be run. */
  method CatalogList(codec: JsonCodec, db: Option<seq<Row>>, q: CatalogQuery) returns (r: Result<CursorPage, Status>)
    requires db.Some? ==> Catalog.Keyed(db.value)
    ensures r == Serve(codec, db, q)
    ensures r == Err(BadRequest) <==> q.cursor.Some? && !Usable(codec, q.cursor.value, q.sort, q.dir)
    ensures r.Ok? <==>
      && r != Err(BadRequest) && db.Some?
      && (q.cursor.Some? ==> Resumable(codec.fromSlice(Base64Decode(q.cursor.value).value).value.value))
  {
    var cursor := DecodeCursor(codec, q);
    if cursor.Err? {
      return Err(cursor.error);
    }
    var answer := Catalog.List(db, ParamsOf(q, cursor.value));
    if answer.Err? {
      return Err(InternalServerError);
    }
    var (rows, hasMore) := answer.value;
    return Ok(CursorPage(rows, NextCursor(codec, rows, hasMore, q.sort, q.dir)));
  }

  /** A continuation cursor marks its row's place in the listing it was made for. */
  lemma CursorForMarksTheRow(row: Row, sort: SortKey, dir: SortDir)
    ensures WellTyped(CursorFor(row, sort, dir))
    ensures CursorPosition(CursorFor(row, sort, dir)) == PositionOf(sort, row)
  {
  }

  /** A request is refused exactly for a token that names no cursor of its sort and direction: never
      silently restarted. A request without a token is never refused. */
  lemma RefusedIff(codec: JsonCodec, db: Option<seq<Row>>, q: CatalogQuery)
    ensures Serve(codec, db, q) == Err(BadRequest) <==>
      q.cursor.Some? && !Usable(codec, q.cursor.value, q.sort, q.dir)
  {
  }

  /** What an answered request was answered with. */
  lemma AnsweredFrom(codec: JsonCodec, table: seq<Row>, q: CatalogQuery, page: CursorPage)
    requires Serve(codec, Some(table), q) == Ok(page)
    ensures q.cursor.None? ==>
      page.rows == Take(q.limit, Catalog.Listing(table, q.filters, q.sort, q.dir))
    ensures q.cursor.Some? ==>
      var bytes := Base64Decode(q.cursor.value);
      && bytes.Some? && codec.fromSlice(bytes.value).Some?
      && var c := codec.fromSlice(bytes.value).value;
         && c.sort == q.sort && c.dir == q.dir && Resumable(c.value)
         && page.rows == Take(q.limit, Filter(AfterTest(c), Catalog.Listing(table, q.filters, q.sort, q.dir)))
    ensures page.next.Some? ==> page.rows != []
  {
  }

  /** A character outside the alphabet anywhere in the token is enough. */
  lemma GarbageIsRefused(codec: JsonCodec, db: Option<seq<Row>>, q: CatalogQuery, c: char)
    requires q.cursor.Some? && c in q.cursor.value
    requires !('A' <= c <= 'Z' || 'a' <= c <= 'z' || '0' <= c <= '9' || c == '-' || c == '_')
    ensures Serve(codec, db, q) == Err(BadRequest)
  {
    RefusedIff(codec, db, q);
    if Base64Decode(q.cursor.value).Some? {
      DecodeAcceptsOnlyTheAlphabet(q.cursor.value, c);
    }
  }

  /** Once the token is decoded, the answer depends on the database and the cursor's column only. */
  lemma ServedIff(codec: JsonCodec, db: Option<seq<Row>>, q: CatalogQuery, cursor: Option<CatalogCursor>)
    requires DecodeCursor(codec, q) == Ok(cursor)
    ensures Serve(codec, db, q).Ok? <==> db.Some? && Catalog.Runs(cursor)
    ensures Serve(codec, db, q).Err? ==> Serve(codec, db, q) == Err(InternalServerError)
  {
  }

  lemma ContinuationRunsIff(row: Row, sort: SortKey, dir: SortDir)
    ensures Catalog.Runs(Some(CursorFor(row, sort, dir))) <==> Nullable(sort)
  {
  }

  /** The token of any cursor whatever is accepted exactly by requests with its sort and direction; the
      type of its value is not looked at. */
  lemma TokenAcceptedIffSameSort(codec: JsonCodec, c: CatalogCursor, q: CatalogQuery)
    requires codec.Exact()
    ensures DecodeCursor(codec, q.(cursor := Some(Encode(codec, c))))
      == if q.sort == c.sort && q.dir == c.dir then Ok(Some(c)) else Err(BadRequest)
  {
    CursorRoundTrip(codec, c);
  }

  /** The emitted predicate against the emitted ORDER BY, as they are read from the text: for a cursor of
      the listing's own type the text is a statement if and only if the sort column may be NULL, and then
      the kept rows are those that pass the filters and lie strictly after the cursor's row. */
  lemma KeysetMeansAfterInOrder(p: Catalog.ListParams, c: CatalogCursor, cursorRow: Row, row: Row)
    requires p.cursor == Some(c) && p.sort == c.sort && p.dir == c.dir
    requires WellTyped(c) && PositionOf(c.sort, cursorRow) == CursorPosition(c)
    ensures
      var statement := ParseStatement(Catalog.StatementText(p));
      && (statement.Some? <==> Nullable(c.sort))
      && (statement.Some? ==>
            (Keeps(statement.value.where, row)
             <==> Passes(p.filters, row) && Precedes(statement.value.order, cursorRow, row)))
  {
    if Nullable(c.sort) {
      var s := Catalog.StatementMeans(p);
      assert Keeps(s.where, row) <==> Catalog.WantTest(p)(row);
      assert Precedes(s.order, cursorRow, row)
        <==> Before(c.dir, PositionOf(c.sort, cursorRow), PositionOf(c.sort, row));
    } else {
      Catalog.StatementIsSpoiled(p);
    }
  }

  // ----- Cursors of another type than the sort's -----

  /** The cursor's query runs, and keeps exactly the rows that follow `from` in the requested order. */
  ghost predicate ResumesAfter(c: CatalogCursor, from: Row) {
    && Resumable(c.value)
    && forall row :: Possible(row) ==> (AfterCursor(c, row) <==> Catalog.Ordering(c.sort, c.dir)(from, row))
  }

  function LastId(dir: SortDir): RowId {
    if dir == Asc then ID_RANGE - 1 else 0
  }

  /** NULL is the last value of its column; after it and the last id nothing can come. */
  predicate AdmitsNothing(c: CatalogCursor) {
    CursorSqlValue(c.value) == Null && c.id == LastId(c.dir)
  }

  /** Every order but names going up has a last place: names have no greatest. */
  predicate HasLastPlace(sort: SortKey, dir: SortDir) {
    sort != Name || dir == Desc
  }

  function BlankRow(id: RowId): Row {
    Row(id, "", 0, None, None, None, false, false, None, None, [])
  }

  /** A row with that value in the column the value belongs to. */
  function RowAt(value: CursorValue, id: RowId): (row: Row)
    ensures Possible(row)
  {
    match value
    case DateValue(d) => BlankRow(id).(latest := d, approaches := if d.None? then [] else [d.value])
    case TextValue(t) => BlankRow(id).(name := t)
    case DiameterValue(d) => BlankRow(id).(diameter := d)
    case TorinoValue(t) => BlankRow(id).(torino := t)
    case PalermoValue(p) => BlankRow(id).(palermo := p)
  }

  function NoValue(value: CursorValue): CursorValue
    requires Resumable(value)
  {
    match value
    case DateValue(_) => DateValue(None)
    case TorinoValue(_) => TorinoValue(None)
    case PalermoValue(_) => PalermoValue(None)
  }

  function SomeValue(value: CursorValue): CursorValue
    requires Resumable(value)
  {
    match value
    case DateValue(_) => DateValue(Some(0))
    case TorinoValue(_) => TorinoValue(Some(0))
    case PalermoValue(_) => PalermoValue(Some(0))
  }

  function NextId(dir: SortDir, id: RowId): RowId
    requires id != LastId(dir)
  {
    if dir == Asc then id + 1 else id - 1
  }

  /** Two rows that differ only in the cursor's column, the first admitted and the second not. */
  function Inside(c: CatalogCursor): (row: Row)
    requires Resumable(c.value) && !AdmitsNothing(c)
    ensures Possible(row)
  {
    RowAt(NoValue(c.value), if CursorSqlValue(c.value) != Null then c.id else NextId(c.dir, c.id))
  }

  function Outside(c: CatalogCursor): (row: Row)
    requires Resumable(c.value) && !AdmitsNothing(c)
    ensures Possible(row)
  {
    if CursorSqlValue(c.value) != Null then RowAt(c.value, c.id) else RowAt(SomeValue(c.value), NextId(c.dir, c.id))
  }

  lemma InsideIsAdmitted(c: CatalogCursor)
    requires Resumable(c.value) && !AdmitsNothing(c)
    ensures AfterCursor(c, Inside(c)) && !AfterCursor(c, Outside(c))
  {
  }

  /** Rows that differ in another column stand at one place of the requested order. */
  lemma ColumnsApart(sort: SortKey, v: CursorValue, w: CursorValue, id: RowId)
    requires CursorColumn(v) == CursorColumn(w) != SortColumn(sort)
    ensures PositionOf(sort, RowAt(v, id)) == PositionOf(sort, RowAt(w, id))
  {
  }

  lemma MistypedCursorSplitsEquals(c: CatalogCursor)
    requires Resumable(c.value) && !WellTyped(c) && !AdmitsNothing(c)
    ensures PositionOf(c.sort, Inside(c)) == PositionOf(c.sort, Outside(c))
  {
    if CursorSqlValue(c.value) != Null {
      ColumnsApart(c.sort, NoValue(c.value), c.value, c.id);
    } else {
      ColumnsApart(c.sort, NoValue(c.value), SomeValue(c.value), NextId(c.dir, c.id));
    }
  }

  lemma NothingAdmitted(c: CatalogCursor, row: Row)
    requires AdmitsNothing(c)
    ensures !AfterCursor(c, row)
  {
  }

  ghost predicate PossibleTable(table: seq<Row>) {
    Catalog.Keyed(table) && forall row :: row in table ==> Possible(row)
  }

  /** The listing from this cursor is answered, with nothing. */
  predicate AnswersNothing(c: CatalogCursor, limit: nat, table: seq<Row>) {
    Catalog.Answer(Some(table), Catalog.ListParams(Some(c), c.sort, c.dir, [], limit)) == Ok(([], false))
  }

  lemma OneRowListing(table: seq<Row>, sort: SortKey, dir: SortDir)
    requires |table| == 1
    ensures Catalog.Listing(table, [], sort, dir) == table
  {
    var before := Catalog.Ordering(sort, dir);
    FilterAll(PassTest([]), table);
    assert table[1..] == [] && Catalog.Sort(before, table[1..]) == [];
    assert Catalog.Sort(before, table) == Catalog.Insert(before, table[0], []);
  }

  /** On every table the page from such a cursor is empty, and for no other cursor is it answered empty on
      every table; a text or diameter cursor is not answered at all. */
  lemma AdmitsNothingIff(c: CatalogCursor, limit: nat)
    ensures AdmitsNothing(c) <==> forall table :: PossibleTable(table) ==> AnswersNothing(c, limit, table)
  {
    var p := Catalog.ListParams(Some(c), c.sort, c.dir, [], limit);
    if AdmitsNothing(c) {
      forall table ensures AnswersNothing(c, limit, table) {
        forall row ensures !AfterCursor(c, row) {
          NothingAdmitted(c, row);
        }
        FilterNone(AfterTest(c), Catalog.Listing(table, [], c.sort, c.dir));
      }
    } else if Resumable(c.value) {
      var table := [Inside(c)];
      InsideIsAdmitted(c);
      OneRowListing(table, c.sort, c.dir);
      FilterAll(AfterTest(c), table);
      assert Catalog.Remaining(table, p) == table;
      assert PossibleTable(table) && !AnswersNothing(c, limit, table);
    } else {
      assert PossibleTable([]) && !AnswersNothing(c, limit, []);
    }
  }

  /** The last place of an order that has one. */
  function LastRow(sort: SortKey, dir: SortDir): Row {
    BlankRow(LastId(dir)).(diameter := if dir == Asc then MAX_RANK else -MAX_RANK)
  }

  lemma NothingAfterLastRow(sort: SortKey, dir: SortDir, row: Row)
    requires HasLastPlace(sort, dir)
    ensures !Catalog.Ordering(sort, dir)(LastRow(sort, dir), row)
  {
    TextSteps(row.name);
  }

  lemma TextSteps(t: string)
    ensures TextLess(t, t + "x") && !TextLess(t, t) && !TextLess(t, "")
  {
    LongerTextIsGreater(t);
    TextLessTrichotomy(t, t);
  }

  lemma {:induction false} LongerTextIsGreater(t: string)
    ensures TextLess(t, t + "x")
  {
    if t != "" {
      LongerTextIsGreater(t[1..]);
      assert (t + "x")[1..] == t[1..] + "x";
    }
  }

  lemma SomethingAfterAnyName(sort: SortKey, dir: SortDir, from: Row) returns (after: Row)
    requires !HasLastPlace(sort, dir) && Possible(from)
    ensures Possible(after) && Catalog.Ordering(sort, dir)(from, after)
  {
    TextSteps(from.name);
    after := from.(name := from.name + "x");
    var p, q := PositionOf(sort, from), PositionOf(sort, after);
    assert p.value == Text(from.name) && q.value == Text(after.name) && Less(p.value, q.value);
    assert |after.name| == |from.name| + 1;
  }

  lemma AfterItsRow(c: CatalogCursor, from: Row, row: Row)
    requires WellTyped(c) && PositionOf(c.sort, from) == CursorPosition(c)
    ensures AfterCursor(c, row) <==> Catalog.Ordering(c.sort, c.dir)(from, row)
  {
  }

  lemma WellTypedResumes(c: CatalogCursor)
    requires WellTyped(c) && Resumable(c.value)
    ensures ResumesAfter(c, RowAt(c.value, c.id))
  {
    var from := RowAt(c.value, c.id);
    forall row ensures AfterCursor(c, row) <==> Catalog.Ordering(c.sort, c.dir)(from, row) {
      AfterItsRow(c, from, row);
    }
  }

  lemma EmptyPageResumes(c: CatalogCursor)
    requires Resumable(c.value) && AdmitsNothing(c) && HasLastPlace(c.sort, c.dir)
    ensures ResumesAfter(c, LastRow(c.sort, c.dir))
  {
    forall row ensures !AfterCursor(c, row) && !Catalog.Ordering(c.sort, c.dir)(LastRow(c.sort, c.dir), row) {
      NothingAdmitted(c, row);
      NothingAfterLastRow(c.sort, c.dir, row);
    }
  }

  lemma ResumesAt(c: CatalogCursor, from: Row, row: Row)
    requires ResumesAfter(c, from) && Possible(row)
    ensures AfterCursor(c, row) <==> Catalog.Ordering(c.sort, c.dir)(from, row)
  {
  }

  lemma MistypedResumesOnlyIfEmpty(c: CatalogCursor, from: Row)
    requires !WellTyped(c) && ResumesAfter(c, from)
    ensures AdmitsNothing(c)
  {
    if !AdmitsNothing(c) {
      ResumesAt(c, from, Inside(c));
      ResumesAt(c, from, Outside(c));
      MistypedCursorSplitsEquals(c);
      InsideIsAdmitted(c);
    }
  }

  lemma EmptyPageResumesOnlyAtAnEnd(c: CatalogCursor, from: Row)
    requires AdmitsNothing(c) && Possible(from) && ResumesAfter(c, from)
    ensures HasLastPlace(c.sort, c.dir)
  {
    if !HasLastPlace(c.sort, c.dir) {
      var after := SomethingAfterAnyName(c.sort, c.dir, from);
      ResumesAt(c, from, after);
      NothingAdmitted(c, after);
    }
  }

  /** `decode_cursor` compares the cursor's sort and direction but not the type of its value. For any
      cursor, forged ones included, the query runs and the rows it keeps are the rows after some place in
      the requested order if and only if the value is a date, Torino or Palermo value, and either it has
      the sort's type or the page is empty and the order has a last place. */
  lemma PredicateResumesTheOrderIff(c: CatalogCursor)
    ensures (exists from :: Possible(from) && ResumesAfter(c, from))
      <==> Resumable(c.value) && (WellTyped(c) || (AdmitsNothing(c) && HasLastPlace(c.sort, c.dir)))
  {
    if Resumable(c.value) && WellTyped(c) {
      WellTypedResumes(c);
    } else if Resumable(c.value) && AdmitsNothing(c) && HasLastPlace(c.sort, c.dir) {
      EmptyPageResumes(c);
    } else if from :| Possible(from) && ResumesAfter(c, from) {
      MistypedResumesOnlyIfEmpty(c, from);
      EmptyPageResumesOnlyAtAnEnd(c, from);
    }
  }

  /** A forged cursor: any value of another type than the sort's. `decode_cursor` accepts it. A date, Torino
      or Palermo value is answered with a page, which continues the requested order only if it is empty;
      a text or diameter value is answered with 500. */
  lemma ForgedCursorIsAccepted(codec: JsonCodec, table: seq<Row>, q: CatalogQuery, value: CursorValue, id: RowId)
    requires codec.Exact() && CursorColumn(value) != SortColumn(q.sort)
    ensures
      var forged := CatalogCursor(q.sort, q.dir, value, id);
      var request := q.(cursor := Some(Encode(codec, forged)));
      && !WellTyped(forged)
      && DecodeCursor(codec, request) == Ok(Some(forged))
      && (if Resumable(value) then Serve(codec, Some(table), request).Ok?
          else Serve(codec, Some(table), request) == Err(InternalServerError))
      && ((exists from :: Possible(from) && ResumesAfter(forged, from))
          <==> AdmitsNothing(forged) && HasLastPlace(q.sort, q.dir))
  {
    var forged := CatalogCursor(q.sort, q.dir, value, id);
    TokenAcceptedIffSameSort(codec, forged, q);
    PredicateResumesTheOrderIff(forged);
  }

  /** The server's own token: what follows a full page in name or diameter order is answered with 500,
      whatever the table has become, and in the other orders with a page. */
  lemma OwnTokenIsServedIff(codec: JsonCodec, db: Option<seq<Row>>, rows: seq<Row>, q: CatalogQuery)
    requires codec.Exact() && rows != []
    ensures
      var token := NextCursor(codec, rows, true, q.sort, q.dir);
      var answer := Serve(codec, db, q.(cursor := token));
      && (answer.Ok? <==> db.Some? && Nullable(q.sort))
      && (answer.Err? ==> answer == Err(InternalServerError))
  {
    var last := rows[|rows| - 1];
    var cursor := CursorFor(last, q.sort, q.dir);
    ContinuationRunsIff(last, q.sort, q.dir);
    TokenAcceptedIffSameSort(codec, cursor, q);
    ServedIff(codec, db, q.(cursor := Some(Encode(codec, cursor))), Some(cursor));
  }
}
