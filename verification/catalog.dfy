/** `src/database/catalog.rs`: the listing query, run by Postgres. */
module Catalog {
  import opened Prelude
  import opened Sql
  import opened CatalogTypes
  import opened CatalogBuilder
  import opened CatalogText

  /** Sorting as a database may do it; `SortIsTheOnlyOrder` shows that nothing depends on how. */
  function Insert(before: (Row, Row) -> bool, x: Row, s: seq<Row>): seq<Row> {
    if s == [] then [x]
    else if before(x, s[0]) then [x] + s
    else [s[0]] + Insert(before, x, s[1..])
  }

  function Sort(before: (Row, Row) -> bool, s: seq<Row>): seq<Row> {
    if s == [] then [] else Insert(before, s[0], Sort(before, s[1..]))
  }


  function OrderTest(order: seq<OrderTerm>): (Row, Row) -> bool {
    (a: Row, b: Row) => Precedes(order, a, b)
  }

  /** `SELECT ... FROM table WHERE where ORDER BY order LIMIT limit`. */
  function Select(table: seq<Row>, where: Expr, order: seq<OrderTerm>, limit: nat): seq<Row> {
    Take(limit, Sort(OrderTest(order), Filter(KeepTest(where), table)))
  }

  datatype QueryError = SyntaxError | NoAnswer

  /** Postgres given a text: `db` is the table, or nothing while the database does not answer. */
  function Execute(db: Option<seq<Row>>, text: Text): Result<seq<Row>, QueryError> {
    if db.None? then Err(NoAnswer)
    else
      var statement := ParseStatement(text);
      if statement.None? then Err(SyntaxError)
      else Ok(Select(db.value, statement.value.where, statement.value.order, statement.value.limit))
  }

  // ----- The listing -----

  /** Filters are arbitrary three-valued tests of a row, one per pushed filter conjunct. */
  datatype ListParams = ListParams(
    cursor: Option<CatalogCursor>, sort: SortKey, dir: SortDir,
    filters: seq<Row -> Truth>, limit: nat)

  function Ordering(sort: SortKey, dir: SortDir): (Row, Row) -> bool {
    (a: Row, b: Row) => Before(dir, PositionOf(sort, a), PositionOf(sort, b))
  }

  /** The whole filtered catalog in reading order. */
  function Listing(table: seq<Row>, filters: seq<Row -> Truth>, sort: SortKey, dir: SortDir): seq<Row> {
    Sort(Ordering(sort, dir), Filter(PassTest(filters), table))
  }

  /** What is left of the listing after the cursor. */
  function Remaining(table: seq<Row>, p: ListParams): seq<Row> {
    var all := Listing(table, p.filters, p.sort, p.dir);
    if p.cursor.None? then all else Filter(AfterTest(p.cursor.value), all)
  }

  /** One page: at most `limit` of the remaining rows, and whether any are left over. */
  function PageOf(table: seq<Row>, p: ListParams): (seq<Row>, bool) {
    var rest := Remaining(table, p);
    (Take(p.limit, rest), |rest| > p.limit)
  }

  /** `id` is the primary key of `asteroids`. */
  ghost predicate Keyed(table: seq<Row>) {
    forall i, j :: 0 <= i < j < |table| ==> table[i].id != table[j].id
  }

  /** The query can be run from this cursor. */
  predicate Runs(cursor: Option<CatalogCursor>) {
    cursor.None? || Resumable(cursor.value.value)
  }

  /** The answer to one listing: the page, or an error when the text is no statement or the database does
      not answer. */
  function Answer(db: Option<seq<Row>>, p: ListParams): Result<(seq<Row>, bool), QueryError> {
    if db.None? then Err(NoAnswer)
    else if !Runs(p.cursor) then Err(SyntaxError)
    else Ok(PageOf(db.value, p))
  }

  function ConditionText(p: ListParams): Text {
    FiltersText(p.filters) + MaybeCursorText(p.cursor)
  }

  /** All that is pushed after the static part of the query. */
  function StatementText(p: ListParams): Text {
    [OneIsOne] + ConditionText(p) + (OrderText(p.sort, p.dir) + LimitText(p.limit))
  }

  function WantTest(p: ListParams): Row -> bool {
    (row: Row) => Passes(p.filters, row) && (p.cursor.Some? ==> AfterCursor(p.cursor.value, row))
  }

  /** The clauses mean what the parameters ask for, row by row. */
  ghost predicate Selects(p: ListParams, s: Statement) {
    && (forall row :: Keeps(s.where, row) <==> WantTest(p)(row))
    && Orders(s.order, p.sort, p.dir)
    && s.limit == p.limit + 1
  }

  lemma ConditionNarrows(p: ListParams)
    requires Runs(p.cursor)
    ensures Narrows(ConditionText(p), WantTest(p))
  {
    FiltersNarrow(p.filters);
    if p.cursor.None? {
      assert ConditionText(p) == FiltersText(p.filters);
      NarrowsSame(FiltersText(p.filters), PassTest(p.filters), WantTest(p));
    } else {
      CursorTextMeans(p.cursor.value);
      NarrowsMore(FiltersText(p.filters), PassTest(p.filters), CursorText(p.cursor.value), AfterTest(p.cursor.value),
        WantTest(p));
    }
  }

  /** A condition before an ORDER BY is read to its end. */
  lemma ReadCondition(text: Text, keep: Row -> bool, more: Text) returns (e: Expr)
    requires Narrows(text, keep) && more != [] && more[0].OrderByWords?
    ensures ParseOr([OneIsOne] + text + more) == Some((e, more))
    ensures forall row :: Keeps(e, row) <==> keep(row)
  {
    var ts := [OneIsOne] + text + more;
    assert ts[0] == OneIsOne && ts[1..] == text + more;
    assert NarrowsTo(text, keep, Always, more);
    e :| ParseAndRest(Always, text + more) == ParseAndRest(e, more) && Narrowed(Always, e, keep);
    assert ParseAnd(ts) == Some((e, more));
  }

  /** What the whole text is read as. */
  lemma StatementMeans(p: ListParams) returns (s: Statement)
    requires Runs(p.cursor)
    ensures ParseStatement(StatementText(p)) == Some(s) && Selects(p, s)
  {
    var limit := LimitText(p.limit);
    var rest := OrderText(p.sort, p.dir) + limit;
    ConditionNarrows(p);
    ReadOrder(p.sort, p.dir, limit);
    assert rest[0] == OrderByWords && rest[1..] == OrderText(p.sort, p.dir)[1..] + limit;
    var where := ReadCondition(ConditionText(p), WantTest(p), rest);
    TermsOrder(p.sort, p.dir);
    s := Statement(where, TermsOf(p.sort, p.dir), p.limit + 1);
  }

  lemma OrderDepth(sort: SortKey, dir: SortDir, limit: nat)
    ensures Depth(OrderText(sort, dir) + LimitText(limit)) == 0
  {
    var text := OrderText(sort, dir) + LimitText(limit);
    assert forall i :: 0 <= i < |text| ==> Step(text[i]) == 0;
    DepthDrop(text, |text|);
  }

  lemma FiltersDepth(filters: seq<Row -> Truth>)
    ensures Depth([OneIsOne] + FiltersText(filters)) == 0
  {
    FiltersNarrow(filters);
    var text := [OneIsOne] + FiltersText(filters);
    assert text[0] == OneIsOne && text[1..] == FiltersText(filters);
  }

  lemma StatementAround(p: ListParams)
    requires p.cursor.Some?
    ensures StatementText(p)
      == ([OneIsOne] + FiltersText(p.filters)) + CursorText(p.cursor.value)
         + (OrderText(p.sort, p.dir) + LimitText(p.limit))
  {
    var a, b, c := [OneIsOne], FiltersText(p.filters), CursorText(p.cursor.value);
    assert a + (b + c) == (a + b) + c;
  }

  /** From a text or diameter cursor there is no statement. */
  lemma StatementIsSpoiled(p: ListParams)
    requires !Runs(p.cursor)
    ensures ParseStatement(StatementText(p)).None?
  {
    StatementAround(p);
    FiltersDepth(p.filters);
    OrderDepth(p.sort, p.dir, p.limit);
    CursorSpoils(p.cursor.value);
    Spoiled(CursorText(p.cursor.value), [OneIsOne] + FiltersText(p.filters),
      OrderText(p.sort, p.dir) + LimitText(p.limit), StatementText(p));
  }

  lemma ExecuteAnswers(db: Option<seq<Row>>, p: ListParams)
    requires db.Some? ==> Keyed(db.value)
    ensures
      var r := Execute(db, StatementText(p));
      Answer(db, p) == if r.Err? then Err(r.error) else Ok((Take(p.limit, r.value), |r.value| > p.limit))
  {
    if db.Some? {
      if Runs(p.cursor) {
        var s := StatementMeans(p);
        PageFromSelect(db.value, p, s);
      } else {
        StatementIsSpoiled(p);
      }
    }
  }

  /** The pieces in the order they are pushed. */
  lemma StatementPushed(p: ListParams)
    ensures [OneIsOne] + FiltersText(p.filters) + MaybeCursorText(p.cursor) + OrderText(p.sort, p.dir)
      + [LimitWord] + [Count(p.limit + 1)]
      == StatementText(p)
    ensures [OneIsOne] + FiltersText(p.filters) + [] == [OneIsOne] + FiltersText(p.filters)
  {
    var a, b, c, d := [OneIsOne], FiltersText(p.filters), MaybeCursorText(p.cursor), OrderText(p.sort, p.dir);
    assert LimitText(p.limit) == [LimitWord] + [Count(p.limit + 1)];
    assert a + b + c == a + (b + c);
    Regroup(a + (b + c), d, [LimitWord], [Count(p.limit + 1)]);
  }

  /** The text the builder assembles, run by Postgres: the page if there is no cursor or a date, Torino or
      Palermo cursor, and a syntax error if there is a text or diameter cursor. */
  method List(db: Option<seq<Row>>, params: ListParams) returns (r: Result<(seq<Row>, bool), QueryError>)
    requires db.Some? ==> Keyed(db.value)
    ensures r == Answer(db, params)
    ensures r.Ok? <==> db.Some? && Runs(params.cursor)
    ensures r.Ok? ==> r.value == PageOf(db.value, params)
  {
    var query := new QueryBuilder();
    query.PushFilters(params.filters);
    if params.cursor.Some? {
      query.PushKeysetPredicate(params.cursor.value);
    }
    query.PushOrderBy(params.sort, params.dir);
    query.Push([LimitWord]);
    query.Push([Count(params.limit + 1)]);
    assert query.text == StatementText(params) by {
      StatementPushed(params);
    }
    ExecuteAnswers(db, params);
    var rows := Execute(db, query.text);
    if rows.Err? {
      return Err(rows.error);
    }
    var hasMore := |rows.value| > params.limit;
    return Ok((Take(params.limit, rows.value), hasMore));
  }

  // ----- Sorting facts -----

  ghost predicate Sorted(sort: SortKey, dir: SortDir, s: seq<Row>) {
    forall i, j :: 0 <= i < j < |s| ==> Before(dir, PositionOf(sort, s[i]), PositionOf(sort, s[j]))
  }

  lemma {:induction false} InsertPermutes(before: (Row, Row) -> bool, x: Row, s: seq<Row>)
    ensures multiset(Insert(before, x, s)) == multiset{x} + multiset(s)
  {
    if s != [] {
      assert s == [s[0]] + s[1..];
      InsertPermutes(before, x, s[1..]);
    }
  }

  lemma {:induction false} SortPermutes(before: (Row, Row) -> bool, s: seq<Row>)
    ensures multiset(Sort(before, s)) == multiset(s)
  {
    if s != [] {
      assert s == [s[0]] + s[1..];
      SortPermutes(before, s[1..]);
      InsertPermutes(before, s[0], Sort(before, s[1..]));
    }
  }

  lemma InsertIn(before: (Row, Row) -> bool, x: Row, s: seq<Row>, y: Row)
    ensures y in Insert(before, x, s) <==> y == x || y in s
  {
    InsertPermutes(before, x, s);
    assert y in Insert(before, x, s) <==> y in multiset(Insert(before, x, s));
    assert y in s <==> y in multiset(s);
  }

  lemma SortIn(before: (Row, Row) -> bool, s: seq<Row>, y: Row)
    ensures y in Sort(before, s) <==> y in s
  {
    SortPermutes(before, s);
    assert y in Sort(before, s) <==> y in multiset(Sort(before, s));
    assert y in s <==> y in multiset(s);
  }

  lemma {:induction false} SortAgree(p: (Row, Row) -> bool, q: (Row, Row) -> bool, s: seq<Row>)
    requires forall a, b :: p(a, b) == q(a, b)
    ensures Sort(p, s) == Sort(q, s)
  {
    if s != [] {
      SortAgree(p, q, s[1..]);
      InsertAgree(p, q, s[0], Sort(p, s[1..]));
    }
  }

  lemma {:induction false} InsertAgree(p: (Row, Row) -> bool, q: (Row, Row) -> bool, x: Row, s: seq<Row>)
    requires forall a, b :: p(a, b) == q(a, b)
    ensures Insert(p, x, s) == Insert(q, x, s)
  {
    if s != [] {
      InsertAgree(p, q, x, s[1..]);
    }
  }

  lemma {:induction false} InsertSorted(sort: SortKey, dir: SortDir, x: Row, s: seq<Row>)
    requires Sorted(sort, dir, s)
    requires forall y :: y in s ==> y.id != x.id
    ensures Sorted(sort, dir, Insert(Ordering(sort, dir), x, s))
  {
    if s != [] {
      var px, p0 := PositionOf(sort, x), PositionOf(sort, s[0]);
      BeforeTotal(dir, px, p0);
      if Before(dir, px, p0) {
        forall j | 0 < j < |s| ensures Before(dir, px, PositionOf(sort, s[j])) {
          BeforeTransitive(dir, px, p0, PositionOf(sort, s[j]));
        }
      } else {
        assert s[0] in s;
        forall y | y in s[1..] ensures y.id != x.id {
          assert y in s;
        }
        InsertSorted(sort, dir, x, s[1..]);
        var rest := Insert(Ordering(sort, dir), x, s[1..]);
        forall y | y in rest ensures Before(dir, p0, PositionOf(sort, y)) {
          InsertIn(Ordering(sort, dir), x, s[1..], y);
        }
      }
    }
  }

  lemma {:induction false} SortSorted(sort: SortKey, dir: SortDir, s: seq<Row>)
    requires Keyed(s)
    ensures Sorted(sort, dir, Sort(Ordering(sort, dir), s))
  {
    if s != [] {
      SortSorted(sort, dir, s[1..]);
      var rest := Sort(Ordering(sort, dir), s[1..]);
      forall y | y in rest ensures y.id != s[0].id {
        SortIn(Ordering(sort, dir), s[1..], y);
      }
      InsertSorted(sort, dir, s[0], rest);
    }
  }

  lemma {:induction false} FilterInsert(keep: Row -> bool, sort: SortKey, dir: SortDir, x: Row, s: seq<Row>)
    requires Sorted(sort, dir, s)
    requires forall y :: y in s ==> y.id != x.id
    ensures Filter(keep, Insert(Ordering(sort, dir), x, s))
      == if keep(x) then Insert(Ordering(sort, dir), x, Filter(keep, s)) else Filter(keep, s)
  {
    var before := Ordering(sort, dir);
    if s == [] {
    } else if before(x, s[0]) {
      assert ([x] + s)[1..] == s;
      var kept := Filter(keep, s);
      if keep(x) && kept != [] {
        FilterIn(keep, s, kept[0]);
        var j :| 0 <= j < |s| && s[j] == kept[0];
        if j > 0 {
          BeforeTransitive(dir, PositionOf(sort, x), PositionOf(sort, s[0]), PositionOf(sort, s[j]));
        }
      }
    } else {
      forall y | y in s[1..] ensures y.id != x.id {
        assert y in s;
      }
      FilterInsert(keep, sort, dir, x, s[1..]);
      var rest := Insert(before, x, s[1..]);
      assert ([s[0]] + rest)[1..] == rest;
      if keep(s[0]) {
        assert Filter(keep, s) == [s[0]] + Filter(keep, s[1..]);
        assert ([s[0]] + Filter(keep, s[1..]))[1..] == Filter(keep, s[1..]);
      }
    }
  }

  lemma {:induction false} FilterKeyed(keep: Row -> bool, s: seq<Row>)
    requires Keyed(s)
    ensures Keyed(Filter(keep, s))
  {
    if s != [] {
      FilterKeyed(keep, s[1..]);
      var rest := Filter(keep, s[1..]);
      forall j | 0 <= j < |rest| ensures rest[j].id != s[0].id {
        FilterIn(keep, s[1..], rest[j]);
      }
    }
  }

  /** Filtering before sorting and after sorting give the same rows. */
  lemma {:induction false} FilterSort(keep: Row -> bool, sort: SortKey, dir: SortDir, s: seq<Row>)
    requires Keyed(s)
    ensures Filter(keep, Sort(Ordering(sort, dir), s)) == Sort(Ordering(sort, dir), Filter(keep, s))
  {
    if s != [] {
      FilterSort(keep, sort, dir, s[1..]);
      var rest := Sort(Ordering(sort, dir), s[1..]);
      SortSorted(sort, dir, s[1..]);
      forall y | y in rest ensures y.id != s[0].id {
        SortIn(Ordering(sort, dir), s[1..], y);
      }
      FilterInsert(keep, sort, dir, s[0], rest);
      if keep(s[0]) {
        assert Filter(keep, s) == [s[0]] + Filter(keep, s[1..]);
        assert ([s[0]] + Filter(keep, s[1..]))[1..] == Filter(keep, s[1..]);
      }
    }
  }

  lemma {:induction false} FilterFilter(p: Row -> bool, q: Row -> bool, s: seq<Row>)
    ensures Filter(q, Filter(p, s)) == Filter(r => p(r) && q(r), s)
  {
    if s != [] {
      FilterFilter(p, q, s[1..]);
      if p(s[0]) {
        assert Filter(p, s) == [s[0]] + Filter(p, s[1..]);
        assert ([s[0]] + Filter(p, s[1..]))[1..] == Filter(p, s[1..]);
      }
    }
  }

  // ----- What the order is, column by column -----

  /** Rows that have a value come first; among them the values go the asked way, and ids break ties. */
  predicate NumbersInOrder(dir: SortDir, a: Option<int>, b: Option<int>, idA: int, idB: int) {
    if a == b then (if dir == Asc then idA < idB else idA > idB)
    else if a.None? || b.None? then b.None?
    else if dir == Asc then a.value < b.value
    else a.value > b.value
  }

  predicate RowsInOrder(sort: SortKey, dir: SortDir, a: Row, b: Row) {
    match sort
    case ApproachActivity => NumbersInOrder(dir, a.latest, b.latest, a.id, b.id)
    case Torino => NumbersInOrder(dir, a.torino, b.torino, a.id, b.id)
    case Palermo => NumbersInOrder(dir, a.palermo, b.palermo, a.id, b.id)
    case Diameter => NumbersInOrder(dir, Some(a.diameter), Some(b.diameter), a.id, b.id)
    case Name =>
      if a.name == b.name then (if dir == Asc then a.id < b.id else a.id > b.id)
      else if dir == Asc then TextLess(a.name, b.name)
      else TextLess(b.name, a.name)
  }

  lemma BeforeIsInOrder(sort: SortKey, dir: SortDir, a: Row, b: Row)
    ensures Before(dir, PositionOf(sort, a), PositionOf(sort, b)) <==> RowsInOrder(sort, dir, a, b)
  {
  }

  lemma RemainingSorted(table: seq<Row>, p: ListParams)
    requires Keyed(table)
    ensures Sorted(p.sort, p.dir, Remaining(table, p))
  {
    var passed := Filter(PassTest(p.filters), table);
    FilterKeyed(PassTest(p.filters), table);
    SortSorted(p.sort, p.dir, passed);
    if p.cursor.Some? {
      var after := AfterTest(p.cursor.value);
      FilterSort(after, p.sort, p.dir, passed);
      FilterKeyed(after, passed);
      SortSorted(p.sort, p.dir, Filter(after, passed));
    }
  }

  /** The rows of any page are in the order asked for, seen in the columns themselves. */
  lemma PageIsInOrder(table: seq<Row>, p: ListParams, i: nat, j: nat)
    requires Keyed(table) && i < j < |PageOf(table, p).0|
    ensures RowsInOrder(p.sort, p.dir, PageOf(table, p).0[i], PageOf(table, p).0[j])
  {
    RemainingSorted(table, p);
    var rest := Remaining(table, p);
    assert PageOf(table, p).0[i] == rest[i] && PageOf(table, p).0[j] == rest[j];
    BeforeIsInOrder(p.sort, p.dir, rest[i], rest[j]);
  }

  /** Two listings of the same rows in reading order are equal, so any sort Postgres runs
      returns the same sequence. */
  lemma {:induction false} SortIsTheOnlyOrder(sort: SortKey, dir: SortDir, a: seq<Row>, b: seq<Row>)
    requires Sorted(sort, dir, a) && Sorted(sort, dir, b)
    requires multiset(a) == multiset(b)
    ensures a == b
  {
    if a == [] {
      assert |multiset(b)| == 0;
    } else {
      assert |multiset(b)| > 0;
      SameHead(sort, dir, a, b);
      TailMultiset(a);
      TailMultiset(b);
      SortIsTheOnlyOrder(sort, dir, a[1..], b[1..]);
    }
  }

  lemma TailMultiset(s: seq<Row>)
    requires s != []
    ensures multiset(s[1..]) == multiset(s) - multiset{s[0]}
  {
    assert s == [s[0]] + s[1..];
  }

  lemma SameHead(sort: SortKey, dir: SortDir, a: seq<Row>, b: seq<Row>)
    requires Sorted(sort, dir, a) && Sorted(sort, dir, b)
    requires multiset(a) == multiset(b) && a != [] && b != []
    ensures a[0] == b[0]
  {
    assert a[0] in multiset(b) && b[0] in multiset(a);
    var i :| 0 <= i < |b| && b[i] == a[0];
    var j :| 0 <= j < |a| && a[j] == b[0];
    if i != 0 && j != 0 {
      BeforeTotal(dir, PositionOf(sort, a[0]), PositionOf(sort, b[0]));
      assert false;
    }
  }

  lemma SelectIsRemaining(table: seq<Row>, p: ListParams, s: Statement)
    requires Keyed(table)
    requires Selects(p, s)
    ensures Select(table, s.where, s.order, s.limit) == Take(p.limit + 1, Remaining(table, p))
  {
    SortAgree(OrderTest(s.order), Ordering(p.sort, p.dir), Filter(KeepTest(s.where), table));
    FilterAgree(KeepTest(s.where), WantTest(p), table);
    if p.cursor.None? {
      FilterAgree(PassTest(p.filters), WantTest(p), table);
    } else {
      var passes, after := PassTest(p.filters), AfterTest(p.cursor.value);
      FilterKeyed(passes, table);
      FilterSort(after, p.sort, p.dir, Filter(passes, table));
      FilterFilter(passes, after, table);
      FilterAgree(r => passes(r) && after(r), WantTest(p), table);
    }
  }

  lemma PageFromSelect(table: seq<Row>, p: ListParams, s: Statement)
    requires Keyed(table)
    requires Selects(p, s)
    ensures
      var rows := Select(table, s.where, s.order, s.limit);
      (Take(p.limit, rows), |rows| > p.limit) == PageOf(table, p)
  {
    var rows := Select(table, s.where, s.order, s.limit);
    var rest := Remaining(table, p);
    assert rows == Take(p.limit + 1, rest) by {
      SelectIsRemaining(table, p, s);
    }
    TakeTake(p.limit, rest);
    assert PageOf(table, p) == (Take(p.limit, rest), |rest| > p.limit);
  }
}
