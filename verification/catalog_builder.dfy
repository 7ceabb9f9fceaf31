/** `src/database/catalog.rs`: the texts the query builder is given, and what they mean where they are put. */
module CatalogBuilder {
  import opened Prelude
  import opened Sql
  import opened CatalogTypes
  import opened CatalogText

  // ----- Pieces of a condition -----

  ghost predicate Narrowed(left: Expr, narrowed: Expr, keep: Row -> bool) {
    forall row :: Keeps(narrowed, row) <==> Keeps(left, row) && keep(row)
  }

  ghost predicate NarrowsTo(text: Text, keep: Row -> bool, left: Expr, more: Text) {
    exists narrowed :: ParseAndRest(left, text + more) == ParseAndRest(narrowed, more) && Narrowed(left, narrowed, keep)
  }

  /** Read after any condition and before anything, the text narrows the condition to what `keep` keeps. */
  ghost predicate Narrows(text: Text, keep: Row -> bool) {
    forall left, more :: NarrowsTo(text, keep, left, more)
  }

  ghost predicate SpoilsBetween(text: Text, before: Text, after: Text) {
    Depth(before) == 0 && Depth(after) == 0 ==> ParseStatement(before + text + after).None?
  }

  /** No text that has its own brackets balanced can be put around it to make a statement. */
  ghost predicate Spoils(text: Text) {
    forall before, after :: SpoilsBetween(text, before, after)
  }

  lemma NarrowsNothing(keep: Row -> bool)
    requires forall row :: keep(row)
    ensures Narrows([], keep)
  {
    forall left, more ensures NarrowsTo([], keep, left, more) {
      assert [] + more == more && Narrowed(left, left, keep);
    }
  }

  lemma NarrowsMore(a: Text, p: Row -> bool, b: Text, q: Row -> bool, both: Row -> bool)
    requires Narrows(a, p) && Narrows(b, q) && forall row :: both(row) == (p(row) && q(row))
    ensures Narrows(a + b, both)
  {
    forall left, more ensures NarrowsTo(a + b, both, left, more) {
      assert NarrowsTo(a, p, left, b + more);
      var once :| ParseAndRest(left, a + (b + more)) == ParseAndRest(once, b + more) && Narrowed(left, once, p);
      assert NarrowsTo(b, q, once, more);
      var twice :| ParseAndRest(once, b + more) == ParseAndRest(twice, more) && Narrowed(once, twice, q);
      assert a + b + more == a + (b + more) && Narrowed(left, twice, both);
    }
  }

  ghost predicate ReadsBefore(item: Text, e: Expr, more: Text) {
    ParsePrimary(item + more) == Some((e, more))
  }

  /** Before anything, the text is read as `e`. */
  ghost predicate ReadsAs(item: Text, e: Expr) {
    forall more :: ReadsBefore(item, e, more)
  }

  lemma NarrowsAt(item: Text, e: Expr, keep: Row -> bool, left: Expr, more: Text)
    requires ReadsBefore(item, e, more) && Narrowed(left, Both(left, e), keep)
    ensures NarrowsTo([AndWord] + item, keep, left, more)
  {
    ReadAnd(left, e, item, more);
    assert [AndWord] + item + more == [AndWord] + (item + more);
  }

  lemma NarrowsByOne(item: Text, e: Expr, keep: Row -> bool)
    requires ReadsAs(item, e)
    requires forall row :: keep(row) == Keeps(e, row)
    ensures Narrows([AndWord] + item, keep)
  {
    forall left, more ensures NarrowsTo([AndWord] + item, keep, left, more) {
      assert ReadsBefore(item, e, more) && Narrowed(left, Both(left, e), keep);
      NarrowsAt(item, e, keep, left, more);
    }
  }

  lemma UnbalancedSpoils(text: Text)
    requires Depth(text) != 0
    ensures Spoils(text)
  {
    forall before, after ensures SpoilsBetween(text, before, after) {
      DepthConcat(before, text);
      DepthConcat(before + text, after);
      if ParseStatement(before + text + after).Some? {
        StatementIsBalanced(before + text + after);
      }
    }
  }

  lemma Spoiled(text: Text, before: Text, after: Text, whole: Text)
    requires Spoils(text) && Depth(before) == 0 && Depth(after) == 0 && whole == before + text + after
    ensures ParseStatement(whole).None?
  {
    assert SpoilsBetween(text, before, after);
  }

  // ----- The texts the builder pushes -----

  function FiltersText(filters: seq<Row -> Truth>): Text {
    if filters == [] then []
    else FiltersText(filters[..|filters| - 1]) + ([AndWord] + [FilterWords(filters[|filters| - 1])])
  }

  function Comparator(dir: SortDir): Cmp {
    if dir == Asc then Gt else Lt
  }

  function IdText(dir: SortDir, id: int): Text {
    [Col(IdCol), Operator(Comparator(dir)), Bind(Integer(id))]
  }

  function TieText(column: Column, dir: SortDir, value: Value, id: int): Text {
    [Col(column), Operator(Eq), Bind(value)] + ([AndWord] + IdText(dir, id))
  }

  /** The value comparison and its tie-break, in brackets. */
  function KeysetText(column: Column, dir: SortDir, value: Value, id: int): Text {
    [Col(column), Operator(Comparator(dir)), Bind(value)]
    + ([OrWord] + ([Open] + (TieText(column, dir, value, id) + [Close])))
  }

  function NullableText(column: Column, dir: SortDir, value: Value, id: int): Text {
    if value == Null then ([AndWord] + [Col(column), IsNullWords]) + ([AndWord] + IdText(dir, id))
    else [AndWord] + ([Open] + (KeysetText(column, dir, value, id) + ([OrWord] + [Col(column), IsNullWords]) + [Close]))
  }

  /** One bracket is opened for the whole and never closed. */
  function NotNullText(column: Column, dir: SortDir, value: Value, id: int): Text {
    [AndWord] + ([Open] + KeysetText(column, dir, value, id))
  }

  /** The cursor values whose keyset text is complete: those of the columns that may be NULL. */
  predicate Resumable(value: CursorValue) {
    value.DateValue? || value.TorinoValue? || value.PalermoValue?
  }

  function CursorText(c: CatalogCursor): Text {
    var column, value := CursorColumn(c.value), CursorSqlValue(c.value);
    if Resumable(c.value) then NullableText(column, c.dir, value, c.id) else NotNullText(column, c.dir, value, c.id)
  }

  function MaybeCursorText(cursor: Option<CatalogCursor>): Text {
    if cursor.None? then [] else CursorText(cursor.value)
  }

  function Nullable(sort: SortKey): bool {
    sort != SortKey.Name && sort != Diameter
  }

  function OrderText(sort: SortKey, dir: SortDir): Text {
    [OrderByWords] + ([Col(SortColumn(sort)), Direction(dir)] + (if Nullable(sort) then [NullsLastWords] else [])
                      + ([Comma] + [Col(IdCol), Direction(dir)]))
  }

  function LimitText(limit: nat): Text {
    [LimitWord, Count(limit + 1)]
  }

  // ----- What they mean -----

  function PassTest(filters: seq<Row -> Truth>): Row -> bool {
    (r: Row) => Passes(filters, r)
  }

  predicate Passes(filters: seq<Row -> Truth>, row: Row) {
    forall i :: 0 <= i < |filters| ==> filters[i](row) == True
  }

  lemma PassesSnoc(filters: seq<Row -> Truth>, i: nat, row: Row)
    requires i < |filters|
    ensures Passes(filters[..i + 1], row) <==> Passes(filters[..i], row) && filters[i](row) == True
  {
    if Passes(filters[..i + 1], row) {
      assert filters[..i + 1][i](row) == True;
      forall k | 0 <= k < i ensures filters[..i][k](row) == True {
        assert filters[..i + 1][k](row) == True;
      }
    }
  }

  /** Pushed filters keep exactly the rows that pass them all. */
  lemma {:induction false} FiltersNarrow(filters: seq<Row -> Truth>)
    ensures Narrows(FiltersText(filters), PassTest(filters)) && Depth(FiltersText(filters)) == 0
    decreases |filters|
  {
    if filters == [] {
      NarrowsNothing(PassTest(filters));
    } else {
      var n := |filters| - 1;
      var before, test := filters[..n], filters[n];
      var item: Text := [FilterWords(test)];
      var keep := (r: Row) => test(r) == True;
      FiltersNarrow(before);
      forall more ensures ReadsBefore(item, RowTest(test), more) {
        ReadFilter(test, more);
      }
      NarrowsByOne(item, RowTest(test), keep);
      forall row ensures PassTest(filters)(row) == (PassTest(before)(row) && keep(row)) {
        PassesSnoc(filters, n, row);
        assert filters[..n + 1] == filters;
      }
      NarrowsMore(FiltersText(before), PassTest(before), [AndWord] + item, keep, PassTest(filters));
      DepthConcat(FiltersText(before), [AndWord] + item);
      DepthDrop([AndWord] + item, 2);
    }
  }

  /** The row lies strictly after that place in that column. */
  function PlaceTest(column: Column, dir: SortDir, value: Value, id: int): Row -> bool {
    (row: Row) => Before(dir, Position(value, id), Position(ColumnValue(column, row), row.id))
  }

  /** The row lies strictly after the cursor, in the column the cursor's value was read from. */
  predicate AfterCursor(c: CatalogCursor, row: Row) {
    Before(c.dir, CursorPosition(c), Position(ColumnValue(CursorColumn(c.value), row), row.id))
  }

  function AfterTest(c: CatalogCursor): Row -> bool {
    (r: Row) => AfterCursor(c, r)
  }

  function ByValue(column: Column, dir: SortDir, value: Value): Expr {
    Comparison(column, Comparator(dir), value)
  }

  function Tie(column: Column, dir: SortDir, value: Value, id: int): Expr {
    Both(Comparison(column, Eq, value), Comparison(IdCol, Comparator(dir), Integer(id)))
  }

  lemma ReadTie(column: Column, dir: SortDir, value: Value, id: int, more: Text)
    requires more != [] && more[0].Close?
    ensures ParseOr(TieText(column, dir, value, id) + more) == Some((Tie(column, dir, value, id), more))
  {
    var first := [Col(column), Operator(Eq), Bind(value)];
    var rest := [AndWord] + (IdText(dir, id) + more);
    assert TieText(column, dir, value, id) + more == first + rest;
    ReadComparison(column, Eq, value, rest);
    ReadComparison(IdCol, Comparator(dir), Integer(id), more);
    ReadAnd(Comparison(column, Eq, value), Comparison(IdCol, Comparator(dir), Integer(id)), IdText(dir, id), more);
    assert ParseAnd(first + rest) == Some((Tie(column, dir, value, id), more));
  }

  lemma ReadKeyset(column: Column, dir: SortDir, value: Value, id: int, more: Text)
    requires more != [] && !more[0].AndWord?
    ensures ParseOr(KeysetText(column, dir, value, id) + more)
      == ParseOrRest(Either(ByValue(column, dir, value), Tie(column, dir, value, id)), more)
  {
    var first := [Col(column), Operator(Comparator(dir)), Bind(value)];
    var tie := TieText(column, dir, value, id);
    var brackets := [Open] + (tie + ([Close] + more));
    var rest := [OrWord] + brackets;
    assert KeysetText(column, dir, value, id) + more == first + rest;
    ReadComparison(column, Comparator(dir), value, rest);
    assert rest[0] == OrWord && ([Close] + more)[0] == Close;
    assert ParseAnd(first + rest) == Some((ByValue(column, dir, value), rest));
    ReadTie(column, dir, value, id, [Close] + more);
    ReadBrackets(tie, Tie(column, dir, value, id), more);
    assert ParseAnd(brackets) == Some((Tie(column, dir, value, id), more));
    ReadOr(ByValue(column, dir, value), brackets, Tie(column, dir, value, id), more);
  }

  function WithNulls(column: Column, dir: SortDir, value: Value, id: int): Expr {
    Either(Either(ByValue(column, dir, value), Tie(column, dir, value, id)), IsNull(column))
  }

  lemma ReadWithNulls(column: Column, dir: SortDir, value: Value, id: int, more: Text)
    requires more != [] && more[0].Close?
    ensures ParseOr(KeysetText(column, dir, value, id) + ([OrWord] + [Col(column), IsNullWords]) + more)
      == Some((WithNulls(column, dir, value, id), more))
  {
    var keyset := KeysetText(column, dir, value, id);
    var rest := [OrWord] + ([Col(column), IsNullWords] + more);
    assert keyset + ([OrWord] + [Col(column), IsNullWords]) + more == keyset + rest && rest[0] == OrWord;
    ReadKeyset(column, dir, value, id, rest);
    ReadIsNull(column, more);
    assert ParseAnd([Col(column), IsNullWords] + more) == Some((IsNull(column), more));
    ReadOr(Either(ByValue(column, dir, value), Tie(column, dir, value, id)), [Col(column), IsNullWords] + more,
      IsNull(column), more);
    assert ParseOrRest(WithNulls(column, dir, value, id), more) == Some((WithNulls(column, dir, value, id), more));
  }

  /** The value comparison with its tie-break and the NULL tail, evaluated in three-valued logic. */
  lemma KeysetTest(column: Column, dir: SortDir, value: Value, id: int, row: Row)
    requires value != Null
    ensures Keeps(WithNulls(column, dir, value, id), row) <==> PlaceTest(column, dir, value, id)(row)
  {
    var cmp, found := Comparator(dir), ColumnValue(column, row);
    var tie := Tie(column, dir, value, id);
    assert Eval(tie, row) == Compare(Eq, found, value).And(Compare(cmp, Integer(row.id), Integer(id)));
    assert Eval(Either(ByValue(column, dir, value), tie), row) == Compare(cmp, found, value).Or(Eval(tie, row));
    assert Eval(WithNulls(column, dir, value, id), row)
      == Eval(Either(ByValue(column, dir, value), tie), row).Or(ToTruth(found == Null));
    if found != Null {
      LessTrichotomy(found, value);
    }
  }

  lemma ValueNarrows(column: Column, dir: SortDir, value: Value, id: int)
    requires value != Null
    ensures Narrows(NullableText(column, dir, value, id), PlaceTest(column, dir, value, id))
  {
    var inner := KeysetText(column, dir, value, id) + ([OrWord] + [Col(column), IsNullWords]);
    var e := WithNulls(column, dir, value, id);
    var item := [Open] + (inner + [Close]);
    forall more ensures ReadsBefore(item, e, more) {
      assert ([Close] + more)[0] == Close;
      ReadWithNulls(column, dir, value, id, [Close] + more);
      ReadBrackets(inner, e, more);
      assert item + more == [Open] + (inner + ([Close] + more));
    }
    forall row ensures PlaceTest(column, dir, value, id)(row) == Keeps(e, row) {
      KeysetTest(column, dir, value, id, row);
    }
    NarrowsByOne(item, e, PlaceTest(column, dir, value, id));
  }

  lemma NullNarrows(column: Column, dir: SortDir, id: int)
    ensures Narrows(NullableText(column, dir, Null, id), PlaceTest(column, dir, Null, id))
  {
    var isNull, after := IsNull(column), Comparison(IdCol, Comparator(dir), Integer(id));
    forall more ensures ReadsBefore([Col(column), IsNullWords], isNull, more) {
      ReadIsNull(column, more);
    }
    forall more ensures ReadsBefore(IdText(dir, id), after, more) {
      ReadComparison(IdCol, Comparator(dir), Integer(id), more);
    }
    NarrowsByOne([Col(column), IsNullWords], isNull, KeepTest(isNull));
    NarrowsByOne(IdText(dir, id), after, KeepTest(after));
    NarrowsMore([AndWord] + [Col(column), IsNullWords], KeepTest(isNull), [AndWord] + IdText(dir, id), KeepTest(after),
      PlaceTest(column, dir, Null, id));
  }

  lemma NullableNarrows(column: Column, dir: SortDir, value: Value, id: int)
    ensures Narrows(NullableText(column, dir, value, id), PlaceTest(column, dir, value, id))
  {
    if value == Null {
      NullNarrows(column, dir, id);
    } else {
      ValueNarrows(column, dir, value, id);
    }
  }

  lemma KeysetDepth(column: Column, dir: SortDir, value: Value, id: int)
    ensures Depth(KeysetText(column, dir, value, id)) == 0
  {
    var text := KeysetText(column, dir, value, id);
    DepthDrop(text, 4);
    var brackets := [Open] + (TieText(column, dir, value, id) + [Close]);
    assert text[4..] == brackets && brackets[0] == Open && brackets[1..] == TieText(column, dir, value, id) + [Close];
    DepthDrop(brackets[1..], 7);
    assert brackets[1..][7..] == [Close];
  }

  /** The text for a column that is never NULL leaves a bracket open, and spoils every statement. */
  lemma NotNullSpoils(column: Column, dir: SortDir, value: Value, id: int)
    ensures Depth(NotNullText(column, dir, value, id)) == 1 && Spoils(NotNullText(column, dir, value, id))
  {
    var text, keyset := NotNullText(column, dir, value, id), KeysetText(column, dir, value, id);
    assert text[0] == AndWord && text[1..] == [Open] + keyset && text[1..][1..] == keyset;
    KeysetDepth(column, dir, value, id);
    UnbalancedSpoils(text);
  }

  lemma CursorSpoils(c: CatalogCursor)
    requires !Resumable(c.value)
    ensures Spoils(CursorText(c))
  {
    NotNullSpoils(CursorColumn(c.value), c.dir, CursorSqlValue(c.value), c.id);
  }

  /** Exactly the cursors of the three nullable columns push a condition, which is TRUE exactly for the
      rows strictly after the cursor; the others spoil the statement. */
  lemma CursorTextMeans(c: CatalogCursor)
    ensures Resumable(c.value) ==> Narrows(CursorText(c), AfterTest(c))
    ensures !Resumable(c.value) ==> Spoils(CursorText(c))
  {
    var column, value := CursorColumn(c.value), CursorSqlValue(c.value);
    if Resumable(c.value) {
      NullableNarrows(column, c.dir, value, c.id);
      NarrowsSame(CursorText(c), PlaceTest(column, c.dir, value, c.id), AfterTest(c));
    } else {
      CursorSpoils(c);
    }
  }

  lemma NarrowsSame(text: Text, p: Row -> bool, q: Row -> bool)
    requires Narrows(text, p) && forall row :: p(row) == q(row)
    ensures Narrows(text, q)
  {
    forall left, more ensures NarrowsTo(text, q, left, more) {
      assert NarrowsTo(text, p, left, more);
      var narrowed :| ParseAndRest(left, text + more) == ParseAndRest(narrowed, more) && Narrowed(left, narrowed, p);
      assert Narrowed(left, narrowed, q);
    }
  }

  /** The terms read any two rows in `Before` order. */
  ghost predicate Orders(order: seq<OrderTerm>, sort: SortKey, dir: SortDir) {
    forall a, b :: Precedes(order, a, b) <==> Before(dir, PositionOf(sort, a), PositionOf(sort, b))
  }

  function TermsOf(sort: SortKey, dir: SortDir): seq<OrderTerm> {
    [OrderTerm(SortColumn(sort), dir, Nullable(sort))] + [OrderTerm(IdCol, dir, false)]
  }

  lemma TermsOrder(sort: SortKey, dir: SortDir)
    ensures Orders(TermsOf(sort, dir), sort, dir)
  {
    forall a, b
      ensures Precedes(TermsOf(sort, dir), a, b) <==> Before(dir, PositionOf(sort, a), PositionOf(sort, b))
    {
      OrderByMeansBefore(sort, dir, a, b);
    }
  }

  lemma OrderByMeansBefore(sort: SortKey, dir: SortDir, a: Row, b: Row)
    ensures Precedes(TermsOf(sort, dir), a, b) <==> Before(dir, PositionOf(sort, a), PositionOf(sort, b))
  {
    var order := TermsOf(sort, dir);
    assert order[1..] == [OrderTerm(IdCol, dir, false)];
    assert order[1..][1..] == [];
    assert Precedes(order[1..][1..], a, b) == false;
    assert Precedes(order[1..], a, b) == if dir == Asc then a.id < b.id else b.id < a.id;
  }

  ghost predicate ReadsTermsBefore(text: Text, terms: seq<OrderTerm>, more: Text) {
    more != [] && more[0].LimitWord? ==>
      text != [] && text[0].OrderByWords? && ParseTerms(text[1..] + more) == Some((terms, more))
  }

  /** Before a LIMIT, the text is an ORDER BY with these terms. */
  ghost predicate ReadsTerms(text: Text, terms: seq<OrderTerm>) {
    forall more: Text :: ReadsTermsBefore(text, terms, more)
  }

  lemma ReadIdTerm(dir: SortDir, more: Text)
    requires more != [] && more[0].LimitWord?
    ensures ParseTerms([Col(IdCol), Direction(dir)] + more) == Some(([OrderTerm(IdCol, dir, false)], more))
  {
    var ts := [Col(IdCol), Direction(dir)] + more;
    assert ts[0] == Col(IdCol) && ts[1] == Direction(dir) && ts[2..] == more;
    assert ParseTerm(ts) == Some((OrderTerm(IdCol, dir, false), more));
  }

  lemma ReadSortTerm(column: Column, dir: SortDir, nullable: bool, more: Text)
    requires more != [] && more[0].Comma?
    ensures ParseTerm([Col(column), Direction(dir)] + (if nullable then [NullsLastWords] else []) + more)
      == Some((OrderTerm(column, dir, nullable), more))
  {
    var nulls := if nullable then [NullsLastWords] else [];
    var ts := [Col(column), Direction(dir)] + nulls + more;
    assert ts[0] == Col(column) && ts[1] == Direction(dir) && ts[2 + |nulls|..] == more;
    assert ts[2] == if nullable then NullsLastWords else more[0];
  }

  lemma OrderReads(sort: SortKey, dir: SortDir)
    ensures ReadsTerms(OrderText(sort, dir), TermsOf(sort, dir))
  {
    forall more: Text ensures ReadsTermsBefore(OrderText(sort, dir), TermsOf(sort, dir), more) {
      if more != [] && more[0].LimitWord? {
        ReadOrder(sort, dir, more);
      }
    }
  }

  lemma ReadOrder(sort: SortKey, dir: SortDir, more: Text)
    requires more != [] && more[0].LimitWord?
    ensures ReadsTermsBefore(OrderText(sort, dir), TermsOf(sort, dir), more)
  {
    var last := [Col(IdCol), Direction(dir)] + more;
    var rest := [Comma] + last;
    var nulls := if Nullable(sort) then [NullsLastWords] else [];
    var first := [Col(SortColumn(sort)), Direction(dir)] + nulls;
    assert OrderText(sort, dir)[1..] == first + ([Comma] + [Col(IdCol), Direction(dir)]);
    assert OrderText(sort, dir)[1..] + more == first + rest;
    ReadIdTerm(dir, more);
    assert rest[0] == Comma && rest[1..] == last;
    ReadSortTerm(SortColumn(sort), dir, Nullable(sort), rest);
  }

  // ----- The builder -----

  /** Words and bound values up to the comparison of ids, as they are pushed in turn. */
  function KeysetPushed(text: Text, column: Column, dir: SortDir, value: Value, id: int): Text {
    TiePushed(text + [AndWord, Open, Col(column), Operator(Comparator(dir))] + [Bind(value)], column, dir, value, id)
  }

  function TiePushed(text: Text, column: Column, dir: SortDir, value: Value, id: int): Text {
    text + [OrWord, Open, Col(column), Operator(Eq)] + [Bind(value)]
    + [AndWord, Col(IdCol), Operator(Comparator(dir))] + [Bind(Integer(id))]
  }

  lemma TieIsPushed(text: Text, column: Column, dir: SortDir, value: Value, id: int)
    ensures TiePushed(text, column, dir, value, id) == text + ([OrWord] + ([Open] + TieText(column, dir, value, id)))
  {
  }

  lemma KeysetIsPushed(text: Text, column: Column, dir: SortDir, value: Value, id: int)
    ensures KeysetPushed(text, column, dir, value, id) + [Close] == text + NotNullText(column, dir, value, id)
  {
    var first := [AndWord, Open, Col(column), Operator(Comparator(dir))] + [Bind(value)];
    var tie := TieText(column, dir, value, id);
    TieIsPushed(text + first, column, dir, value, id);
    assert text + [AndWord, Open, Col(column), Operator(Comparator(dir))] + [Bind(value)] == text + first;
    assert NotNullText(column, dir, value, id) == first + ([OrWord] + ([Open] + (tie + [Close])));
    assert [OrWord] + ([Open] + (tie + [Close])) == [OrWord] + ([Open] + tie) + [Close];
    Regroup(text, first, [OrWord] + ([Open] + tie), [Close]);
  }

  lemma Regroup(a: Text, b: Text, c: Text, d: Text)
    ensures a + b + c + d == a + (b + (c + d))
  {
  }

  lemma ValuePushed(text: Text, column: Column, dir: SortDir, value: Value, id: int)
    requires value != Null
    ensures KeysetPushed(text, column, dir, value, id) + [Close, OrWord, Col(column), IsNullWords, Close]
      == text + NullableText(column, dir, value, id)
  {
    var nulls := [OrWord] + [Col(column), IsNullWords];
    var keyset, notNull := KeysetText(column, dir, value, id), NotNullText(column, dir, value, id);
    KeysetIsPushed(text, column, dir, value, id);
    assert [Close, OrWord, Col(column), IsNullWords, Close] == [Close] + (nulls + [Close]);
    BracketsAround(keyset, nulls);
    Regroup(KeysetPushed(text, column, dir, value, id), [Close], nulls, [Close]);
    Regroup(text, notNull, nulls, [Close]);
  }

  lemma BracketsAround(keyset: Text, nulls: Text)
    ensures [AndWord] + ([Open] + (keyset + nulls + [Close])) == [AndWord] + ([Open] + keyset) + (nulls + [Close])
  {
  }

  lemma NullPushed(text: Text, column: Column, dir: SortDir, id: int)
    ensures
      text + [AndWord, Col(column), IsNullWords, AndWord, Col(IdCol), Operator(Comparator(dir))] + [Bind(Integer(id))]
      == text + NullableText(column, dir, Null, id)
  {
    assert NullableText(column, dir, Null, id)
      == [AndWord, Col(column), IsNullWords, AndWord, Col(IdCol), Operator(Comparator(dir))] + [Bind(Integer(id))];
  }

  lemma OrderPushed(text: Text, sort: SortKey, dir: SortDir)
    ensures
      var first := text + [OrderByWords, Col(SortColumn(sort)), Direction(dir)];
      (if Nullable(sort) then first + [NullsLastWords] else first) + [Comma, Col(IdCol), Direction(dir)]
      == text + OrderText(sort, dir)
  {
  }

  class QueryBuilder {
    var text: Text

    /** The static part of the query ends in `WHERE 1=1`. */
    constructor ()
      ensures text == [OneIsOne]
    {
      text := [OneIsOne];
    }

    method Push(words: Text)
      modifies this
      ensures text == old(text) + words
    {
      text := text + words;
    }

    method PushBind(value: Value)
      modifies this
      ensures text == old(text) + [Bind(value)]
    {
      text := text + [Bind(value)];
    }

    method PushFilters(filters: seq<Row -> Truth>)
      modifies this
      ensures text == old(text) + FiltersText(filters)
      ensures Narrows(FiltersText(filters), PassTest(filters))
    {
      for i := 0 to |filters|
        invariant text == old(text) + FiltersText(filters[..i])
      {
        Push([AndWord] + [FilterWords(filters[i])]);
        assert filters[..i + 1][..i] == filters[..i];
      }
      assert filters[..|filters|] == filters;
      FiltersNarrow(filters);
    }

    /** Appends two terms; as the whole ORDER BY they read rows in `Before` order. */
    method PushOrderBy(sort: SortKey, dir: SortDir)
      modifies this
      ensures text == old(text) + OrderText(sort, dir)
      ensures ReadsTerms(OrderText(sort, dir), TermsOf(sort, dir)) && Orders(TermsOf(sort, dir), sort, dir)
    {
      var column, nullable;
      match sort {
        case ApproachActivity => column, nullable := LatestDateCol, true;
        case Name => column, nullable := NameCol, false;
        case Diameter => column, nullable := DiameterCol, false;
        case Torino => column, nullable := TorinoCol, true;
        case Palermo => column, nullable := PalermoCol, true;
      }
      Push([OrderByWords, Col(column), Direction(dir)]);
      if nullable {
        Push([NullsLastWords]);
      }
      Push([Comma, Col(IdCol), Direction(dir)]);
      assert column == SortColumn(sort) && nullable == Nullable(sort);
      OrderPushed(old(text), sort, dir);
      OrderReads(sort, dir);
      TermsOrder(sort, dir);
    }

    /** `value` NULL means the cursor is already inside the NULL tail. */
    method PushNullableKeyset(column: Column, dir: SortDir, value: Value, id: int)
      modifies this
      ensures text == old(text) + NullableText(column, dir, value, id)
      ensures Narrows(NullableText(column, dir, value, id), PlaceTest(column, dir, value, id))
    {
      var cmp := if dir == Asc then Gt else Lt;
      match value {
        case Null =>
          Push([AndWord, Col(column), IsNullWords, AndWord, Col(IdCol), Operator(cmp)]);
          PushBind(Integer(id));
          NullPushed(old(text), column, dir, id);
        case _ =>
          Push([AndWord, Open, Col(column), Operator(cmp)]);
          PushBind(value);
          Push([OrWord, Open, Col(column), Operator(Eq)]);
          PushBind(value);
          Push([AndWord, Col(IdCol), Operator(cmp)]);
          PushBind(Integer(id));
          Push([Close, OrWord, Col(column), IsNullWords, Close]);
          ValuePushed(old(text), column, dir, value, id);
      }
      NullableNarrows(column, dir, value, id);
    }

    /** The same without the NULL test, and without the bracket that would end it. */
    method PushNotNullKeyset(column: Column, dir: SortDir, value: Value, id: int)
      modifies this
      ensures text == old(text) + NotNullText(column, dir, value, id)
      ensures Spoils(NotNullText(column, dir, value, id))
    {
      var cmp := if dir == Asc then Gt else Lt;
      Push([AndWord, Open, Col(column), Operator(cmp)]);
      PushBind(value);
      Push([OrWord, Open, Col(column), Operator(Eq)]);
      PushBind(value);
      Push([AndWord, Col(IdCol), Operator(cmp)]);
      PushBind(Integer(id));
      Push([Close]);
      KeysetIsPushed(old(text), column, dir, value, id);
      NotNullSpoils(column, dir, value, id);
    }

    /** For a date, Torino or Palermo cursor, adds exactly the condition "strictly after the cursor". For
        a text or diameter cursor, makes the statement one that cannot be read. */
    method PushKeysetPredicate(cursor: CatalogCursor)
      modifies this
      ensures text == old(text) + CursorText(cursor)
      ensures Resumable(cursor.value) ==> Narrows(CursorText(cursor), AfterTest(cursor))
      ensures !Resumable(cursor.value) ==> Spoils(CursorText(cursor))
    {
      match cursor.value {
        case DateValue(v) => PushNullableKeyset(LatestDateCol, cursor.dir, OfInt(v), cursor.id);
        case TorinoValue(v) => PushNullableKeyset(TorinoCol, cursor.dir, OfInt(v), cursor.id);
        case PalermoValue(v) => PushNullableKeyset(PalermoCol, cursor.dir, OfDouble(v), cursor.id);
        case TextValue(v) => PushNotNullKeyset(NameCol, cursor.dir, Text(v), cursor.id);
        case DiameterValue(v) => PushNotNullKeyset(DiameterCol, cursor.dir, Double(v), cursor.id);
      }
      CursorTextMeans(cursor);
    }
  }
}
