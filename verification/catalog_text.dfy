/** The text of the listing query from its WHERE on: tokens, the grammar by which Postgres reads them,
    and what a text that can be read means. */
module CatalogText {
  import opened Prelude
  import opened Sql
  import opened CatalogTypes

  /** `Always` is the `1=1` the WHERE starts with; a filter conjunct is a three-valued test. */
  datatype Expr =
    | Always
    | Comparison(column: Column, op: Cmp, bound: Value)
    | IsNull(column: Column)
    | RowTest(test: Row -> Truth)
    | Both(left: Expr, right: Expr)
    | Either(left: Expr, right: Expr)

  function Eval(e: Expr, row: Row): Truth {
    match e
    case Always => True
    case Comparison(c, op, v) => Compare(op, ColumnValue(c, row), v)
    case IsNull(c) => ToTruth(ColumnValue(c, row) == Null)
    case RowTest(t) => t(row)
    case Both(l, r) => Eval(l, row).And(Eval(r, row))
    case Either(l, r) => Eval(l, row).Or(Eval(r, row))
  }

  /** A WHERE clause keeps a row only when it is TRUE: FALSE and UNKNOWN both drop it. */
  predicate Keeps(e: Expr, row: Row) {
    Eval(e, row) == True
  }

  function KeepTest(where: Expr): Row -> bool {
    (r: Row) => Keeps(where, r)
  }

  datatype OrderTerm = OrderTerm(column: Column, dir: SortDir, nullsLast: bool)

  /** Postgres places nulls last when asked to, and otherwise last for ASC and first for DESC. */
  predicate TermBefore(t: OrderTerm, a: Value, b: Value) {
    if a == b then false
    else if a == Null then !(t.nullsLast || t.dir == Asc)
    else if b == Null then t.nullsLast || t.dir == Asc
    else if t.dir == Asc then Less(a, b)
    else Less(b, a)
  }

  predicate Precedes(order: seq<OrderTerm>, a: Row, b: Row) {
    if order == [] then false
    else
      var x, y := ColumnValue(order[0].column, a), ColumnValue(order[0].column, b);
      if x == y then Precedes(order[1..], a, b) else TermBefore(order[0], x, y)
  }

  /** A bound value is a token of its own, and so is the text of a whole filter. */
  datatype Token =
    | OneIsOne
    | Open
    | Close
    | AndWord
    | OrWord
    | Col(column: Column)
    | Operator(op: Cmp)
    | Bind(value: Value)
    | IsNullWords
    | FilterWords(test: Row -> Truth)
    | OrderByWords
    | Direction(dir: SortDir)
    | NullsLastWords
    | Comma
    | LimitWord
    | Count(n: nat)

  type Text = seq<Token>

  // ----- Conditions: AND binds tighter than OR, both group to the left -----

  function ParsePrimary(ts: Text): (r: Option<(Expr, Text)>)
    ensures r.Some? ==> |r.value.1| < |ts|
    decreases |ts|, 0
  {
    if ts == [] then None
    else
      match ts[0]
      case OneIsOne => Some((Always, ts[1..]))
      case FilterWords(t) => Some((RowTest(t), ts[1..]))
      case Col(c) =>
        if |ts| > 1 && ts[1].IsNullWords? then Some((IsNull(c), ts[2..]))
        else if |ts| > 2 && ts[1].Operator? && ts[2].Bind? then Some((Comparison(c, ts[1].op, ts[2].value), ts[3..]))
        else None
      case Open =>
        var inner := ParseOr(ts[1..]);
        if inner.Some? && inner.value.1 != [] && inner.value.1[0].Close? then
          Some((inner.value.0, inner.value.1[1..]))
        else None
      case _ => None
  }

  function ParseAnd(ts: Text): (r: Option<(Expr, Text)>)
    ensures r.Some? ==> |r.value.1| < |ts|
    decreases |ts|, 1
  {
    var first := ParsePrimary(ts);
    if first.None? then None else ParseAndRest(first.value.0, first.value.1)
  }

  function ParseAndRest(left: Expr, ts: Text): (r: Option<(Expr, Text)>)
    ensures r.Some? ==> |r.value.1| <= |ts|
    decreases |ts|, 1
  {
    if ts == [] || !ts[0].AndWord? then Some((left, ts))
    else
      var next := ParsePrimary(ts[1..]);
      if next.None? then None else ParseAndRest(Both(left, next.value.0), next.value.1)
  }

  function ParseOr(ts: Text): (r: Option<(Expr, Text)>)
    ensures r.Some? ==> |r.value.1| < |ts|
    decreases |ts|, 2
  {
    var first := ParseAnd(ts);
    if first.None? then None else ParseOrRest(first.value.0, first.value.1)
  }

  function ParseOrRest(left: Expr, ts: Text): (r: Option<(Expr, Text)>)
    ensures r.Some? ==> |r.value.1| <= |ts|
    decreases |ts|, 2
  {
    if ts == [] || !ts[0].OrWord? then Some((left, ts))
    else
      var next := ParseAnd(ts[1..]);
      if next.None? then None else ParseOrRest(Either(left, next.value.0), next.value.1)
  }

  // ----- Statements -----

  datatype Statement = Statement(where: Expr, order: seq<OrderTerm>, limit: nat)

  function ParseTerm(ts: Text): (r: Option<(OrderTerm, Text)>)
    ensures r.Some? ==> |r.value.1| < |ts|
  {
    if |ts| < 2 || !ts[0].Col? || !ts[1].Direction? then None
    else if |ts| > 2 && ts[2].NullsLastWords? then Some((OrderTerm(ts[0].column, ts[1].dir, true), ts[3..]))
    else Some((OrderTerm(ts[0].column, ts[1].dir, false), ts[2..]))
  }

  function ParseTerms(ts: Text): (r: Option<(seq<OrderTerm>, Text)>)
    decreases |ts|
  {
    var first := ParseTerm(ts);
    if first.None? then None
    else
      var (term, rest) := first.value;
      if rest == [] || !rest[0].Comma? then Some(([term], rest))
      else
        var others := ParseTerms(rest[1..]);
        if others.None? then None else Some(([term] + others.value.0, others.value.1))
  }

  /** `condition ORDER BY terms LIMIT n`, to the end of the text; anything else is a syntax error. */
  function ParseStatement(ts: Text): Option<Statement> {
    var where := ParseOr(ts);
    if where.None? || where.value.1 == [] || !where.value.1[0].OrderByWords? then None
    else
      var terms := ParseTerms(where.value.1[1..]);
      if terms.None? then None
      else
        var rest := terms.value.1;
        if |rest| == 2 && rest[0].LimitWord? && rest[1].Count? then
          Some(Statement(where.value.0, terms.value.0, rest[1].n))
        else None
  }

  // ----- Brackets -----

  function Step(t: Token): int {
    if t.Open? then 1 else if t.Close? then -1 else 0
  }

  /** Brackets opened and not closed. */
  function Depth(ts: Text): int {
    if ts == [] then 0 else Step(ts[0]) + Depth(ts[1..])
  }

  lemma {:induction false} DepthConcat(a: Text, b: Text)
    ensures Depth(a + b) == Depth(a) + Depth(b)
  {
    if a == [] {
      assert a + b == b;
    } else {
      assert (a + b)[1..] == a[1..] + b;
      DepthConcat(a[1..], b);
    }
  }

  lemma DepthDrop(ts: Text, n: nat)
    requires n <= |ts| && forall i :: 0 <= i < n ==> Step(ts[i]) == 0
    ensures Depth(ts) == Depth(ts[n..])
  {
    if n > 0 {
      DepthDrop(ts[1..], n - 1);
      assert ts[1..][n - 1..] == ts[n..];
    } else {
      assert ts[0..] == ts;
    }
  }

  lemma {:induction false} PrimaryIsBalanced(ts: Text)
    ensures
      var r := ParsePrimary(ts);
      r.Some? ==> Depth(ts) == Depth(r.value.1)
    decreases |ts|, 0
  {
    if ts != [] && ts[0].Open? {
      OrIsBalanced(ts[1..]);
    } else if ParsePrimary(ts).Some? && ts[0].Col? {
      DepthDrop(ts, if ts[1].IsNullWords? then 2 else 3);
    }
  }

  lemma {:induction false} AndIsBalanced(ts: Text)
    ensures
      var r := ParseAnd(ts);
      r.Some? ==> Depth(ts) == Depth(r.value.1)
    decreases |ts|, 1
  {
    PrimaryIsBalanced(ts);
    if ParsePrimary(ts).Some? {
      AndRestIsBalanced(ParsePrimary(ts).value.0, ParsePrimary(ts).value.1);
    }
  }

  lemma {:induction false} AndRestIsBalanced(left: Expr, ts: Text)
    ensures
      var r := ParseAndRest(left, ts);
      r.Some? ==> Depth(ts) == Depth(r.value.1)
    decreases |ts|, 1
  {
    if ts != [] && ts[0].AndWord? {
      PrimaryIsBalanced(ts[1..]);
      var next := ParsePrimary(ts[1..]);
      if next.Some? {
        AndRestIsBalanced(Both(left, next.value.0), next.value.1);
      }
    }
  }

  lemma {:induction false} OrIsBalanced(ts: Text)
    ensures
      var r := ParseOr(ts);
      r.Some? ==> Depth(ts) == Depth(r.value.1)
    decreases |ts|, 2
  {
    AndIsBalanced(ts);
    if ParseAnd(ts).Some? {
      OrRestIsBalanced(ParseAnd(ts).value.0, ParseAnd(ts).value.1);
    }
  }

  lemma {:induction false} OrRestIsBalanced(left: Expr, ts: Text)
    ensures
      var r := ParseOrRest(left, ts);
      r.Some? ==> Depth(ts) == Depth(r.value.1)
    decreases |ts|, 2
  {
    if ts != [] && ts[0].OrWord? {
      AndIsBalanced(ts[1..]);
      var next := ParseAnd(ts[1..]);
      if next.Some? {
        OrRestIsBalanced(Either(left, next.value.0), next.value.1);
      }
    }
  }

  lemma TermIsBalanced(ts: Text)
    ensures
      var r := ParseTerm(ts);
      r.Some? ==> Depth(ts) == Depth(r.value.1)
  {
    var r := ParseTerm(ts);
    if r.Some? {
      DepthDrop(ts, if r.value.0.nullsLast then 3 else 2);
    }
  }

  lemma {:induction false} TermsAreBalanced(ts: Text)
    ensures
      var r := ParseTerms(ts);
      r.Some? ==> Depth(ts) == Depth(r.value.1)
    decreases |ts|
  {
    TermIsBalanced(ts);
    var first := ParseTerm(ts);
    if first.Some? && first.value.1 != [] && first.value.1[0].Comma? {
      TermsAreBalanced(first.value.1[1..]);
    }
  }

  /** Whatever it says, a text with a bracket left open is no statement. */
  lemma StatementIsBalanced(ts: Text)
    requires ParseStatement(ts).Some?
    ensures Depth(ts) == 0
  {
    OrIsBalanced(ts);
    var rest := ParseOr(ts).value.1;
    TermsAreBalanced(rest[1..]);
    var tail := ParseTerms(rest[1..]).value.1;
    DepthDrop(tail, 2);
    assert tail[2..] == [];
  }

  // ----- Reading the pieces of a condition -----

  lemma ReadComparison(c: Column, op: Cmp, v: Value, more: Text)
    ensures ParsePrimary([Col(c), Operator(op), Bind(v)] + more) == Some((Comparison(c, op, v), more))
  {
    var ts := [Col(c), Operator(op), Bind(v)] + more;
    assert ts[0] == Col(c) && ts[1] == Operator(op) && ts[2] == Bind(v) && ts[3..] == more;
  }

  lemma ReadIsNull(c: Column, more: Text)
    ensures ParsePrimary([Col(c), IsNullWords] + more) == Some((IsNull(c), more))
  {
    var ts := [Col(c), IsNullWords] + more;
    assert ts[0] == Col(c) && ts[1] == IsNullWords && ts[2..] == more;
  }

  lemma ReadFilter(test: Row -> Truth, more: Text)
    ensures ParsePrimary([FilterWords(test)] + more) == Some((RowTest(test), more))
  {
    var ts := [FilterWords(test)] + more;
    assert ts[0] == FilterWords(test) && ts[1..] == more;
  }

  lemma ReadBrackets(inner: Text, e: Expr, more: Text)
    requires ParseOr(inner + ([Close] + more)) == Some((e, [Close] + more))
    ensures ParsePrimary([Open] + (inner + ([Close] + more))) == Some((e, more))
  {
    var ts := [Open] + (inner + ([Close] + more));
    assert ts[0] == Open && ts[1..] == inner + ([Close] + more) && ([Close] + more)[1..] == more;
  }

  lemma ReadAnd(left: Expr, right: Expr, item: Text, more: Text)
    requires ParsePrimary(item + more) == Some((right, more))
    ensures ParseAndRest(left, [AndWord] + (item + more)) == ParseAndRest(Both(left, right), more)
  {
    var ts := [AndWord] + (item + more);
    assert ts[0] == AndWord && ts[1..] == item + more;
  }

  lemma ReadOr(left: Expr, ts: Text, right: Expr, more: Text)
    requires ParseAnd(ts) == Some((right, more))
    ensures ParseOrRest(left, [OrWord] + ts) == ParseOrRest(Either(left, right), more)
  {
    var all := [OrWord] + ts;
    assert all[0] == OrWord && all[1..] == ts;
  }
}
