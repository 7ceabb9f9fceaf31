/** `src/database/catalog.rs`: the filter conjuncts each request parameter becomes. */
module CatalogFilters {
  import opened Prelude
  import opened Sql
  import opened CatalogTypes
  import opened CatalogBuilder
  import opened Catalog

  /** `ILIKE`: `%` stands for any text, `_` for any character, and a backslash takes the next one
      literally; characters are compared after folding their case. */
  predicate ILike(fold: char -> char, pattern: string, text: string)
    decreases |pattern| + |text|
  {
    if pattern == "" then text == ""
    else if pattern[0] == '%' then
      ILike(fold, pattern[1..], text) || (text != "" && ILike(fold, pattern, text[1..]))
    else if pattern[0] == '_' then text != "" && ILike(fold, pattern[1..], text[1..])
    else if pattern[0] == '\\' && |pattern| > 1 then
      text != "" && fold(text[0]) == fold(pattern[1]) && ILike(fold, pattern[2..], text[1..])
    else text != "" && fold(text[0]) == fold(pattern[0]) && ILike(fold, pattern[1..], text[1..])
  }

  function NamePattern(name: string): string {
    "%" + (name + "%")
  }

  /** `v >= bound`, UNKNOWN on NULL. */
  function AtLeast(v: Value, bound: Value): Truth {
    if v == Null then Unknown else ToTruth(!Less(v, bound))
  }

  function AtMost(v: Value, bound: Value): Truth {
    if v == Null then Unknown else ToTruth(!Less(bound, v))
  }

  function OfText(o: Option<string>): Value {
    if o.None? then Null else Text(o.value)
  }

  /** `EXISTS (SELECT 1 FROM approaches ...)` with the bounds that are given. */
  predicate HasApproachWithin(dates: seq<int>, start: Option<int>, end: Option<int>) {
    exists i :: 0 <= i < |dates| && (start.Some? ==> start.value <= dates[i]) && (end.Some? ==> dates[i] <= end.value)
  }

  /** Both bounds are asked of one and the same approach. */
  lemma WithinIff(dates: seq<int>, start: Option<int>, end: Option<int>)
    ensures HasApproachWithin(dates, start, end) <==>
      exists d :: d in dates && !(start.Some? && d < start.value) && !(end.Some? && d > end.value)
  {
    if HasApproachWithin(dates, start, end) {
      var i :| 0 <= i < |dates| && (start.Some? ==> start.value <= dates[i]) && (end.Some? ==> dates[i] <= end.value);
      assert dates[i] in dates;
    }
  }

  /** An asteroid has an approach on or after a day exactly if its latest one is. */
  lemma SinceIffLatest(row: Row, start: int)
    requires Possible(row)
    ensures HasApproachWithin(row.approaches, Some(start), None) <==> row.latest.Some? && start <= row.latest.value
  {
    WithinIff(row.approaches, Some(start), None);
  }

  predicate InBounds(v: Option<F64>, least: Option<F64>, most: Option<F64>) {
    && (least.Some? ==> v.Some? && least.value <= v.value)
    && (most.Some? ==> v.Some? && v.value <= most.value)
  }

  /** What the parameters ask of a row, without SQL: a bound on a missing value is not met, and no
      approach is asked for unless a date is given. */
  predicate Matches(fold: char -> char, p: CatalogParams, r: Row) {
    && (p.name.Some? ==> ILike(fold, NamePattern(p.name.value), r.name))
    && (p.hazardous.Some? ==> r.hazardous == p.hazardous.value)
    && (p.sentryObject.Some? ==> r.sentryObject == p.sentryObject.value)
    && (p.startDate.Some? || p.endDate.Some? ==> HasApproachWithin(r.approaches, p.startDate, p.endDate))
    && InBounds(Some(r.diameter), p.minDiameter, p.maxDiameter)
    && (p.orbitClass.Some? ==> r.orbitClass == p.orbitClass)
    && (p.spectralClass.Some? ==> r.spectralClass == p.spectralClass)
    && (p.minTorino.Some? ==> r.torino.Some? && p.minTorino.value <= r.torino.value)
    && InBounds(r.palermo, p.minPalermo, None)
  }

  function MatchTest(fold: char -> char, p: CatalogParams): Row -> Truth {
    (r: Row) => ToTruth(Matches(fold, p, r))
  }

  /** The filters taken together; the cursor is none of them. */
  function FiltersOf(fold: char -> char, p: CatalogParams): seq<Row -> Truth> {
    [MatchTest(fold, p.(cursor := None))]
  }

  /** The request as the listing sees it. */
  function ParamsFor(fold: char -> char, p: CatalogParams): ListParams {
    ListParams(p.cursor, p.sort, p.dir, FiltersOf(fold, p), p.limit)
  }

  lemma PassesPush(filters: seq<Row -> Truth>, f: Row -> Truth, r: Row)
    ensures Passes(filters + [f], r) <==> Passes(filters, r) && f(r) == True
  {
    var more := filters + [f];
    assert more[..|filters|] == filters && more[..|more|] == more;
    PassesSnoc(more, |filters|, r);
  }

  method PushTest(filters: seq<Row -> Truth>, f: Row -> Truth) returns (more: seq<Row -> Truth>)
    ensures more == filters + [f]
    ensures forall r :: Passes(more, r) <==> Passes(filters, r) && f(r) == True
  {
    more := filters + [f];
    forall r ensures Passes(more, r) <==> Passes(filters, r) && f(r) == True {
      PassesPush(filters, f, r);
    }
  }

  /** The chain of parameters begins with tests that are never UNKNOWN. */
  method FlagFilters(fold: char -> char, p: CatalogParams) returns (filters: seq<Row -> Truth>)
    ensures forall r :: Passes(filters, r) <==>
      && (p.name.Some? ==> ILike(fold, NamePattern(p.name.value), r.name))
      && (p.hazardous.Some? ==> r.hazardous == p.hazardous.value)
      && (p.sentryObject.Some? ==> r.sentryObject == p.sentryObject.value)
      && (p.startDate.Some? || p.endDate.Some? ==> HasApproachWithin(r.approaches, p.startDate, p.endDate))
  {
    filters := [];
    if p.name.Some? {
      filters := PushTest(filters, (r: Row) => ToTruth(ILike(fold, NamePattern(p.name.value), r.name)));
    }
    if p.hazardous.Some? {
      filters := PushTest(filters, (r: Row) => ToTruth(r.hazardous == p.hazardous.value));
    }
    if p.sentryObject.Some? {
      filters := PushTest(filters, (r: Row) => ToTruth(r.sentryObject == p.sentryObject.value));
    }
    if p.startDate.Some? || p.endDate.Some? {
      filters := PushTest(filters, (r: Row) => ToTruth(HasApproachWithin(r.approaches, p.startDate, p.endDate)));
    }
  }

  /** Then comparisons, UNKNOWN where the row has no value: the diameter is never NULL. */
  method DiameterFilters(p: CatalogParams, before: seq<Row -> Truth>) returns (filters: seq<Row -> Truth>)
    ensures forall r :: Passes(filters, r) <==>
      Passes(before, r) && InBounds(Some(r.diameter), p.minDiameter, p.maxDiameter)
  {
    filters := before;
    if p.minDiameter.Some? {
      filters := PushTest(filters, (r: Row) => AtLeast(Double(r.diameter), Double(p.minDiameter.value)));
    }
    if p.maxDiameter.Some? {
      filters := PushTest(filters, (r: Row) => AtMost(Double(r.diameter), Double(p.maxDiameter.value)));
    }
  }

  method ClassFilters(p: CatalogParams, before: seq<Row -> Truth>) returns (filters: seq<Row -> Truth>)
    ensures forall r :: Passes(filters, r) <==>
      && Passes(before, r)
      && (p.orbitClass.Some? ==> r.orbitClass == p.orbitClass)
      && (p.spectralClass.Some? ==> r.spectralClass == p.spectralClass)
  {
    filters := before;
    if p.orbitClass.Some? {
      filters := PushTest(filters, (r: Row) => Compare(Eq, OfText(r.orbitClass), Text(p.orbitClass.value)));
    }
    if p.spectralClass.Some? {
      filters := PushTest(filters, (r: Row) => Compare(Eq, OfText(r.spectralClass), Text(p.spectralClass.value)));
    }
  }

  method ScaleFilters(p: CatalogParams, before: seq<Row -> Truth>) returns (filters: seq<Row -> Truth>)
    ensures forall r :: Passes(filters, r) <==>
      && Passes(before, r)
      && (p.minTorino.Some? ==> r.torino.Some? && p.minTorino.value <= r.torino.value)
      && InBounds(r.palermo, p.minPalermo, None)
  {
    filters := before;
    if p.minTorino.Some? {
      filters := PushTest(filters, (r: Row) => AtLeast(OfInt(r.torino), Integer(p.minTorino.value)));
    }
    if p.minPalermo.Some? {
      filters := PushTest(filters, (r: Row) => AtLeast(OfDouble(r.palermo), Double(p.minPalermo.value)));
    }
  }

  /** The whole chain keeps exactly the rows the parameters ask for. */
  method PushFilters(fold: char -> char, p: CatalogParams) returns (filters: seq<Row -> Truth>)
    ensures forall r :: Passes(filters, r) <==> Matches(fold, p, r)
  {
    filters := FlagFilters(fold, p);
    filters := DiameterFilters(p, filters);
    filters := ClassFilters(p, filters);
    filters := ScaleFilters(p, filters);
  }

  lemma SamePage(fold: char -> char, table: seq<Row>, p: CatalogParams, filters: seq<Row -> Truth>)
    requires forall r :: Passes(filters, r) <==> Matches(fold, p, r)
    ensures PageOf(table, ListParams(p.cursor, p.sort, p.dir, filters, p.limit)) == PageOf(table, ParamsFor(fold, p))
  {
    forall r ensures Passes(filters, r) <==> Passes(FiltersOf(fold, p), r) {
      PassesPush([], MatchTest(fold, p.(cursor := None)), r);
      assert [] + FiltersOf(fold, p) == FiltersOf(fold, p);
    }
    FilterAgree(PassTest(filters), PassTest(FiltersOf(fold, p)), table);
  }

  /** `CatalogRepository::list` from the request's own parameters: filters, keyset, order and limit
      return the page of the rows that match, or the error the query meets. */
  method ListCatalog(fold: char -> char, db: Option<seq<Row>>, p: CatalogParams)
      returns (r: Result<(seq<Row>, bool), QueryError>)
    requires db.Some? ==> Keyed(db.value)
    ensures r == Answer(db, ParamsFor(fold, p))
    ensures r.Ok? <==> db.Some? && Runs(p.cursor)
  {
    var filters := PushFilters(fold, p);
    r := List(db, ListParams(p.cursor, p.sort, p.dir, filters, p.limit));
    if db.Some? {
      SamePage(fold, db.value, p, filters);
    }
  }

  /** A character that stands for itself in a pattern. */
  predicate Plain(c: char) {
    c != '%' && c != '_' && c != '\\'
  }

  predicate SameFolded(fold: char -> char, a: string, b: string) {
    |a| == |b| && forall i :: 0 <= i < |a| ==> fold(a[i]) == fold(b[i])
  }

  predicate FoldedAt(fold: char -> char, name: string, text: string, i: nat)
    requires i + |name| <= |text|
  {
    SameFolded(fold, name, text[i..i + |name|])
  }

  predicate ContainsFolded(fold: char -> char, name: string, text: string) {
    exists i :: 0 <= i <= |text| - |name| && FoldedAt(fold, name, text, i)
  }

  lemma {:induction false} PercentTakesAll(fold: char -> char, text: string)
    ensures ILike(fold, "%", text)
    decreases |text|
  {
    if text != "" {
      PercentTakesAll(fold, text[1..]);
    } else {
      assert "%"[1..] == "";
    }
  }

  lemma {:induction false} PlainPrefix(fold: char -> char, name: string, text: string)
    requires forall c :: c in name ==> Plain(c)
    ensures ILike(fold, name + "%", text) <==> |name| <= |text| && SameFolded(fold, name, text[..|name|])
    decreases |name|
  {
    if name == "" {
      assert name + "%" == "%";
      PercentTakesAll(fold, text);
    } else {
      assert name[0] in name;
      assert (name + "%")[1..] == name[1..] + "%";
      if text != "" {
        PlainPrefix(fold, name[1..], text[1..]);
        if |name| <= |text| {
          assert text[..|name|][1..] == text[1..][..|name| - 1];
          SameFoldedCons(fold, name, text[..|name|]);
        }
      }
    }
  }

  lemma SameFoldedCons(fold: char -> char, a: string, b: string)
    requires |a| == |b| > 0
    ensures SameFolded(fold, a, b) <==> fold(a[0]) == fold(b[0]) && SameFolded(fold, a[1..], b[1..])
  {
    if fold(a[0]) == fold(b[0]) && SameFolded(fold, a[1..], b[1..]) {
      forall i | 0 <= i < |a| ensures fold(a[i]) == fold(b[i]) {
        if i > 0 {
          assert a[1..][i - 1] == a[i] && b[1..][i - 1] == b[i];
        }
      }
    }
  }

  /** For a name without `%`, `_` and backslash the filter is what its documentation says: a match of
      the name anywhere in the text, whatever the case. */
  lemma {:induction false} PlainNameIsSubstring(fold: char -> char, name: string, text: string)
    requires forall c :: c in name ==> Plain(c)
    ensures ILike(fold, NamePattern(name), text) <==> ContainsFolded(fold, name, text)
    decreases |text|
  {
    var pattern := NamePattern(name);
    assert pattern[1..] == name + "%";
    PlainPrefix(fold, name, text);
    if text == "" {
      assert ContainsFolded(fold, name, text) ==> name == "";
      if name == "" {
        assert FoldedAt(fold, name, text, 0);
      }
    } else {
      PlainNameIsSubstring(fold, name, text[1..]);
      ContainsFoldedCons(fold, name, text);
    }
  }

  lemma ContainsFoldedCons(fold: char -> char, name: string, text: string)
    requires text != ""
    ensures ContainsFolded(fold, name, text) <==>
      (|name| <= |text| && SameFolded(fold, name, text[..|name|])) || ContainsFolded(fold, name, text[1..])
  {
    if |name| <= |text| && SameFolded(fold, name, text[..|name|]) {
      assert text[0..0 + |name|] == text[..|name|];
      assert FoldedAt(fold, name, text, 0);
    }
    if i :| 0 <= i <= |text| - 1 - |name| && FoldedAt(fold, name, text[1..], i) {
      assert text[i + 1..i + 1 + |name|] == text[1..][i..i + |name|];
      assert FoldedAt(fold, name, text, i + 1);
    }
    if i :| 0 <= i <= |text| - |name| && FoldedAt(fold, name, text, i) {
      if i == 0 {
        assert text[0..0 + |name|] == text[..|name|];
      } else {
        assert text[1..][i - 1..i - 1 + |name|] == text[i..i + |name|];
        assert FoldedAt(fold, name, text[1..], i - 1);
      }
    }
  }

  /** A text the pattern matches with as few characters as it can; `any` stands where any will do. */
  function Shortest(any: char, pattern: string): string
    decreases |pattern|
  {
    if pattern == "" then ""
    else if pattern[0] == '%' then Shortest(any, pattern[1..])
    else if pattern[0] == '_' then [any] + Shortest(any, pattern[1..])
    else if pattern[0] == '\\' && |pattern| > 1 then [pattern[1]] + Shortest(any, pattern[2..])
    else [pattern[0]] + Shortest(any, pattern[1..])
  }

  lemma {:induction false} ShortestMatches(fold: char -> char, any: char, pattern: string)
    ensures ILike(fold, pattern, Shortest(any, pattern))
    decreases |pattern|
  {
    if pattern != "" {
      var rest := if pattern[0] == '\\' && |pattern| > 1 then pattern[2..] else pattern[1..];
      ShortestMatches(fold, any, rest);
      var text := Shortest(any, pattern);
      assert pattern[0] != '%' ==> text[1..] == Shortest(any, rest);
    }
  }

  /** That text is shorter than the name, or not the name, unless the name is plain. */
  lemma {:induction false} ShortestIsNotTheName(fold: char -> char, any: char, name: string)
    requires fold(any) != fold('_') && fold('%') != fold('\\')
    ensures
      var text := Shortest(any, name + "%");
      |text| <= |name| && (SameFolded(fold, name, text) ==> forall c :: c in name ==> Plain(c))
    decreases |name|
  {
    var pattern := name + "%";
    if name == "" {
      assert pattern[1..] == "";
    } else {
      assert pattern[1..] == name[1..] + "%";
      if name == "\\" {
        assert pattern[2..] == "";
      } else if name[0] == '\\' {
        assert pattern[2..] == name[2..] + "%";
        ShortestIsNotTheName(fold, any, name[2..]);
      } else {
        ShortestIsNotTheName(fold, any, name[1..]);
        var text := Shortest(any, pattern);
        if name[0] != '%' {
          assert text[1..] == Shortest(any, name[1..] + "%");
          if |text| == |name| {
            SameFoldedCons(fold, name, text);
          }
          assert name == [name[0]] + name[1..];
        }
      }
    }
  }

  /** Wildcards in the name are not escaped: the filter is the substring match its documentation
      describes, for all texts, if and only if the name has no `%`, `_` or backslash. */
  lemma NameFilterIsSubstringIff(fold: char -> char, any: char, name: string)
    requires fold(any) != fold('_') && fold('%') != fold('\\')
    ensures (forall text :: ILike(fold, NamePattern(name), text) <==> ContainsFolded(fold, name, text))
      <==> forall c :: c in name ==> Plain(c)
  {
    if forall c :: c in name ==> Plain(c) {
      forall text ensures ILike(fold, NamePattern(name), text) <==> ContainsFolded(fold, name, text) {
        PlainNameIsSubstring(fold, name, text);
      }
    } else {
      var text := Shortest(any, NamePattern(name));
      ShortestMatches(fold, any, NamePattern(name));
      assert NamePattern(name)[1..] == name + "%";
      ShortestIsNotTheName(fold, any, name);
      assert forall i :: 0 <= i <= |text| - |name| ==> (FoldedAt(fold, name, text, i) ==> text[i..i + |name|] == text);
      assert !ContainsFolded(fold, name, text);
    }
  }
}
