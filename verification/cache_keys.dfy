/** `src/database/cache.rs`: the text keys of the two parametrised stores. */
module CacheKeys {
  import opened Prelude
  import opened Numerals
  import opened Sql
  import opened CatalogTypes
  import opened DebugFormat

  /** Every field of `ApproachQueryParams`. Dates are day numbers. */
  datatype ApproachParams = ApproachParams(
    page: nat, pageSize: nat, startDate: Option<int>, endDate: Option<int>,
    hazardClass: Option<string>, sortBy: Option<string>, sortDir: Option<string>, sentryOnly: bool)

  /** The text of dates, floats and UUIDs, and which characters a string literal shows as they are. */
  datatype Printers = Printers(
    date: int -> string, float: F64 -> string, uuid: RowId -> string, printable: char -> bool)
  {
    /** Distinct dates print as distinct words without separators. */
    ghost predicate FaithfulDates() {
      forall a, b :: DateReads(a, b)
    }

    /** So do floats and UUIDs. */
    ghost predicate Faithful() {
      && FaithfulDates()
      && (forall a: F64, b: F64 :: FloatReads(a, b))
      && (forall a: RowId, b: RowId :: UuidReads(a, b))
    }

    ghost predicate DateReads(a: int, b: int) {
      IsAtom(date(a)) && (date(a) == date(b) ==> a == b)
    }

    ghost predicate FloatReads(a: F64, b: F64) {
      IsAtom(float(a)) && (float(a) == float(b) ==> a == b)
    }

    ghost predicate UuidReads(a: RowId, b: RowId) {
      IsAtom(uuid(a)) && (uuid(a) == uuid(b) ==> a == b)
    }
  }

  function Maybe(o: Option<Debug>): Debug {
    if o.None? then Atom("None") else Tuple("Some", o.value)
  }

  function MaybeDate(f: Printers, o: Option<int>): Debug {
    Maybe(if o.None? then None else Some(Atom(f.date(o.value))))
  }

  function MaybeFloat(f: Printers, o: Option<F64>): Debug {
    Maybe(if o.None? then None else Some(Atom(f.float(o.value))))
  }

  function MaybeInt(o: Option<int>): Debug {
    Maybe(if o.None? then None else Some(Atom(Decimal(o.value))))
  }

  function MaybeText(o: Option<string>): Debug {
    Maybe(if o.None? then None else Some(Quoted(o.value)))
  }

  function MaybeBool(o: Option<bool>): Debug {
    Maybe(if o.None? then None else Some(BoolText(o.value)))
  }

  function BoolText(b: bool): Debug {
    Atom(if b then "true" else "false")
  }

  function SortText(sort: SortKey): Debug {
    Atom(match sort
      case ApproachActivity => "ApproachActivity"
      case Name => "Name"
      case Diameter => "Diameter"
      case Torino => "Torino"
      case Palermo => "Palermo")
  }

  function DirText(dir: SortDir): Debug {
    Atom(if dir == Asc then "Asc" else "Desc")
  }

  function ValueText(f: Printers, v: CursorValue): Debug {
    match v
    case DateValue(d) => Tuple("Date", MaybeDate(f, d))
    case TextValue(t) => Tuple("Text", Quoted(t))
    case DiameterValue(d) => Tuple("Diameter", Atom(f.float(d)))
    case TorinoValue(t) => Tuple("Torino", MaybeInt(t))
    case PalermoValue(p) => Tuple("Palermo", MaybeFloat(f, p))
  }

  function CursorText(f: Printers, c: CatalogCursor): Debug {
    Struct("CatalogCursor",
      More("sort", SortText(c.sort),
      More("sort_dir", DirText(c.dir),
      More("value", ValueText(f, c.value),
      Last("id", Atom(f.uuid(c.id)))))))
  }

  function MaybeCursor(f: Printers, o: Option<CatalogCursor>): Debug {
    Maybe(if o.None? then None else Some(CursorText(f, o.value)))
  }

  function ApproachFields(f: Printers, p: ApproachParams): seq<Debug> {
    [Atom(Decimal(p.page)), Atom(Decimal(p.pageSize)), MaybeDate(f, p.startDate), MaybeDate(f, p.endDate),
     MaybeText(p.hazardClass), MaybeText(p.sortBy), MaybeText(p.sortDir), BoolText(p.sentryOnly)]
  }

  function ApproachQueryKey(f: Printers, p: ApproachParams): string {
    Join(f.printable, ApproachFields(f, p))
  }

  function CatalogFields(f: Printers, p: CatalogParams): seq<Debug> {
    OrderFields(f, p) + RangeFields(f, p) + ClassFields(f, p)
  }

  function OrderFields(f: Printers, p: CatalogParams): seq<Debug> {
    [MaybeCursor(f, p.cursor), SortText(p.sort), DirText(p.dir), MaybeText(p.name), MaybeBool(p.hazardous)]
  }

  function RangeFields(f: Printers, p: CatalogParams): seq<Debug> {
    [MaybeBool(p.sentryObject), MaybeDate(f, p.startDate), MaybeDate(f, p.endDate),
     MaybeFloat(f, p.minDiameter), MaybeFloat(f, p.maxDiameter)]
  }

  function ClassFields(f: Printers, p: CatalogParams): seq<Debug> {
    [MaybeText(p.orbitClass), MaybeText(p.spectralClass), MaybeInt(p.minTorino), MaybeFloat(f, p.minPalermo),
     Atom(Decimal(p.limit))]
  }

  function CatalogListKey(f: Printers, p: CatalogParams): string {
    Join(f.printable, CatalogFields(f, p))
  }

  // ----- The fields are words, and distinct values are distinct words -----

  lemma DecimalIsAtom(n: int)
    ensures IsAtom(Decimal(n))
  {
    DigitsAreDigits(if n < 0 then -n else n, 10);
  }

  lemma OptionWords()
    ensures IsAtom("None") && IsAtom("Some")
  {
  }

  lemma MaybeWf(o: Option<Debug>)
    requires o.Some? ==> Wf(o.value)
    ensures Wf(Maybe(o))
  {
    OptionWords();
  }

  lemma MaybeIntReads(a: Option<int>, b: Option<int>)
    ensures Wf(MaybeInt(a)) && (MaybeInt(a) == MaybeInt(b) ==> a == b)
  {
    if a.Some? {
      DecimalIsAtom(a.value);
      if b.Some? && MaybeInt(a) == MaybeInt(b) {
        DecimalInjective(a.value, b.value);
      }
    }
    MaybeWf(if a.None? then None else Some(Atom(Decimal(a.value))));
  }

  lemma MaybeTextReads(a: Option<string>, b: Option<string>)
    ensures Wf(MaybeText(a)) && (MaybeText(a) == MaybeText(b) ==> a == b)
  {
    MaybeWf(if a.None? then None else Some(Quoted(a.value)));
  }

  lemma MaybeDateReads(f: Printers, a: Option<int>, b: Option<int>)
    requires f.FaithfulDates()
    ensures Wf(MaybeDate(f, a)) && (MaybeDate(f, a) == MaybeDate(f, b) ==> a == b)
  {
    if a.Some? {
      assert f.DateReads(a.value, if b.Some? then b.value else a.value);
    }
    MaybeWf(if a.None? then None else Some(Atom(f.date(a.value))));
  }

  lemma MaybeFloatReads(f: Printers, a: Option<F64>, b: Option<F64>)
    requires f.Faithful()
    ensures Wf(MaybeFloat(f, a)) && (MaybeFloat(f, a) == MaybeFloat(f, b) ==> a == b)
  {
    if a.Some? {
      assert f.FloatReads(a.value, if b.Some? then b.value else a.value);
    }
    MaybeWf(if a.None? then None else Some(Atom(f.float(a.value))));
  }

  lemma BoolReads(a: bool, b: bool)
    ensures Wf(BoolText(a)) && (BoolText(a) == BoolText(b) ==> a == b)
  {
    assert BoolText(a).text[0] == (if a then 't' else 'f') && BoolText(b).text[0] == (if b then 't' else 'f');
  }

  lemma MaybeBoolReads(a: Option<bool>, b: Option<bool>)
    ensures Wf(MaybeBool(a)) && (MaybeBool(a) == MaybeBool(b) ==> a == b)
  {
    if a.Some? {
      BoolReads(a.value, if b.Some? then b.value else a.value);
    }
    MaybeWf(if a.None? then None else Some(BoolText(a.value)));
  }

  lemma SortReads(a: SortKey, b: SortKey)
    ensures Wf(SortText(a)) && (SortText(a) == SortText(b) ==> a == b)
  {
    SortInitial(a);
    SortInitial(b);
  }

  /** The five names differ in their first letter. */
  lemma SortInitial(a: SortKey)
    ensures Wf(SortText(a))
    ensures SortText(a).text[0] == match a
      case ApproachActivity => 'A'
      case Name => 'N'
      case Diameter => 'D'
      case Torino => 'T'
      case Palermo => 'P'
  {
  }

  lemma DirReads(a: SortDir, b: SortDir)
    ensures Wf(DirText(a)) && (DirText(a) == DirText(b) ==> a == b)
  {
    assert DirText(a).text[0] == if a == Asc then 'A' else 'D';
    assert DirText(b).text[0] == if b == Asc then 'A' else 'D';
  }

  /** The variants' names differ in length or in their second letter. */
  lemma ValueNames(v: CursorValue)
    ensures IsAtom("Date") && IsAtom("Text") && IsAtom("Diameter") && IsAtom("Torino") && IsAtom("Palermo")
    ensures "Date"[0] == 'D' && "Text"[0] == 'T'
  {
  }

  lemma ValueReads(f: Printers, a: CursorValue, b: CursorValue)
    requires f.Faithful()
    ensures Wf(ValueText(f, a)) && (ValueText(f, a) == ValueText(f, b) ==> a == b)
  {
    ValueNames(a);
    match a {
      case DateValue(d) => MaybeDateReads(f, d, if b.DateValue? then b.date else d);
      case TextValue(_) =>
      case DiameterValue(d) => assert f.FloatReads(d, if b.DiameterValue? then b.diameter else d);
      case TorinoValue(t) => MaybeIntReads(t, if b.TorinoValue? then b.torino else t);
      case PalermoValue(p) => MaybeFloatReads(f, p, if b.PalermoValue? then b.palermo else p);
    }
  }

  lemma CursorWf(f: Printers, c: CatalogCursor)
    requires f.Faithful()
    ensures Wf(CursorText(f, c))
  {
    CursorWords();
    SortReads(c.sort, c.sort);
    DirReads(c.dir, c.dir);
    ValueReads(f, c.value, c.value);
    assert f.UuidReads(c.id, c.id);
    var id := Last("id", Atom(f.uuid(c.id)));
    var value := More("value", ValueText(f, c.value), id);
    var dir := More("sort_dir", DirText(c.dir), value);
    assert WfFields(id);
    assert WfFields(value);
    assert dir.More? && dir.rest == value && IsAtom(dir.key) && Wf(dir.value);
    assert WfFields(dir);
  }

  lemma CursorReads(f: Printers, a: Option<CatalogCursor>, b: Option<CatalogCursor>)
    requires f.Faithful()
    ensures Wf(MaybeCursor(f, a)) && (MaybeCursor(f, a) == MaybeCursor(f, b) ==> a == b)
  {
    if a.Some? {
      var c := a.value;
      var d := if b.Some? then b.value else c;
      CursorWf(f, c);
      SortReads(c.sort, d.sort);
      DirReads(c.dir, d.dir);
      ValueReads(f, c.value, d.value);
      assert f.UuidReads(c.id, d.id);
    }
    MaybeWf(if a.None? then None else Some(CursorText(f, a.value)));
  }

  lemma CursorWords()
    ensures IsAtom("CatalogCursor") && IsAtom("sort") && IsAtom("sort_dir") && IsAtom("value") && IsAtom("id")
  {
  }

  lemma ApproachFieldsWf(f: Printers, p: ApproachParams)
    requires f.FaithfulDates()
    ensures forall i :: 0 <= i < |ApproachFields(f, p)| ==> Wf(ApproachFields(f, p)[i])
  {
    DecimalIsAtom(p.page);
    DecimalIsAtom(p.pageSize);
    MaybeDateReads(f, p.startDate, p.startDate);
    MaybeDateReads(f, p.endDate, p.endDate);
    MaybeTextReads(p.hazardClass, p.hazardClass);
    MaybeTextReads(p.sortBy, p.sortBy);
    MaybeTextReads(p.sortDir, p.sortDir);
    BoolReads(p.sentryOnly, p.sentryOnly);
  }

  lemma ApproachFieldsRead(f: Printers, p: ApproachParams, q: ApproachParams)
    requires f.FaithfulDates() && ApproachFields(f, p) == ApproachFields(f, q)
    ensures p == q
  {
    var a, b := ApproachFields(f, p), ApproachFields(f, q);
    assert a[0] == b[0] && a[1] == b[1] && a[2] == b[2] && a[3] == b[3];
    assert a[4] == b[4] && a[5] == b[5] && a[6] == b[6] && a[7] == b[7];
    DecimalInjective(p.page, q.page);
    DecimalInjective(p.pageSize, q.pageSize);
    MaybeDateReads(f, p.startDate, q.startDate);
    MaybeDateReads(f, p.endDate, q.endDate);
    BoolReads(p.sentryOnly, q.sentryOnly);
  }

  /** Equal approach keys mean equal parameters, whatever quotes, escapes and colons the strings hold. */
  lemma ApproachKeyInjective(f: Printers, p: ApproachParams, q: ApproachParams)
    requires f.FaithfulDates() && ApproachQueryKey(f, p) == ApproachQueryKey(f, q)
    ensures p == q
  {
    ApproachFieldsWf(f, p);
    ApproachFieldsWf(f, q);
    JoinInjective(f.printable, ApproachFields(f, p), ApproachFields(f, q));
    ApproachFieldsRead(f, p, q);
  }

  lemma OrderFieldsWf(f: Printers, p: CatalogParams)
    requires f.Faithful()
    ensures forall i :: 0 <= i < 5 ==> Wf(OrderFields(f, p)[i])
  {
    CursorReads(f, p.cursor, p.cursor);
    SortReads(p.sort, p.sort);
    DirReads(p.dir, p.dir);
    MaybeTextReads(p.name, p.name);
    MaybeBoolReads(p.hazardous, p.hazardous);
  }

  lemma OrderFieldsRead(f: Printers, p: CatalogParams, q: CatalogParams)
    requires f.Faithful() && OrderFields(f, p) == OrderFields(f, q)
    ensures p.cursor == q.cursor && p.sort == q.sort && p.dir == q.dir && p.name == q.name && p.hazardous == q.hazardous
  {
    var a, b := OrderFields(f, p), OrderFields(f, q);
    assert a[0] == b[0] && a[1] == b[1] && a[2] == b[2] && a[3] == b[3] && a[4] == b[4];
    CursorReads(f, p.cursor, q.cursor);
    SortReads(p.sort, q.sort);
    DirReads(p.dir, q.dir);
    MaybeTextReads(p.name, q.name);
    MaybeBoolReads(p.hazardous, q.hazardous);
  }

  lemma RangeFieldsRead(f: Printers, p: CatalogParams, q: CatalogParams)
    requires f.Faithful()
    ensures forall i :: 0 <= i < 5 ==> Wf(RangeFields(f, p)[i])
    ensures RangeFields(f, p) == RangeFields(f, q) ==>
      && p.sentryObject == q.sentryObject && p.startDate == q.startDate && p.endDate == q.endDate
      && p.minDiameter == q.minDiameter && p.maxDiameter == q.maxDiameter
  {
    MaybeBoolReads(p.sentryObject, q.sentryObject);
    MaybeDateReads(f, p.startDate, q.startDate);
    MaybeDateReads(f, p.endDate, q.endDate);
    MaybeFloatReads(f, p.minDiameter, q.minDiameter);
    MaybeFloatReads(f, p.maxDiameter, q.maxDiameter);
    var a, b := RangeFields(f, p), RangeFields(f, q);
    assert a == b ==> a[0] == b[0] && a[1] == b[1] && a[2] == b[2] && a[3] == b[3] && a[4] == b[4];
  }

  lemma ClassFieldsRead(f: Printers, p: CatalogParams, q: CatalogParams)
    requires f.Faithful()
    ensures forall i :: 0 <= i < 5 ==> Wf(ClassFields(f, p)[i])
    ensures ClassFields(f, p) == ClassFields(f, q) ==>
      && p.orbitClass == q.orbitClass && p.spectralClass == q.spectralClass && p.minTorino == q.minTorino
      && p.minPalermo == q.minPalermo && p.limit == q.limit
  {
    MaybeTextReads(p.orbitClass, q.orbitClass);
    MaybeTextReads(p.spectralClass, q.spectralClass);
    MaybeIntReads(p.minTorino, q.minTorino);
    MaybeFloatReads(f, p.minPalermo, q.minPalermo);
    DecimalIsAtom(p.limit);
    var a, b := ClassFields(f, p), ClassFields(f, q);
    if a == b {
      assert a[0] == b[0] && a[1] == b[1] && a[2] == b[2] && a[3] == b[3] && a[4] == b[4];
      DecimalInjective(p.limit, q.limit);
    }
  }

  lemma CatalogFieldsWf(f: Printers, p: CatalogParams)
    requires f.Faithful()
    ensures forall i :: 0 <= i < |CatalogFields(f, p)| ==> Wf(CatalogFields(f, p)[i])
  {
    OrderFieldsWf(f, p);
    RangeFieldsRead(f, p, p);
    ClassFieldsRead(f, p, p);
    var a, b, c := OrderFields(f, p), RangeFields(f, p), ClassFields(f, p);
    forall i | 0 <= i < |a + b + c| ensures Wf((a + b + c)[i]) {
      if i < 5 {
        assert (a + b + c)[i] == a[i];
      } else if i < 10 {
        assert (a + b + c)[i] == b[i - 5];
      } else {
        assert (a + b + c)[i] == c[i - 10];
      }
    }
  }

  lemma CatalogFieldsSplit(f: Printers, p: CatalogParams, q: CatalogParams)
    requires CatalogFields(f, p) == CatalogFields(f, q)
    ensures OrderFields(f, p) == OrderFields(f, q)
    ensures RangeFields(f, p) == RangeFields(f, q) && ClassFields(f, p) == ClassFields(f, q)
  {
    var a, b := CatalogFields(f, p), CatalogFields(f, q);
    assert OrderFields(f, p) == a[..5] && OrderFields(f, q) == b[..5];
    assert RangeFields(f, p) == a[5..10] && RangeFields(f, q) == b[5..10];
    assert ClassFields(f, p) == a[10..] && ClassFields(f, q) == b[10..];
  }

  /** Equal catalog keys mean equal parameters: cursor, sort, every filter and the limit. */
  lemma CatalogKeyInjective(f: Printers, p: CatalogParams, q: CatalogParams)
    requires f.Faithful() && CatalogListKey(f, p) == CatalogListKey(f, q)
    ensures p == q
  {
    CatalogFieldsWf(f, p);
    CatalogFieldsWf(f, q);
    JoinInjective(f.printable, CatalogFields(f, p), CatalogFields(f, q));
    CatalogFieldsSplit(f, p, q);
    OrderFieldsRead(f, p, q);
    RangeFieldsRead(f, p, q);
    ClassFieldsRead(f, p, q);
  }
}
