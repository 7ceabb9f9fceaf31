/** Catalog sort parameters, cursors and listing rows. */
module CatalogTypes {
  import opened Prelude
  import opened Sql

  datatype SortKey = ApproachActivity | Name | Diameter | Torino | Palermo

  datatype SortDir = Asc | Desc

  /** The sort column's value on the last row of the previous page, one variant per sort key. */
  datatype CursorValue =
    | DateValue(date: Option<int>)
    | TextValue(text: string)
    | DiameterValue(diameter: F64)
    | TorinoValue(torino: Option<int>)
    | PalermoValue(palermo: Option<F64>)

  const ID_RANGE: int := 0x1_0000_0000_0000_0000_0000_0000_0000_0000

  /** A UUID by its 128 bits, which is how Postgres orders UUIDs. */
  type RowId = i: int | 0 <= i < ID_RANGE

  datatype CatalogCursor = CatalogCursor(sort: SortKey, dir: SortDir, value: CursorValue, id: RowId)

  /** One joined listing row; `id` is the primary key. `approaches` are the dates of the asteroid's
      approaches, which only the filters read, and the classes are NULL without an orbit row. */
  datatype Row = Row(
    id: RowId, name: string, diameter: F64, torino: Option<int>, palermo: Option<F64>, latest: Option<int>,
    hazardous: bool, sentryObject: bool, orbitClass: Option<string>, spectralClass: Option<string>,
    approaches: seq<int>)

  /** A row the query can return: its latest date is the greatest of its approaches' dates. */
  predicate Possible(row: Row) {
    if row.latest.None? then row.approaches == []
    else row.latest.value in row.approaches && forall d :: d in row.approaches ==> d <= row.latest.value
  }

  /** Every field of `CatalogListParams`. */
  datatype CatalogParams = CatalogParams(
    cursor: Option<CatalogCursor>, sort: SortKey, dir: SortDir, name: Option<string>,
    hazardous: Option<bool>, sentryObject: Option<bool>, startDate: Option<int>, endDate: Option<int>,
    minDiameter: Option<F64>, maxDiameter: Option<F64>, orbitClass: Option<string>, spectralClass: Option<string>,
    minTorino: Option<int>, minPalermo: Option<F64>, limit: nat)

  datatype Column = LatestDateCol | NameCol | DiameterCol | TorinoCol | PalermoCol | IdCol

  function OfInt(o: Option<int>): Value {
    if o.None? then Null else Integer(o.value)
  }

  function OfDouble(o: Option<F64>): Value {
    if o.None? then Null else Double(o.value)
  }

  function ColumnValue(c: Column, row: Row): Value {
    match c
    case LatestDateCol => OfInt(row.latest)
    case NameCol => Text(row.name)
    case DiameterCol => Double(row.diameter)
    case TorinoCol => OfInt(row.torino)
    case PalermoCol => OfDouble(row.palermo)
    case IdCol => Integer(row.id)
  }

  function SortColumn(sort: SortKey): Column {
    match sort
    case ApproachActivity => LatestDateCol
    case Name => NameCol
    case Diameter => DiameterCol
    case Torino => TorinoCol
    case Palermo => PalermoCol
  }

  /** The column a cursor value was read from. */
  function CursorColumn(value: CursorValue): Column {
    match value
    case DateValue(_) => LatestDateCol
    case TextValue(_) => NameCol
    case DiameterValue(_) => DiameterCol
    case TorinoValue(_) => TorinoCol
    case PalermoValue(_) => PalermoCol
  }

  function CursorSqlValue(value: CursorValue): Value {
    match value
    case DateValue(d) => OfInt(d)
    case TextValue(t) => Text(t)
    case DiameterValue(d) => Double(d)
    case TorinoValue(t) => OfInt(t)
    case PalermoValue(p) => OfDouble(p)
  }

  /** A cursor whose value has the type of the column it claims to sort by. */
  predicate WellTyped(c: CatalogCursor) {
    CursorColumn(c.value) == SortColumn(c.sort)
  }

  /** A place in a listing: the sort value, then the id that breaks ties. */
  datatype Position = Position(value: Value, id: int)

  function PositionOf(sort: SortKey, row: Row): Position {
    Position(ColumnValue(SortColumn(sort), row), row.id)
  }

  function CursorPosition(c: CatalogCursor): Position {
    Position(CursorSqlValue(c.value), c.id)
  }

  /** The order a listing is read in, stated without SQL: rows that have a value come before
      rows that have none in either direction; values, then ids, follow the direction. */
  predicate Before(dir: SortDir, p: Position, q: Position) {
    if p.value == q.value then (if dir == Asc then p.id < q.id else q.id < p.id)
    else if q.value == Null then true
    else if p.value == Null then false
    else if dir == Asc then Less(p.value, q.value)
    else Less(q.value, p.value)
  }

  lemma BeforeTotal(dir: SortDir, p: Position, q: Position)
    ensures !Before(dir, p, p)
    ensures p == q || Before(dir, p, q) || Before(dir, q, p)
    ensures !(Before(dir, p, q) && Before(dir, q, p))
  {
    if p.value != Null && q.value != Null {
      LessTrichotomy(p.value, q.value);
    }
  }

  lemma BeforeTransitive(dir: SortDir, p: Position, q: Position, r: Position)
    requires Before(dir, p, q) && Before(dir, q, r)
    ensures Before(dir, p, r)
  {
    if p.value != Null && q.value != Null && r.value != Null {
      LessTrichotomy(p.value, q.value);
      LessTrichotomy(q.value, r.value);
      if Less(p.value, q.value) && Less(q.value, r.value) {
        LessTransitive(p.value, q.value, r.value);
        LessTrichotomy(p.value, r.value);
      }
      if Less(r.value, q.value) && Less(q.value, p.value) {
        LessTransitive(r.value, q.value, p.value);
        LessTrichotomy(p.value, r.value);
      }
    }
  }
}
