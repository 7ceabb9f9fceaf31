/** The part of SQL the catalog query uses: three-valued logic, typed values, comparison. */
module Sql {
  import opened Prelude

  datatype Truth = True | False | Unknown {
    function And(other: Truth): Truth {
      if this == False || other == False then False
      else if this == Unknown || other == Unknown then Unknown
      else True
    }

    function Or(other: Truth): Truth {
      if this == True || other == True then True
      else if this == Unknown || other == Unknown then Unknown
      else False
    }
  }

  function ToTruth(b: bool): Truth {
    if b then True else False
  }

  /** The place of the greatest finite double among the non-negative ones. */
  const MAX_RANK: int := 0x7FEF_FFFF_FFFF_FFFF

  /** A finite 64-bit float, which the catalog only compares: the number of its place in the order, from
      zero at 0. The two zeros compare equal and share that place. */
  type F64 = rank: int | -MAX_RANK <= rank <= MAX_RANK

  /** A column value. Dates, scales and ids are integers; a text is ordered by its collation,
      for which plain code-point order stands. */
  datatype Value = Null | Integer(i: int) | Double(r: F64) | Text(s: string)

  predicate TextLess(a: string, b: string) {
    if b == "" then false
    else if a == "" then true
    else if a[0] == b[0] then TextLess(a[1..], b[1..])
    else a[0] < b[0]
  }

  /** Strict order on non-null values: by type first, so that it is total on every pair. */
  predicate Less(a: Value, b: Value) {
    match (a, b)
    case (Null, _) => false
    case (_, Null) => false
    case (Integer(x), Integer(y)) => x < y
    case (Double(x), Double(y)) => x < y
    case (Text(x), Text(y)) => TextLess(x, y)
    case (Integer(_), _) => true
    case (Double(_), Text(_)) => true
    case _ => false
  }

  lemma {:induction false} TextLessTrichotomy(a: string, b: string)
    ensures a == b || TextLess(a, b) || TextLess(b, a)
    ensures !(TextLess(a, b) && TextLess(b, a))
    ensures !TextLess(a, a)
  {
    if a != "" && b != "" && a[0] == b[0] {
      TextLessTrichotomy(a[1..], b[1..]);
      assert a == [a[0]] + a[1..] && b == [b[0]] + b[1..];
    }
    if a != "" {
      TextLessTrichotomy(a[1..], a[1..]);
    }
  }

  lemma {:induction false} TextLessTransitive(a: string, b: string, c: string)
    requires TextLess(a, b) && TextLess(b, c)
    ensures TextLess(a, c)
  {
    if a != "" && a[0] == b[0] && b[0] == c[0] {
      TextLessTransitive(a[1..], b[1..], c[1..]);
    }
  }

  /** Texts are ordered by their first difference, a text before its continuations. */
  lemma {:induction false} TextLessIff(a: string, b: string)
    ensures TextLess(a, b) <==> exists k :: 0 <= k <= |a| && DiffersAt(a, b, k)
    decreases |a|
  {
    if a != "" && b != "" && a[0] == b[0] {
      TextLessIff(a[1..], b[1..]);
      if k :| 0 <= k <= |a| && DiffersAt(a, b, k) {
        assert k > 0 && a[..k][1..] == a[1..][..k - 1] && b[..k][1..] == b[1..][..k - 1];
        assert DiffersAt(a[1..], b[1..], k - 1);
      }
      if k :| 0 <= k <= |a[1..]| && DiffersAt(a[1..], b[1..], k) {
        assert a[..k + 1] == [a[0]] + a[1..][..k] && b[..k + 1] == [b[0]] + b[1..][..k];
        assert DiffersAt(a, b, k + 1);
      }
    } else if b != "" {
      assert TextLess(a, b) ==> DiffersAt(a, b, 0);
      forall k | 0 < k <= |a| ensures !DiffersAt(a, b, k) {
        assert a[..k][0] == a[0] && (k < |b| ==> b[..k][0] == b[0]);
      }
    }
  }

  predicate DiffersAt(a: string, b: string, k: nat)
    requires k <= |a|
  {
    k < |b| && a[..k] == b[..k] && (k < |a| ==> a[k] < b[k])
  }

  lemma LessTrichotomy(a: Value, b: Value)
    requires a != Null && b != Null
    ensures a == b || Less(a, b) || Less(b, a)
    ensures !(Less(a, b) && Less(b, a))
    ensures !Less(a, a)
  {
    if a.Text? && b.Text? {
      TextLessTrichotomy(a.s, b.s);
    }
    if a.Text? {
      TextLessTrichotomy(a.s, a.s);
    }
  }

  lemma LessTransitive(a: Value, b: Value, c: Value)
    requires Less(a, b) && Less(b, c)
    ensures Less(a, c)
  {
    if a.Text? && b.Text? && c.Text? {
      TextLessTransitive(a.s, b.s, c.s);
    }
  }

  datatype Cmp = Gt | Lt | Eq

  /** `a op b`: Unknown as soon as either side is NULL. */
  function Compare(op: Cmp, a: Value, b: Value): Truth {
    if a == Null || b == Null then Unknown
    else match op
      case Gt => ToTruth(Less(b, a))
      case Lt => ToTruth(Less(a, b))
      case Eq => ToTruth(a == b)
  }
}
