/** `src/alert/discord.rs`: numbers with thousands separators. */
module Commas {
  import opened Prelude
  import opened Numerals

  const I64_MAX := 0x7fff_ffff_ffff_ffff
  const I64_MIN := -0x8000_0000_0000_0000

  /** `round() as i64`: to the nearest, halves away from zero, saturating. */
  function RoundToI64(x: real): int {
    var rounded := if x >= 0.0 then (x + 0.5).Floor else -(0.5 - x).Floor;
    Max(I64_MIN, Min(I64_MAX, rounded))
  }

  lemma RoundIsNearest(x: real)
    requires I64_MIN as real <= x <= I64_MAX as real
    ensures
      var n := RoundToI64(x) as real;
      -0.5 <= x - n <= 0.5 && (x - n == 0.5 ==> x < 0.0) && (x - n == -0.5 ==> x > 0.0)
  {
  }

  /** A comma before every third digit from the right. */
  function Grouped(s: string): string {
    if |s| <= 3 then s else Grouped(s[..|s| - 3]) + "," + s[|s| - 3..]
  }

  function Reversed(s: string): string {
    if s == "" then "" else Reversed(s[1..]) + [s[0]]
  }

  function Formatted(n: int): string {
    if n < 0 then "-" + Grouped(Digits(-n, 10)) else Grouped(Digits(n, 10))
  }

  lemma {:induction false} ReversedPush(s: string, c: char)
    ensures Reversed(s + [c]) == [c] + Reversed(s)
  {
    if s != "" {
      assert (s + [c])[1..] == s[1..] + [c];
      ReversedPush(s[1..], c);
    }
  }

  /** The same grouping, seen from the left: a digit in front adds a comma when whole groups follow. */
  lemma {:induction false} GroupedCons(c: char, s: string)
    ensures s != "" && |s| % 3 == 0 ==> Grouped([c] + s) == [c] + ("," + Grouped(s))
    ensures s == "" || |s| % 3 != 0 ==> Grouped([c] + s) == [c] + Grouped(s)
    decreases |s|
  {
    var t := [c] + s;
    if |s| > 3 {
      var front, group := s[..|s| - 3], s[|s| - 3..];
      GroupedCons(c, front);
      assert t[..|t| - 3] == [c] + front && t[|t| - 3..] == group;
      assert |front| % 3 == |s| % 3;
    } else if |s| == 3 {
      assert t[..1] == [c] && t[1..] == s;
    }
  }

  /** What the loop has read: the last `i` digits. */
  function LastDigits(digits: string, i: nat): string
    requires i <= |digits|
  {
    digits[|digits| - i..]
  }

  lemma LastDigitsStep(digits: string, i: nat)
    requires i < |digits|
    ensures LastDigits(digits, i + 1) == [digits[|digits| - 1 - i]] + LastDigits(digits, i)
    ensures |LastDigits(digits, i)| == i
  {
  }

  /** One turn of the loop. */
  lemma PushDigit(grouped: string, c: char, rest: string)
    requires Reversed(grouped) == Grouped(rest)
    ensures rest != "" && |rest| % 3 == 0 ==> Reversed(grouped + [','] + [c]) == Grouped([c] + rest)
    ensures rest == "" || |rest| % 3 != 0 ==> Reversed(grouped + [c]) == Grouped([c] + rest)
  {
    GroupedCons(c, rest);
    ReversedPush(grouped, ',');
    ReversedPush(grouped + [','], c);
    ReversedPush(grouped, c);
  }

  /** The loop over the reversed digits; the one integer without an absolute value is excluded. */
  method FormatCommas(num: real) returns (r: string)
    requires RoundToI64(num) != I64_MIN
    ensures r == Formatted(RoundToI64(num))
  {
    var rounded := RoundToI64(num);
    var digits := Digits(if rounded < 0 then -rounded else rounded, 10);
    var grouped := "";
    for i := 0 to |digits|
      invariant Reversed(grouped) == Grouped(LastDigits(digits, i))
    {
      var c := digits[|digits| - 1 - i];
      LastDigitsStep(digits, i);
      PushDigit(grouped, c, LastDigits(digits, i));
      if i > 0 && i % 3 == 0 {
        grouped := grouped + [','];
      }
      grouped := grouped + [c];
    }
    assert LastDigits(digits, |digits|) == digits;
    grouped := Reversed(grouped);
    r := if rounded < 0 then "-" + grouped else grouped;
  }

  /** The text without its commas. */
  function WithoutCommas(s: string): string {
    if s == "" then "" else WithoutCommas(s[..|s| - 1]) + if s[|s| - 1] == ',' then "" else [s[|s| - 1]]
  }

  lemma {:induction false} WithoutCommasConcat(a: string, b: string)
    ensures WithoutCommas(a + b) == WithoutCommas(a) + WithoutCommas(b)
    decreases |b|
  {
    if b == "" {
      assert a + b == a;
    } else {
      var n := |b| - 1;
      assert (a + b)[..|a| + n] == a + b[..n];
      WithoutCommasConcat(a, b[..n]);
    }
  }

  lemma {:induction false} DigitsHaveNoCommas(s: string)
    requires AllDigits(s)
    ensures WithoutCommas(s) == s
    decreases |s|
  {
    if s != "" {
      DigitsHaveNoCommas(s[..|s| - 1]);
    }
  }

  lemma {:induction false} GroupedReads(s: string)
    requires AllDigits(s)
    ensures WithoutCommas(Grouped(s)) == s
    decreases |s|
  {
    if |s| <= 3 {
      DigitsHaveNoCommas(s);
    } else {
      var front, group := s[..|s| - 3], s[|s| - 3..];
      GroupedReads(front);
      DigitsHaveNoCommas(group);
      WithoutCommasConcat(Grouped(front) + ",", group);
      WithoutCommasConcat(Grouped(front), ",");
      assert WithoutCommas(",") == "";
    }
  }

  /** Deleting the commas gives back the decimal numeral, sign and all. */
  lemma CommasAreReversible(n: int)
    ensures WithoutCommas(Formatted(n)) == Decimal(n)
  {
    var digits := Digits(if n < 0 then -n else n, 10);
    DigitsAreDigits(if n < 0 then -n else n, 10);
    GroupedReads(digits);
    if n < 0 {
      WithoutCommasConcat("-", Grouped(digits));
      assert WithoutCommas("-") == "-";
    }
  }

  /** Equal texts stand for equal numbers. */
  lemma FormattedInjective(a: int, b: int)
    requires Formatted(a) == Formatted(b)
    ensures a == b
  {
    CommasAreReversible(a);
    CommasAreReversible(b);
    DecimalInjective(a, b);
  }

  /** One to three digits, then groups of a comma and exactly three digits. */
  predicate WellGrouped(s: string) {
    if |s| <= 3 then s != "" && AllDigits(s)
    else s[|s| - 4] == ',' && AllDigits(s[|s| - 3..]) && WellGrouped(s[..|s| - 4])
  }

  lemma {:induction false} GroupsOfThree(s: string)
    requires s != "" && AllDigits(s)
    ensures WellGrouped(Grouped(s))
    decreases |s|
  {
    if |s| > 3 {
      var front, group := s[..|s| - 3], s[|s| - 3..];
      GroupsOfThree(front);
      var g := Grouped(s);
      assert g == Grouped(front) + "," + group;
      assert g[..|g| - 4] == Grouped(front) && g[|g| - 3..] == group && g[|g| - 4] == ',';
      assert |g| > 3;
    }
  }

  /** Every number prints as a well-grouped numeral after an optional minus sign. */
  lemma FormattedIsGrouped(n: int)
    ensures n >= 0 ==> WellGrouped(Formatted(n))
    ensures n < 0 ==> Formatted(n)[0] == '-' && WellGrouped(Formatted(n)[1..])
  {
    var digits := Digits(if n < 0 then -n else n, 10);
    DigitsAreDigits(if n < 0 then -n else n, 10);
    GroupsOfThree(digits);
    if n < 0 {
      assert Formatted(n)[1..] == Grouped(digits);
    }
  }
}
