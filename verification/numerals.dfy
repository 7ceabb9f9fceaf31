/** Positional numerals, as integer formatting writes them. */
module Numerals {
  import opened Prelude

  /** Lower-case digit. */
  function DigitChar(d: nat): char
    requires d < 16
  {
    if d < 10 then '0' + d as char else 'a' + (d - 10) as char
  }

  predicate IsDigit(c: char) {
    '0' <= c <= '9'
  }

  predicate IsHexDigit(c: char) {
    IsDigit(c) || 'a' <= c <= 'f'
  }

  function DigitValue(c: char): nat
    requires IsHexDigit(c)
  {
    if c <= '9' then c as int - '0' as int else c as int - 'a' as int + 10
  }

  /** Decimal or hexadecimal. */
  type Base = b: nat | b == 10 || b == 16 witness 10

  function Quotient(n: nat, base: Base): nat {
    if base == 10 then n / 10 else n / 16
  }

  function Remainder(n: nat, base: Base): nat {
    if base == 10 then n % 10 else n % 16
  }

  lemma DivMod(n: nat, base: Base)
    ensures Quotient(n, base) * base + Remainder(n, base) == n && Remainder(n, base) < base
    ensures n >= base ==> Quotient(n, base) < n
  {
  }

  /** `n` in the given base, no leading zero. */
  function Digits(n: nat, base: Base): string
    decreases n
  {
    DivMod(n, base);
    if n < base then [DigitChar(n)] else Digits(Quotient(n, base), base) + [DigitChar(Remainder(n, base))]
  }

  predicate AllDigits(s: string) {
    forall i :: 0 <= i < |s| ==> IsDigit(s[i])
  }

  predicate AllHexDigits(s: string) {
    forall i :: 0 <= i < |s| ==> IsHexDigit(s[i])
  }

  /** The number a digit string stands for. */
  function ValueOf(s: string, base: Base): nat
    requires AllHexDigits(s)
    decreases |s|
  {
    if s == "" then 0 else ValueOf(s[..|s| - 1], base) * base + DigitValue(s[|s| - 1])
  }

  lemma DigitBack(d: nat)
    requires d < 16
    ensures IsHexDigit(DigitChar(d)) && DigitValue(DigitChar(d)) == d && (d < 10 <==> IsDigit(DigitChar(d)))
  {
  }

  /** The ten digits, then the first letters. */
  lemma DigitsInOrder(d: nat)
    ensures DigitChar(0) == '0' && DigitChar(9) == '9' && DigitChar(10) == 'a' && DigitChar(15) == 'f'
    ensures d < 15 && d != 9 ==> DigitChar(d + 1) as int == DigitChar(d) as int + 1
  {
  }

  lemma {:induction false} DigitsAreDigits(n: nat, base: Base)
    ensures AllHexDigits(Digits(n, base)) && Digits(n, base) != ""
    ensures base == 10 ==> AllDigits(Digits(n, base))
    decreases n
  {
    DivMod(n, base);
    DigitBack(if n < base then n else Remainder(n, base));
    if n >= base {
      DigitsAreDigits(Quotient(n, base), base);
    }
  }

  lemma ValueSnoc(s: string, d: nat, base: Base)
    requires AllHexDigits(s) && d < 16
    ensures AllHexDigits(s + [DigitChar(d)]) && ValueOf(s + [DigitChar(d)], base) == ValueOf(s, base) * base + d
  {
    DigitBack(d);
    assert (s + [DigitChar(d)])[..|s|] == s;
  }

  lemma {:induction false} ValueOfDigits(n: nat, base: Base)
    ensures AllHexDigits(Digits(n, base)) && ValueOf(Digits(n, base), base) == n
    decreases n
  {
    DigitsAreDigits(n, base);
    DivMod(n, base);
    if n >= base {
      ValueOfDigits(Quotient(n, base), base);
      ValueSnoc(Digits(Quotient(n, base), base), Remainder(n, base), base);
    } else {
      ValueSnoc("", n, base);
      assert "" + [DigitChar(n)] == [DigitChar(n)];
    }
  }

  /** Distinct numbers have distinct numerals. */
  lemma DigitsInjective(a: nat, b: nat, base: Base)
    requires Digits(a, base) == Digits(b, base)
    ensures a == b
  {
    ValueOfDigits(a, base);
    ValueOfDigits(b, base);
  }

  /** `i64::to_string`, without the bound. */
  function Decimal(n: int): string {
    if n < 0 then "-" + Digits(-n, 10) else Digits(n, 10)
  }

  lemma DecimalInjective(a: int, b: int)
    requires Decimal(a) == Decimal(b)
    ensures a == b
  {
    DigitsAreDigits(if a < 0 then -a else a, 10);
    DigitsAreDigits(if b < 0 then -b else b, 10);
    assert a < 0 <==> Decimal(a)[0] == '-';
    assert b < 0 <==> Decimal(b)[0] == '-';
    if a < 0 {
      assert Decimal(a)[1..] == Digits(-a, 10) && Decimal(b)[1..] == Digits(-b, 10);
      DigitsInjective(-a, -b, 10);
    } else {
      DigitsInjective(a, b, 10);
    }
  }
}
