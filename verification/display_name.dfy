/** `src/api/types.rs`: the label of a load, read back from the file name that extract and transform wrote. */
module DisplayName {
  import opened Prelude
  import opened Numerals

  datatype Date = Date(year: int, month: nat, day: nat)

  predicate IsLeap(year: int) {
    year % 4 == 0 && (year % 100 != 0 || year % 400 == 0)
  }

  function DaysIn(year: int, month: nat): nat {
    if month == 2 then (if IsLeap(year) then 29 else 28)
    else if month == 4 || month == 6 || month == 9 || month == 11 then 30
    else 31
  }

  /** The dates chrono can hold. */
  predicate Valid(d: Date) {
    -262143 <= d.year <= 262142 && 1 <= d.month <= 12 && 1 <= d.day <= DaysIn(d.year, d.month)
  }

  /** `Path::file_stem` of a plain file name: all before the last dot that is not the first character. */
  function FileStem(name: string): string {
    var dot := LastDot(name);
    if dot == 0 then name else name[..dot]
  }

  /** The position of the last dot, or 0. */
  function LastDot(name: string): (i: nat)
    ensures i == 0 || i < |name|
  {
    if name == "" then 0 else if name[|name| - 1] == '.' then |name| - 1 else LastDot(name[..|name| - 1])
  }

  // ----- Writing -----

  function Pad2(n: nat): string
    requires n < 100
  {
    [DigitChar(n / 10), DigitChar(n % 10)]
  }

  function Pad4(n: nat): string
    requires n < 10000
  {
    [DigitChar(n / 1000), DigitChar(n / 100 % 10), DigitChar(n / 10 % 10), DigitChar(n % 10)]
  }

  /** `%Y`: four digits, with a sign outside 0 to 9999. */
  function YearText(year: int): string {
    if 0 <= year < 10000 then Pad4(year)
    else if year < 0 then "-" + Unsigned(-year)
    else "+" + Unsigned(year)
  }

  function Unsigned(n: nat): string {
    if n < 10000 then Pad4(n) else Digits(n, 10)
  }

  /** `%Y%m%d`. */
  function Compact(d: Date): string
    requires Valid(d)
  {
    YearText(d.year) + (Pad2(d.month) + Pad2(d.day))
  }

  /** The name extract gives a batch, without its extension. */
  function BatchStem(start: Date, end: Date): string
    requires Valid(start) && Valid(end)
  {
    "asteroids" + ("_" + (Compact(start) + ("_" + Compact(end))))
  }

  /** The name extract writes. */
  function BatchFile(start: Date, end: Date): string
    requires Valid(start) && Valid(end)
  {
    BatchStem(start, end) + ".json"
  }

  /** Transform takes the stem of the file it reads and adds a suffix. */
  function TransformedFile(file: string): string {
    FileStem(file) + "_transformed.json"
  }

  // ----- Reading -----

  /** How many of the first `max` characters are digits, without a gap. */
  function Span(s: string, max: nat): (n: nat)
    ensures n <= |s| && n <= max && AllDigits(s[..n])
  {
    if s == "" || max == 0 || !IsDigit(s[0]) then 0
    else
      var n := Span(s[1..], max - 1) + 1;
      assert forall i :: 0 < i < n ==> s[i] == s[1..][..n - 1][i - 1];
      n
  }

  function TrimStart(s: string): string {
    if s != "" && (s[0] == ' ' || '\t' <= s[0] <= '\r') then TrimStart(s[1..]) else s
  }

  /** A number of one to `max` digits, and what follows it. */
  function ReadNumber(s: string, max: nat): (r: Option<(int, string)>)
    ensures r.Some? ==> r.value.0 >= 0
  {
    var n := Span(s, max);
    if n == 0 then None
    else
      assert AllHexDigits(s[..n]);
      Some((ValueOf(s[..n], 10), s[n..]))
  }

  /** `%Y`: up to four digits, or a sign and as many as there are. */
  function ReadYear(s: string): Option<(int, string)> {
    var t := TrimStart(s);
    if t != "" && t[0] == '-' then
      var r := ReadNumber(t[1..], |t|);
      if r.None? then None else Some((-r.value.0, r.value.1))
    else if t != "" && t[0] == '+' then ReadNumber(t[1..], |t|)
    else ReadNumber(t, 4)
  }

  /** `NaiveDate::parse_from_str(s, "%Y%m%d")`. */
  function ParseCompact(s: string): Option<Date> {
    var year := ReadYear(s);
    if year.None? then None
    else
      var month := ReadNumber(TrimStart(year.value.1), 2);
      if month.None? then None
      else
        var day := ReadNumber(TrimStart(month.value.1), 2);
        if day.None? || day.value.1 != "" then None
        else
          var d := Date(year.value.0, month.value.0, day.value.0);
          if Valid(d) then Some(d) else None
  }

  /** The text up to the first underscore, and after it if there is one. */
  function Cut(s: string): (string, Option<string>) {
    if s == "" then ("", None)
    else if s[0] == '_' then ("", Some(s[1..]))
    else
      var (head, rest) := Cut(s[1..]);
      ([s[0]] + head, rest)
  }

  datatype Parts = Parts(prefix: string, start: string, end: string)

  /** The first three of `splitn(4, '_')`. */
  function Split(stem: string): Option<Parts> {
    var (prefix, a) := Cut(stem);
    if a.None? then None
    else
      var (start, b) := Cut(a.value);
      if b.None? then None
      else Some(Parts(prefix, start, Cut(b.value).0))
  }

  /** The prefix and the dates of a stem of the expected shape. */
  function ParseStem(stem: string): Option<(string, Date, Date)> {
    var parts := Split(stem);
    if parts.None? then None
    else
      var start, end := ParseCompact(parts.value.start), ParseCompact(parts.value.end);
      if start.None? || end.None? then None else Some((parts.value.prefix, start.value, end.value))
  }

  function MonthName(month: nat): string
    requires 1 <= month <= 12
  {
    ["Jan", "Feb", "Mar", "Apr", "May", "Jun", "Jul", "Aug", "Sep", "Oct", "Nov", "Dec"][month - 1]
  }

  /** `%b %e`. */
  function MonthDay(d: Date): string
    requires Valid(d)
  {
    MonthName(d.month) + [' ', if d.day < 10 then ' ' else DigitChar(d.day / 10), DigitChar(d.day % 10)]
  }

  /** `%b %e, %Y`. */
  function FullDate(d: Date): string
    requires Valid(d)
  {
    MonthDay(d) + (", " + YearText(d.year))
  }

  const DASH := '\U{2013}'

  /** One date, or two joined by a dash. */
  function RangeText(start: Date, end: Date): string
    requires Valid(start) && Valid(end)
  {
    if start == end then FullDate(start) else MonthDay(start) + ([' ', DASH, ' '] + FullDate(end))
  }

  /** `make_ascii_uppercase` on the first character, if it is one byte long. */
  function Capitalised(s: string): string {
    if s != "" && 'a' <= s[0] <= 'z' then [(s[0] as int - 32) as char] + s[1..] else s
  }

  function DisplayName(sourceFile: string): string {
    var stem := FileStem(sourceFile);
    var parsed := ParseStem(stem);
    if parsed.None? then stem
    else
      var (prefix, start, end) := parsed.value;
      Heading(prefix) + RangeText(start, end)
  }

  // ----- Reading back what was written -----

  lemma {:induction false} SpanAll(s: string, rest: string, max: nat)
    requires AllDigits(s) && |s| <= max
    requires |s| == max || rest == "" || !IsDigit(rest[0])
    ensures Span(s + rest, max) == |s|
    decreases |s|
  {
    if s == "" {
      assert s + rest == rest;
    } else {
      assert (s + rest)[1..] == s[1..] + rest;
      SpanAll(s[1..], rest, max - 1);
    }
  }

  /** A run of digits reads as its value. */
  lemma NumberReads(s: string, rest: string, max: nat)
    requires AllDigits(s) && s != "" && |s| <= max
    requires |s| == max || rest == "" || !IsDigit(rest[0])
    ensures AllHexDigits(s) && ReadNumber(s + rest, max) == Some((ValueOf(s, 10), rest))
  {
    SpanAll(s, rest, max);
    assert (s + rest)[..|s|] == s && (s + rest)[|s|..] == rest;
  }

  lemma Pad2Value(n: nat)
    requires n < 100
    ensures AllDigits(Pad2(n)) && AllHexDigits(Pad2(n)) && ValueOf(Pad2(n), 10) == n
  {
    DigitBack(n / 10);
    DigitBack(n % 10);
    ValueSnoc("", n / 10, 10);
    ValueSnoc([DigitChar(n / 10)], n % 10, 10);
    assert "" + [DigitChar(n / 10)] == [DigitChar(n / 10)];
    assert [DigitChar(n / 10)] + [DigitChar(n % 10)] == Pad2(n);
  }

  lemma Pad4Value(n: nat)
    requires n < 10000
    ensures AllDigits(Pad4(n)) && AllHexDigits(Pad4(n)) && ValueOf(Pad4(n), 10) == n
  {
    var a, b, c, d := n / 1000, n / 100 % 10, n / 10 % 10, n % 10;
    assert n / 100 == a * 10 + b && n / 10 == n / 100 * 10 + c && n == n / 10 * 10 + d;
    DigitBack(a);
    DigitBack(b);
    DigitBack(c);
    DigitBack(d);
    ValueSnoc("", a, 10);
    assert "" + [DigitChar(a)] == [DigitChar(a)];
    ValueSnoc([DigitChar(a)], b, 10);
    assert [DigitChar(a)] + [DigitChar(b)] == [DigitChar(a), DigitChar(b)];
    ValueSnoc([DigitChar(a), DigitChar(b)], c, 10);
    assert [DigitChar(a), DigitChar(b)] + [DigitChar(c)] == [DigitChar(a), DigitChar(b), DigitChar(c)];
    ValueSnoc([DigitChar(a), DigitChar(b), DigitChar(c)], d, 10);
    assert [DigitChar(a), DigitChar(b), DigitChar(c)] + [DigitChar(d)] == Pad4(n);
  }

  /** A digit in front is nothing to trim. */
  lemma NoTrim(s: string)
    requires s == "" || IsDigit(s[0])
    ensures TrimStart(s) == s
  {
  }

  /** A four-digit year and the rest of a compact date read back exactly. */
  lemma CompactReads(d: Date)
    requires Valid(d) && 0 <= d.year < 10000
    ensures ParseCompact(Compact(d)) == Some(d)
  {
    Pad4Value(d.year);
    Pad2Value(d.month);
    Pad2Value(d.day);
    var rest := Pad2(d.month) + Pad2(d.day);
    NoTrim(Compact(d));
    NumberReads(Pad4(d.year), rest, 4);
    NoTrim(rest);
    NumberReads(Pad2(d.month), Pad2(d.day), 2);
    NoTrim(Pad2(d.day));
    assert Pad2(d.day) + "" == Pad2(d.day);
    NumberReads(Pad2(d.day), "", 2);
  }

  lemma UnsignedIsDigits(n: nat)
    ensures AllDigits(Unsigned(n)) && Unsigned(n) != ""
  {
    if n < 10000 {
      Pad4Value(n);
    } else {
      DigitsAreDigits(n, 10);
    }
  }

  /** A sign takes all the digits that follow into the year, so nothing is left for the month. */
  lemma SignTakesAll(sign: char, digits: string)
    requires sign == '-' || sign == '+'
    requires digits != "" && AllDigits(digits)
    ensures ParseCompact([sign] + digits) == None
  {
    var s := [sign] + digits;
    assert s[0] == sign && s[1..] == digits && TrimStart(s) == s;
    assert digits + "" == digits;
    NumberReads(digits, "", |s|);
    assert ReadYear(s).Some? && ReadYear(s).value.1 == "";
    assert TrimStart("") == "" && ReadNumber("", 2) == None;
  }

  /** What follows the year's own digits is digits again. */
  lemma CompactDigits(n: nat, d: Date)
    requires Valid(d)
    ensures AllDigits(Unsigned(n) + (Pad2(d.month) + Pad2(d.day))) && Unsigned(n) != ""
  {
    UnsignedIsDigits(n);
    Pad2Value(d.month);
    Pad2Value(d.day);
  }

  lemma SignedCompactFails(d: Date)
    requires Valid(d) && !(0 <= d.year < 10000)
    ensures ParseCompact(Compact(d)) == None
  {
    var n: nat := if d.year < 0 then -d.year else d.year;
    var sign := if d.year < 0 then '-' else '+';
    var tail := Pad2(d.month) + Pad2(d.day);
    CompactDigits(n, d);
    assert Compact(d) == ([sign] + Unsigned(n)) + tail == [sign] + (Unsigned(n) + tail);
    SignTakesAll(sign, Unsigned(n) + tail);
  }

  /** A compact date is read back if and only if its year has four digits. */
  lemma CompactReadsIff(d: Date)
    requires Valid(d)
    ensures ParseCompact(Compact(d)) == if 0 <= d.year < 10000 then Some(d) else None
  {
    if 0 <= d.year < 10000 {
      CompactReads(d);
    } else {
      SignedCompactFails(d);
    }
  }

  lemma CompactHasNoUnderscore(d: Date)
    requires Valid(d)
    ensures '_' !in Compact(d) && '.' !in Compact(d)
  {
    var n: nat := if d.year < 0 then -d.year else d.year;
    var digits := Unsigned(n) + (Pad2(d.month) + Pad2(d.day));
    CompactDigits(n, d);
    assert '_' !in digits && '.' !in digits;
    assert Compact(d) == (if d.year < 0 then "-" else if d.year < 10000 then "" else "+") + digits;
  }

  lemma {:induction false} CutAt(a: string, b: string)
    requires '_' !in a
    ensures Cut(a + ("_" + b)) == (a, Some(b))
  {
    var s := a + ("_" + b);
    if a == "" {
      assert s[1..] == b;
    } else {
      assert s[1..] == a[1..] + ("_" + b);
      CutAt(a[1..], b);
      assert a == [a[0]] + a[1..];
    }
  }

  lemma {:induction false} LastDotAt(a: string, b: string)
    requires '.' !in b && a != ""
    ensures LastDot(a + ("." + b)) == |a|
    decreases |b|
  {
    var s := a + ("." + b);
    if b != "" {
      assert s[..|s| - 1] == a + ("." + b[..|b| - 1]);
      LastDotAt(a, b[..|b| - 1]);
    }
  }

  lemma StemBefore(a: string, extension: string)
    requires a != "" && '.' !in extension
    ensures FileStem(a + ("." + extension)) == a
  {
    LastDotAt(a, extension);
    assert (a + ("." + extension))[..|a|] == a;
  }

  /** From batch to label the extension goes twice and the suffix stays. */
  lemma StemOfTransformed(start: Date, end: Date)
    requires Valid(start) && Valid(end)
    ensures FileStem(TransformedFile(BatchFile(start, end))) == BatchStem(start, end) + "_transformed"
  {
    var stem := BatchStem(start, end);
    assert ".json" == "." + "json";
    StemBefore(stem, "json");
    var a := stem + "_transformed";
    assert stem + "_transformed.json" == a + ("." + "json");
    StemBefore(a, "json");
  }

  lemma Reassociate(a: string, b: string, c: string, d: string)
    ensures a + ("_" + (b + ("_" + c))) + ("_" + d) == a + ("_" + (b + ("_" + (c + ("_" + d)))))
  {
  }

  lemma SplitFour(a: string, b: string, c: string, d: string)
    requires '_' !in a && '_' !in b && '_' !in c
    ensures Split(a + ("_" + (b + ("_" + c))) + ("_" + d)) == Some(Parts(a, b, c))
  {
    Reassociate(a, b, c, d);
    CutAt(a, b + ("_" + (c + ("_" + d))));
    CutAt(b, c + ("_" + d));
    CutAt(c, d);
  }

  lemma SplitOfTransformed(start: Date, end: Date)
    requires Valid(start) && Valid(end)
    ensures Split(BatchStem(start, end) + "_transformed") == Some(Parts("asteroids", Compact(start), Compact(end)))
  {
    CompactHasNoUnderscore(start);
    CompactHasNoUnderscore(end);
    assert "_transformed" == "_" + "transformed";
    SplitFour("asteroids", Compact(start), Compact(end), "transformed");
  }

  /** The name written by extract and suffixed by transform is parsed, and gives back exactly the
      two dates, if and only if both years have four digits. */
  lemma FileNameReadsIff(start: Date, end: Date)
    requires Valid(start) && Valid(end)
    ensures ParseStem(FileStem(TransformedFile(BatchFile(start, end))))
      == if 0 <= start.year < 10000 && 0 <= end.year < 10000 then Some(("asteroids", start, end)) else None
  {
    StemOfTransformed(start, end);
    SplitOfTransformed(start, end);
    CompactReadsIff(start);
    CompactReadsIff(end);
  }

  lemma NoDash(d: Date)
    requires Valid(d)
    ensures DASH !in FullDate(d)
  {
    DigitBack(d.day / 10);
    DigitBack(d.day % 10);
    UnsignedIsDigits(if d.year < 0 then -d.year else d.year);
    assert forall c :: c in MonthName(d.month) ==> c < DASH;
  }

  lemma DashIffTwoDates(start: Date, end: Date)
    requires Valid(start) && Valid(end)
    ensures DASH in RangeText(start, end) <==> start != end
  {
    if start == end {
      NoDash(start);
    } else {
      assert [' ', DASH, ' '][1] == DASH;
      assert (MonthDay(start) + ([' ', DASH, ' '] + FullDate(end)))[|MonthDay(start)| + 1] == DASH;
    }
  }

  lemma Capital()
    ensures Capitalised("asteroids") == "Asteroids"
  {
  }

  /** What stands before the range. */
  function Heading(prefix: string): string {
    Capitalised(prefix) + [' ', '\U{B7}', ' ']
  }

  lemma HeadingOfAsteroids()
    ensures Heading("asteroids") == "Asteroids" + [' ', '\U{B7}', ' '] && DASH !in Heading("asteroids")
  {
    Capital();
  }

  lemma InConcat(c: char, a: string, b: string)
    ensures c in a + b <==> c in a || c in b
  {
  }

  lemma DisplayParsed(file: string, prefix: string, start: Date, end: Date)
    requires ParseStem(FileStem(file)) == Some((prefix, start, end)) && Valid(start) && Valid(end)
    ensures DisplayName(file) == Heading(prefix) + RangeText(start, end)
  {
  }

  /** The label shows the range, and one date exactly when the two are equal. */
  lemma LabelOfLoadedFile(start: Date, end: Date)
    requires Valid(start) && Valid(end) && 0 <= start.year < 10000 && 0 <= end.year < 10000
    ensures
      var name := DisplayName(TransformedFile(BatchFile(start, end)));
      && name == "Asteroids" + [' ', '\U{B7}', ' '] + RangeText(start, end)
      && (DASH in name <==> start != end)
  {
    FileNameReadsIff(start, end);
    DisplayParsed(TransformedFile(BatchFile(start, end)), "asteroids", start, end);
    DashIffTwoDates(start, end);
    HeadingOfAsteroids();
    InConcat(DASH, Heading("asteroids"), RangeText(start, end));
  }

  // ----- What a label tells -----

  /** The three letters of a month, by number. */
  predicate Spells(name: string, month: nat, p: char, q: char, r: char, number: nat) {
    month == number ==> name == [p, q, r]
  }

  lemma MonthNameIs(month: nat)
    requires 1 <= month <= 12
    ensures
      var name := MonthName(month);
      && Spells(name, month, 'J', 'a', 'n', 1) && Spells(name, month, 'F', 'e', 'b', 2)
      && Spells(name, month, 'M', 'a', 'r', 3) && Spells(name, month, 'A', 'p', 'r', 4)
      && Spells(name, month, 'M', 'a', 'y', 5) && Spells(name, month, 'J', 'u', 'n', 6)
      && Spells(name, month, 'J', 'u', 'l', 7) && Spells(name, month, 'A', 'u', 'g', 8)
      && Spells(name, month, 'S', 'e', 'p', 9) && Spells(name, month, 'O', 'c', 't', 10)
      && Spells(name, month, 'N', 'o', 'v', 11) && Spells(name, month, 'D', 'e', 'c', 12)
  {
  }

  /** A date in a label: the month's name, a space, then the day, right-aligned in two places. */
  lemma MonthDayIs(d: Date)
    requires Valid(d)
    ensures MonthDay(d) == MonthName(d.month) + ((if d.day < 10 then "  " else " ") + Digits(d.day, 10))
  {
    DivMod(d.day, 10);
    if d.day >= 10 {
      assert Digits(d.day / 10, 10) == [DigitChar(d.day / 10)];
      assert Digits(d.day, 10) == [DigitChar(d.day / 10)] + [DigitChar(d.day % 10)];
    }
  }

  lemma FourDigits(year: int)
    requires 0 <= year < 10000
    ensures |YearText(year)| == 4 && AllHexDigits(YearText(year)) && ValueOf(YearText(year), 10) == year
  {
    Pad4Value(year);
  }

  /** A label in its parts: nothing or the start and a dash, then the end, a comma, and the year of the end in
      four digits. */
  lemma LabelParts(start: Date, end: Date)
    requires Valid(start) && Valid(end) && 0 <= end.year < 10000
    ensures
      var first := if start == end then "" else MonthDay(start) + [' ', DASH, ' '];
      RangeText(start, end) == first + (MonthDay(end) + (", " + YearText(end.year)))
    ensures |YearText(end.year)| == 4 && AllHexDigits(YearText(end.year)) && ValueOf(YearText(end.year), 10) == end.year
  {
    FourDigits(end.year);
  }

  /** The last days of February. */
  lemma LeapDays(year: int)
    requires 0 <= year < 10000
    ensures Valid(Date(year, 2, 29)) <==> year % 400 == 0 || (year % 4 == 0 && year % 100 != 0)
    ensures Valid(Date(year, 2, 28)) && !Valid(Date(year, 2, 30)) && !Valid(Date(year, 4, 31))
    ensures Valid(Date(year, 12, 31)) && !Valid(Date(year, 1, 32)) && !Valid(Date(year, 13, 1))
  {
  }

  lemma MonthNames(month: nat)
    requires 1 <= month <= 12
    ensures |MonthName(month)| == 3 && MonthOf(MonthName(month)) == month
  {
  }

  /** Three letters to a month, by the letters that tell them apart. */
  function MonthOf(name: string): nat
    requires |name| == 3
  {
    if name[2] == 'n' then (if name[1] == 'a' then 1 else 6)
    else if name[2] == 'b' then 2
    else if name[2] == 'r' then (if name[0] == 'M' then 3 else 4)
    else if name[2] == 'y' then 5
    else if name[2] == 'l' then 7
    else if name[2] == 'g' then 8
    else if name[2] == 'p' then 9
    else if name[2] == 't' then 10
    else if name[2] == 'v' then 11
    else 12
  }

  lemma MonthDayReads(a: Date, b: Date)
    requires Valid(a) && Valid(b)
    ensures |MonthDay(a)| == 6
    ensures MonthDay(a) == MonthDay(b) <==> a.month == b.month && a.day == b.day
  {
    MonthNames(a.month);
    MonthNames(b.month);
    DigitBack(a.day % 10);
    DigitBack(b.day % 10);
    DigitBack(a.day / 10);
    DigitBack(b.day / 10);
    if MonthDay(a) == MonthDay(b) {
      assert MonthDay(a)[..3] == MonthName(a.month) && MonthDay(b)[..3] == MonthName(b.month);
      assert MonthDay(a)[4] == MonthDay(b)[4] && MonthDay(a)[5] == MonthDay(b)[5];
    }
  }

  lemma FullDateReads(a: Date, b: Date)
    requires Valid(a) && Valid(b) && 0 <= a.year < 10000 && 0 <= b.year < 10000
    ensures |FullDate(a)| == 12
    ensures FullDate(a) == FullDate(b) <==> a == b
  {
    MonthDayReads(a, b);
    MonthDayReads(b, a);
    Pad4Value(a.year);
    Pad4Value(b.year);
    assert FullDate(a)[..6] == MonthDay(a) && FullDate(b)[..6] == MonthDay(b);
    assert FullDate(a)[8..] == Pad4(a.year) && FullDate(b)[8..] == Pad4(b.year);
  }

  /** Two ranges share a label exactly when they agree on everything but the start's year: of a range
      of several days the label prints only the last day's year. */
  lemma LabelsAgreeIff(start: Date, end: Date, start': Date, end': Date)
    requires Valid(start) && Valid(end) && 0 <= end.year < 10000
    requires Valid(start') && Valid(end') && 0 <= end'.year < 10000
    ensures RangeText(start, end) == RangeText(start', end') <==>
      end == end' && (start == end <==> start' == end') && start.month == start'.month && start.day == start'.day
  {
    MonthDayReads(start, start');
    MonthDayReads(start', start);
    FullDateReads(end, end');
    FullDateReads(end', end);
    var a, b := RangeText(start, end), RangeText(start', end');
    if start != end {
      assert a[..6] == MonthDay(start) && a[9..] == FullDate(end);
    }
    if start' != end' {
      assert b[..6] == MonthDay(start') && b[9..] == FullDate(end');
    }
  }
}
