/** Rust's `{:?}` text of the values that go into cache keys, and why it can be read back. */
module DebugFormat {
  import opened Prelude
  import opened Numerals

  /** A value as `derive(Debug)` sees it. */
  datatype Debug =
    | Atom(text: string)
    | Quoted(str: string)
    | Tuple(name: string, arg: Debug)
    | Struct(name: string, fields: Fields)

  datatype Fields = Last(key: string, value: Debug) | More(key: string, value: Debug, rest: Fields)

  // ----- Cutting a text in two -----

  lemma Cancel(p: string, x: string, y: string)
    requires p + x == p + y
    ensures x == y
  {
    assert x == (p + x)[|p|..] && y == (p + y)[|p|..];
  }

  lemma NoLonger(inside: char -> bool, a: string, x: string, b: string, y: string)
    requires a + x == b + y
    requires forall i :: 0 <= i < |b| ==> inside(b[i])
    requires x == "" || !inside(x[0])
    ensures |b| <= |a|
  {
    var i := if |a| < |b| then |a| else 0;
    assert b != "" ==> b[i] == (b + y)[i];
  }

  /** Texts that agree, agree up to their first character outside a class. */
  lemma SplitAtStop(inside: char -> bool, a: string, x: string, b: string, y: string)
    requires a + x == b + y
    requires forall i :: 0 <= i < |a| ==> inside(a[i])
    requires forall i :: 0 <= i < |b| ==> inside(b[i])
    requires x == "" || !inside(x[0])
    requires y == "" || !inside(y[0])
    ensures a == b && x == y
  {
    NoLonger(inside, a, x, b, y);
    NoLonger(inside, b, y, a, x);
    assert a == (a + x)[..|a|] && b == (b + y)[..|b|];
    Cancel(a, x, y);
  }

  // ----- String literals -----

  /** Characters with a two-character escape. */
  predicate Short(c: char) {
    c == '\0' || c == '\t' || c == '\r' || c == '\n' || c == '\"' || c == '\\'
  }

  function ShortCode(c: char): char {
    if c == '\0' then '0' else if c == '\t' then 't' else if c == '\r' then 'r' else if c == '\n' then 'n' else c
  }

  /** `char::escape_debug` inside a string, followed by `rest`; `printable` is the standard
      library's table. */
  function EscapeChar(printable: char -> bool, c: char, rest: string): string {
    if Short(c) then ['\\', ShortCode(c)] + rest
    else if printable(c) then [c] + rest
    else ['\\', 'u', '{'] + HexCode(c, rest)
  }

  function HexCode(c: char, rest: string): string {
    Digits(c as int, 16) + ("}" + rest)
  }

  /** The text up to and including the closing quote, followed by `rest`. */
  function Literal(printable: char -> bool, s: string, rest: string): string {
    if s == "" then "\"" + rest else EscapeChar(printable, s[0], Literal(printable, s[1..], rest))
  }

  lemma HexCodeReads(a: char, x: string, b: char, y: string)
    requires HexCode(a, x) == HexCode(b, y)
    ensures a == b && x == y
  {
    DigitsAreDigits(a as int, 16);
    DigitsAreDigits(b as int, 16);
    SplitAtStop(IsHexDigit, Digits(a as int, 16), "}" + x, Digits(b as int, 16), "}" + y);
    DigitsInjective(a as int, b as int, 16);
    Cancel("}", x, y);
  }

  /** Two characters tell which of the three forms an escape has. */
  lemma EscapeForm(printable: char -> bool, c: char, rest: string)
    ensures
      var e := EscapeChar(printable, c, rest);
      && e != "" && e[0] != '\"'
      && (e[0] == '\\' <==> Short(c) || !printable(c))
      && (e[0] == '\\' ==> |e| > 1 && (e[1] == 'u' <==> !Short(c)))
  {
  }

  lemma EscapeCharReads(printable: char -> bool, a: char, x: string, b: char, y: string)
    requires EscapeChar(printable, a, x) == EscapeChar(printable, b, y)
    ensures a == b && x == y
  {
    EscapeForm(printable, a, x);
    EscapeForm(printable, b, y);
    if Short(a) {
      assert EscapeChar(printable, a, x)[1] == ShortCode(a) && EscapeChar(printable, b, y)[1] == ShortCode(b);
      Cancel(['\\', ShortCode(a)], x, y);
    } else if printable(a) {
      assert EscapeChar(printable, a, x)[0] == a && EscapeChar(printable, b, y)[0] == b;
      Cancel([a], x, y);
    } else {
      Cancel(['\\', 'u', '{'], HexCode(a, x), HexCode(b, y));
      HexCodeReads(a, x, b, y);
    }
  }

  /** A quoted text ends where its literal does, whatever quotes, backslashes or colons it holds. */
  lemma {:induction false} LiteralReads(printable: char -> bool, s: string, x: string, t: string, y: string)
    requires Literal(printable, s, x) == Literal(printable, t, y)
    ensures s == t && x == y
    decreases |s| + |t|
  {
    if s != "" {
      EscapeForm(printable, s[0], Literal(printable, s[1..], x));
    }
    if t != "" {
      EscapeForm(printable, t[0], Literal(printable, t[1..], y));
    }
    if s == "" || t == "" {
      Cancel("\"", x, y);
    } else {
      EscapeCharReads(printable, s[0], Literal(printable, s[1..], x), t[0], Literal(printable, t[1..], y));
      LiteralReads(printable, s[1..], x, t[1..], y);
      assert s == [s[0]] + s[1..] && t == [t[0]] + t[1..];
    }
  }

  // ----- Whole values -----

  /** Characters of identifiers, numbers, dates and UUIDs. */
  predicate AtomChar(c: char) {
    IsDigit(c) || 'a' <= c <= 'z' || 'A' <= c <= 'Z' || c == '_' || c == '-' || c == '+' || c == '.'
  }

  predicate IsAtom(s: string) {
    s != "" && forall i :: 0 <= i < |s| ==> AtomChar(s[i])
  }

  predicate Wf(d: Debug) {
    match d
    case Atom(text) => IsAtom(text)
    case Quoted(_) => true
    case Tuple(name, arg) => IsAtom(name) && Wf(arg)
    case Struct(name, fields) => IsAtom(name) && WfFields(fields)
  }

  predicate WfFields(fs: Fields) {
    IsAtom(fs.key) && Wf(fs.value) && (fs.More? ==> WfFields(fs.rest))
  }

  /** `{:?}` of `d`, followed by `rest`. */
  function Write(printable: char -> bool, d: Debug, rest: string): string
    decreases d
  {
    match d
    case Atom(text) => text + rest
    case Quoted(s) => "\"" + Literal(printable, s, rest)
    case Tuple(name, arg) => name + ("(" + Write(printable, arg, ")" + rest))
    case Struct(name, fields) => name + (" { " + WriteFields(printable, fields, rest))
  }

  function WriteFields(printable: char -> bool, fs: Fields, rest: string): string
    decreases fs, 1
  {
    fs.key + (": " + Write(printable, fs.value, AfterValue(printable, fs, rest)))
  }

  function AfterValue(printable: char -> bool, fs: Fields, rest: string): string
    decreases fs, 0
  {
    match fs
    case Last(_, _) => " }" + rest
    case More(_, _, more) => ", " + WriteFields(printable, more, rest)
  }

  /** What may follow a value inside a key: nothing, a separator, or a closing bracket. */
  predicate Stop(x: string) {
    x == "" || x[0] == ':' || x[0] == ',' || x[0] == ')' || (|x| > 1 && x[0] == ' ' && x[1] == '}')
  }

  /** The identifier, number or name a value starts with. */
  function Head(d: Debug): string
    requires !d.Quoted?
  {
    match d
    case Atom(text) => text
    case Tuple(name, _) => name
    case Struct(name, _) => name
  }

  function Tail(printable: char -> bool, d: Debug, rest: string): string
    requires !d.Quoted?
  {
    match d
    case Atom(_) => rest
    case Tuple(_, arg) => "(" + Write(printable, arg, ")" + rest)
    case Struct(_, fields) => " { " + WriteFields(printable, fields, rest)
  }

  /** What follows the head tells an atom, a tuple and a struct apart, and is no part of it. */
  lemma TailForm(printable: char -> bool, d: Debug, x: string)
    requires !d.Quoted? && Stop(x)
    ensures
      var s := Tail(printable, d, x);
      && (s == "" || !AtomChar(s[0]))
      && (d.Tuple? <==> s != "" && s[0] == '(')
      && (d.Struct? <==> |s| > 1 && s[0] == ' ' && s[1] == '{')
  {
  }

  lemma HeadsAgree(printable: char -> bool, a: Debug, x: string, b: Debug, y: string)
    requires Wf(a) && Wf(b) && Stop(x) && Stop(y) && !a.Quoted? && !b.Quoted?
    requires Write(printable, a, x) == Write(printable, b, y)
    ensures Head(a) == Head(b) && Tail(printable, a, x) == Tail(printable, b, y)
  {
    TailForm(printable, a, x);
    TailForm(printable, b, y);
    SplitAtStop(AtomChar, Head(a), Tail(printable, a, x), Head(b), Tail(printable, b, y));
  }

  /** Only a quoted text begins with a quote. */
  lemma QuoteFirst(printable: char -> bool, d: Debug, x: string)
    requires Wf(d)
    ensures !d.Quoted? ==> Write(printable, d, x) != "" && Write(printable, d, x)[0] != '\"'
    ensures d.Quoted? ==> Write(printable, d, x) != "" && Write(printable, d, x)[0] == '\"'
  {
    if !d.Quoted? {
      assert Write(printable, d, x)[0] == Head(d)[0];
    }
  }

  /** The key to it all: a value's text determines the value and where it ends. */
  lemma {:induction false} WriteReads(printable: char -> bool, a: Debug, x: string, b: Debug, y: string)
    requires Wf(a) && Wf(b) && Stop(x) && Stop(y)
    requires Write(printable, a, x) == Write(printable, b, y)
    ensures a == b && x == y
    decreases a
  {
    QuoteFirst(printable, a, x);
    QuoteFirst(printable, b, y);
    if a.Quoted? {
      Cancel("\"", Literal(printable, a.str, x), Literal(printable, b.str, y));
      LiteralReads(printable, a.str, x, b.str, y);
    } else {
      HeadsAgree(printable, a, x, b, y);
      TailForm(printable, a, x);
      TailForm(printable, b, y);
      if a.Tuple? {
        Cancel("(", Write(printable, a.arg, ")" + x), Write(printable, b.arg, ")" + y));
        WriteReads(printable, a.arg, ")" + x, b.arg, ")" + y);
        Cancel(")", x, y);
      } else if a.Struct? {
        Cancel(" { ", WriteFields(printable, a.fields, x), WriteFields(printable, b.fields, y));
        FieldsRead(printable, a.fields, x, b.fields, y);
      }
    }
  }

  lemma AfterValueForm(printable: char -> bool, fs: Fields, x: string)
    ensures
      var s := AfterValue(printable, fs, x);
      Stop(s) && s != "" && (s[0] == ',' <==> fs.More?)
  {
  }

  lemma {:induction false} FieldsRead(printable: char -> bool, a: Fields, x: string, b: Fields, y: string)
    requires WfFields(a) && WfFields(b)
    requires WriteFields(printable, a, x) == WriteFields(printable, b, y)
    ensures a == b && x == y
    decreases a
  {
    var s, t := AfterValue(printable, a, x), AfterValue(printable, b, y);
    var u, v := Write(printable, a.value, s), Write(printable, b.value, t);
    SplitAtStop(AtomChar, a.key, ": " + u, b.key, ": " + v);
    Cancel(": ", u, v);
    AfterValueForm(printable, a, x);
    AfterValueForm(printable, b, y);
    WriteReads(printable, a.value, s, b.value, t);
    if a.More? {
      Cancel(", ", WriteFields(printable, a.rest, x), WriteFields(printable, b.rest, y));
      FieldsRead(printable, a.rest, x, b.rest, y);
    } else {
      Cancel(" }", x, y);
    }
  }

  /** A cache key: the fields in order, separated by colons. */
  function Join(printable: char -> bool, ds: seq<Debug>): string {
    if ds == [] then "" else Write(printable, ds[0], if |ds| == 1 then "" else ":" + Join(printable, ds[1..]))
  }

  /** Keys with the same number of fields are equal only if every field is. */
  lemma {:induction false} JoinInjective(printable: char -> bool, a: seq<Debug>, b: seq<Debug>)
    requires |a| == |b| && Join(printable, a) == Join(printable, b)
    requires forall i :: 0 <= i < |a| ==> Wf(a[i]) && Wf(b[i])
    ensures a == b
    decreases |a|
  {
    if |a| == 1 {
      WriteReads(printable, a[0], "", b[0], "");
    } else if |a| > 1 {
      var u, v := Join(printable, a[1..]), Join(printable, b[1..]);
      WriteReads(printable, a[0], ":" + u, b[0], ":" + v);
      Cancel(":", u, v);
      JoinInjective(printable, a[1..], b[1..]);
      assert a == [a[0]] + a[1..] && b == [b[0]] + b[1..];
    }
  }
}
