/** What the model asks of serde_json and of the standard formatters can be met: one codec and one set of
    printers that meet it. */
module Witnesses {
  import opened Prelude
  import opened Numerals
  import opened Sql
  import opened CatalogTypes
  import opened Cursor
  import opened DebugFormat
  import opened CacheKeys

  /** Days, floats and UUIDs as decimal numbers of their places in order. */
  function DecimalPrinters(): Printers {
    Printers((day: int) => Decimal(day), (x: F64) => Decimal(x), (id: RowId) => Decimal(id), (c: char) => true)
  }

  lemma DecimalReads(a: int, b: int)
    ensures IsAtom(Decimal(a)) && (Decimal(a) == Decimal(b) ==> a == b)
  {
    DecimalIsAtom(a);
    if Decimal(a) == Decimal(b) {
      DecimalInjective(a, b);
    }
  }

  lemma DecimalPrintersAreFaithful()
    ensures DecimalPrinters().Faithful()
  {
    var f := DecimalPrinters();
    forall a, b ensures f.DateReads(a, b) {
      DecimalReads(a, b);
    }
    forall a: F64, b: F64 ensures f.FloatReads(a, b) {
      DecimalReads(a, b);
    }
    forall a: RowId, b: RowId ensures f.UuidReads(a, b) {
      DecimalReads(a, b);
    }
  }

  /** Three bytes for each character. */
  function CharBytes(c: char): (r: seq<Byte>)
    ensures |r| == 3
  {
    var n := c as int;
    [n / 65536, n / 256 % 256, n % 256]
  }

  function TextBytes(s: string): seq<Byte> {
    if s == "" then [] else CharBytes(s[0]) + TextBytes(s[1..])
  }

  lemma {:induction false} TextBytesInjective(s: string, t: string)
    requires TextBytes(s) == TextBytes(t)
    ensures s == t
    decreases |s|
  {
    if s != "" && t != "" {
      var a, b := TextBytes(s), TextBytes(t);
      assert CharBytes(s[0]) == a[..3] == b[..3] == CharBytes(t[0]);
      assert TextBytes(s[1..]) == a[3..] == b[3..] == TextBytes(t[1..]);
      CharBytesInjective(s[0], t[0]);
      TextBytesInjective(s[1..], t[1..]);
      assert s == [s[0]] + s[1..] && t == [t[0]] + t[1..];
    }
  }

  lemma CharBytesInjective(c: char, d: char)
    requires CharBytes(c) == CharBytes(d)
    ensures c == d
  {
    var a, b := CharBytes(c), CharBytes(d);
    assert a[0] == b[0] && a[1] == b[1] && a[2] == b[2];
  }

  /** A cursor as the bytes of its Debug text. */
  function CursorBytes(c: CatalogCursor): seq<Byte> {
    TextBytes(Write(DecimalPrinters().printable, CursorText(DecimalPrinters(), c), ""))
  }

  ghost function CursorOfBytes(b: seq<Byte>): Option<CatalogCursor> {
    if exists c :: CursorBytes(c) == b then
      var c :| CursorBytes(c) == b;
      Some(c)
    else None
  }

  ghost function TextCodec(): JsonCodec {
    JsonCodec(CursorBytes, CursorOfBytes)
  }

  lemma CursorBytesInjective(c: CatalogCursor, d: CatalogCursor)
    requires CursorBytes(c) == CursorBytes(d)
    ensures c == d
  {
    var f := DecimalPrinters();
    DecimalPrintersAreFaithful();
    TextBytesInjective(Write(f.printable, CursorText(f, c), ""), Write(f.printable, CursorText(f, d), ""));
    CursorWf(f, c);
    CursorWf(f, d);
    WriteReads(f.printable, CursorText(f, c), "", CursorText(f, d), "");
    CursorReads(f, Some(c), Some(d));
  }

  lemma TextCodecIsExact()
    ensures TextCodec().Exact() && TextCodec().RejectsEmpty()
  {
    forall c ensures CursorOfBytes(CursorBytes(c)) == Some(c) {
      assert CursorOfBytes(CursorBytes(c)).Some?;
      CursorBytesInjective(CursorOfBytes(CursorBytes(c)).value, c);
    }
    forall c ensures CursorBytes(c) != [] {
      assert Write(DecimalPrinters().printable, CursorText(DecimalPrinters(), c), "")[0] == 'C';
    }
  }
}
