/** `src/api/cursor.rs`: opaque cursor tokens, base64url without padding over a JSON codec. */
module Cursor {
  import opened Prelude
  import opened CatalogTypes

  type Byte = b: int | 0 <= b < 256

  // ----- base64url without padding: sections 5 and 3.2 of RFC 4648 -----

  function AlphabetChar(v: int): char
    requires 0 <= v < 64
  {
    if v < 26 then ('A' as int + v) as char
    else if v < 52 then ('a' as int + v - 26) as char
    else if v < 62 then ('0' as int + v - 52) as char
    else if v == 62 then '-'
    else '_'
  }

  /** The 6-bit value of an alphabet character, -1 for any other character. */
  function AlphabetValue(c: char): int {
    if 'A' <= c <= 'Z' then c as int - 'A' as int
    else if 'a' <= c <= 'z' then c as int - 'a' as int + 26
    else if '0' <= c <= '9' then c as int - '0' as int + 52
    else if c == '-' then 62
    else if c == '_' then 63
    else -1
  }

  lemma AlphabetBijection(v: int, c: char)
    ensures 0 <= v < 64 ==> AlphabetValue(AlphabetChar(v)) == v
    ensures AlphabetValue(c) < 64
    ensures AlphabetValue(c) >= 0 ==> AlphabetChar(AlphabetValue(c)) == c
  {
  }

  /** Table 2 of RFC 4648: three runs of characters, and two more. */
  lemma AlphabetIsTheTable(v: int)
    ensures AlphabetChar(0) == 'A' && AlphabetChar(25) == 'Z' && AlphabetChar(26) == 'a' && AlphabetChar(51) == 'z'
    ensures AlphabetChar(52) == '0' && AlphabetChar(61) == '9' && AlphabetChar(62) == '-' && AlphabetChar(63) == '_'
    ensures 0 <= v < 61 && v != 25 && v != 51 ==> AlphabetChar(v + 1) as int == AlphabetChar(v) as int + 1
  {
  }

  function Base64Encode(b: seq<Byte>): string {
    if b == [] then ""
    else if |b| == 1 then [AlphabetChar(b[0] / 4), AlphabetChar(b[0] % 4 * 16)]
    else if |b| == 2 then
      [AlphabetChar(b[0] / 4), AlphabetChar(b[0] % 4 * 16 + b[1] / 16), AlphabetChar(b[1] % 16 * 4)]
    else
      [AlphabetChar(b[0] / 4), AlphabetChar(b[0] % 4 * 16 + b[1] / 16),
       AlphabetChar(b[1] % 16 * 4 + b[2] / 64), AlphabetChar(b[2] % 64)] + Base64Encode(b[3..])
  }

  /** Rejects characters outside the alphabet, a dangling character, and non-zero trailing bits. */
  function Base64Decode(s: string): Option<seq<Byte>> {
    if s == "" then Some([])
    else if |s| == 1 then None
    else
      var v0, v1 := AlphabetValue(s[0]), AlphabetValue(s[1]);
      if v0 < 0 || v1 < 0 then None
      else
        var first: Byte := v0 * 4 + v1 / 16;
        if |s| == 2 then
          if v1 % 16 == 0 then Some([first]) else None
        else
          var v2 := AlphabetValue(s[2]);
          if v2 < 0 then None
          else
            var second: Byte := v1 % 16 * 16 + v2 / 4;
            if |s| == 3 then
              if v2 % 4 == 0 then Some([first, second]) else None
            else
              var v3 := AlphabetValue(s[3]);
              if v3 < 0 then None
              else
                var third: Byte := v2 % 4 * 64 + v3;
                var rest := Base64Decode(s[4..]);
                if rest.None? then None else Some([first, second, third] + rest.value)
  }

  /** Three bytes and four sextets hold the same 24 bits. */
  lemma GroupBits(a: Byte, b: Byte, c: Byte)
    ensures
      var v0, v1, v2, v3 := a / 4, a % 4 * 16 + b / 16, b % 16 * 4 + c / 64, c % 64;
      && 0 <= v0 < 64 && 0 <= v1 < 64 && 0 <= v2 < 64 && 0 <= v3 < 64
      && v0 * 4 + v1 / 16 == a && v1 % 16 * 16 + v2 / 4 == b && v2 % 4 * 64 + v3 == c
  {
  }

  lemma GroupSextets(v0: int, v1: int, v2: int, v3: int)
    requires 0 <= v0 < 64 && 0 <= v1 < 64 && 0 <= v2 < 64 && 0 <= v3 < 64
    ensures
      var a, b, c := v0 * 4 + v1 / 16, v1 % 16 * 16 + v2 / 4, v2 % 4 * 64 + v3;
      && 0 <= a < 256 && 0 <= b < 256 && 0 <= c < 256
      && a / 4 == v0 && a % 4 * 16 + b / 16 == v1 && b % 16 * 4 + c / 64 == v2 && c % 64 == v3
  {
  }

  /** The four characters of one group, `Base64Encode` on three bytes. */
  function Group(a: Byte, b: Byte, c: Byte): string {
    [AlphabetChar(a / 4), AlphabetChar(a % 4 * 16 + b / 16),
     AlphabetChar(b % 16 * 4 + c / 64), AlphabetChar(c % 64)]
  }

  /** Four characters are the base-64 digits, most significant first, of the number whose base-256 digits
      the three bytes are. */
  lemma GroupIsTheNumber(a: Byte, b: Byte, c: Byte)
    ensures
      var g := Group(a, b, c);
      AlphabetValue(g[0]) * 262144 + AlphabetValue(g[1]) * 4096 + AlphabetValue(g[2]) * 64 + AlphabetValue(g[3])
      == a * 65536 + b * 256 + c
  {
    GroupBits(a, b, c);
    GroupValues(a / 4, a % 4 * 16 + b / 16, b % 16 * 4 + c / 64, c % 64);
  }

  /** Decoding characters by the sextets they stand for. */
  lemma DecodeSextets(v0: int, v1: int, v2: int, v3: int, s: string)
    requires 0 <= v0 < 64 && 0 <= v1 < 64 && 0 <= v2 < 64 && 0 <= v3 < 64
    requires |s| >= 4
    requires AlphabetValue(s[0]) == v0 && AlphabetValue(s[1]) == v1
    requires AlphabetValue(s[2]) == v2 && AlphabetValue(s[3]) == v3
    ensures
      var rest := Base64Decode(s[4..]);
      Base64Decode(s)
      == if rest.None? then None
         else Some([v0 * 4 + v1 / 16, v1 % 16 * 16 + v2 / 4, v2 % 4 * 64 + v3] + rest.value)
  {
  }

  lemma GroupValues(v0: int, v1: int, v2: int, v3: int)
    requires 0 <= v0 < 64 && 0 <= v1 < 64 && 0 <= v2 < 64 && 0 <= v3 < 64
    ensures AlphabetValue(AlphabetChar(v0)) == v0 && AlphabetValue(AlphabetChar(v1)) == v1
    ensures AlphabetValue(AlphabetChar(v2)) == v2 && AlphabetValue(AlphabetChar(v3)) == v3
  {
    AlphabetBijection(v0, 'A');
    AlphabetBijection(v1, 'A');
    AlphabetBijection(v2, 'A');
    AlphabetBijection(v3, 'A');
  }

  lemma Prepended(p: char, q: char, r: char, u: char, s: string)
    ensures
      var t := [p, q, r, u] + s;
      t[0] == p && t[1] == q && t[2] == r && t[3] == u && t[4..] == s
  {
  }

  lemma DecodeFour(p: char, q: char, r: char, u: char, s: string)
    requires AlphabetValue(p) >= 0 && AlphabetValue(q) >= 0 && AlphabetValue(r) >= 0 && AlphabetValue(u) >= 0
    ensures
      var v0, v1, v2, v3 := AlphabetValue(p), AlphabetValue(q), AlphabetValue(r), AlphabetValue(u);
      var rest := Base64Decode(s);
      && v0 < 64 && v1 < 64 && v2 < 64 && v3 < 64
      && Base64Decode([p, q, r, u] + s)
         == if rest.None? then None
            else Some([v0 * 4 + v1 / 16, v1 % 16 * 16 + v2 / 4, v2 % 4 * 64 + v3] + rest.value)
  {
    AlphabetBijection(0, p);
    AlphabetBijection(0, q);
    AlphabetBijection(0, r);
    AlphabetBijection(0, u);
    Prepended(p, q, r, u, s);
    DecodeSextets(AlphabetValue(p), AlphabetValue(q), AlphabetValue(r), AlphabetValue(u), [p, q, r, u] + s);
  }

  lemma DecodeGroupOf(v0: int, v1: int, v2: int, v3: int, bytes: seq<Byte>, s: string)
    requires 0 <= v0 < 64 && 0 <= v1 < 64 && 0 <= v2 < 64 && 0 <= v3 < 64
    requires bytes == [v0 * 4 + v1 / 16, v1 % 16 * 16 + v2 / 4, v2 % 4 * 64 + v3]
    ensures
      var rest := Base64Decode(s);
      Base64Decode([AlphabetChar(v0), AlphabetChar(v1), AlphabetChar(v2), AlphabetChar(v3)] + s)
      == if rest.None? then None else Some(bytes + rest.value)
  {
    GroupValues(v0, v1, v2, v3);
    DecodeFour(AlphabetChar(v0), AlphabetChar(v1), AlphabetChar(v2), AlphabetChar(v3), s);
  }

  lemma DecodeGroup(a: Byte, b: Byte, c: Byte, s: string)
    ensures
      var rest := Base64Decode(s);
      Base64Decode(Group(a, b, c) + s) == if rest.None? then None else Some([a, b, c] + rest.value)
  {
    GroupBits(a, b, c);
    DecodeGroupOf(a / 4, a % 4 * 16 + b / 16, b % 16 * 4 + c / 64, c % 64, [a, b, c], s);
  }

  lemma DecodeOne(a: Byte)
    ensures Base64Decode(Base64Encode([a])) == Some([a])
  {
    GroupBits(a, 0, 0);
    GroupValues(a / 4, a % 4 * 16, 0, 0);
    DecodeShort(a / 4, a % 4 * 16, 0, Base64Encode([a]));
  }

  lemma DecodeTwo(a: Byte, b: Byte)
    ensures Base64Decode(Base64Encode([a, b])) == Some([a, b])
  {
    var v0, v1, v2 := a / 4, a % 4 * 16 + b / 16, b % 16 * 4;
    GroupBits(a, b, 0);
    GroupValues(v0, v1, v2, 0);
    DecodeShort(v0, v1, v2, [AlphabetChar(v0), AlphabetChar(v1), AlphabetChar(v2)]);
  }

  lemma DecodeShort(v0: int, v1: int, v2: int, s: string)
    requires 0 <= v0 < 64 && 0 <= v1 < 64 && 0 <= v2 < 64
    requires 2 <= |s| <= 3 && AlphabetValue(s[0]) == v0 && AlphabetValue(s[1]) == v1
    requires |s| == 3 ==> AlphabetValue(s[2]) == v2
    ensures |s| == 2 && v1 % 16 == 0 ==> Base64Decode(s) == Some([v0 * 4 + v1 / 16])
    ensures |s| == 3 && v2 % 4 == 0 ==> Base64Decode(s) == Some([v0 * 4 + v1 / 16, v1 % 16 * 16 + v2 / 4])
  {
  }

  lemma {:induction false} DecodeInvertsEncode(b: seq<Byte>)
    ensures Base64Decode(Base64Encode(b)) == Some(b)
  {
    if |b| >= 3 {
      DecodeInvertsEncode(b[3..]);
      DecodeGroup(b[0], b[1], b[2], Base64Encode(b[3..]));
      assert Base64Encode(b) == Group(b[0], b[1], b[2]) + Base64Encode(b[3..]);
      assert b == [b[0], b[1], b[2]] + b[3..];
    } else if |b| == 2 {
      DecodeTwo(b[0], b[1]);
      assert b == [b[0], b[1]];
    } else if |b| == 1 {
      DecodeOne(b[0]);
      assert b == [b[0]];
    }
  }

  lemma EncodeTwo(s: string)
    requires |s| == 2 && Base64Decode(s).Some?
    ensures Base64Encode(Base64Decode(s).value) == s
  {
    AlphabetBijection(0, s[0]);
    AlphabetBijection(0, s[1]);
    GroupSextets(AlphabetValue(s[0]), AlphabetValue(s[1]), 0, 0);
    assert s == [s[0], s[1]];
  }

  lemma ThreeForm(s: string)
    requires |s| == 3 && Base64Decode(s).Some?
    ensures AlphabetValue(s[0]) >= 0 && AlphabetValue(s[1]) >= 0 && AlphabetValue(s[2]) >= 0
    ensures AlphabetValue(s[2]) % 4 == 0
  {
  }

  lemma CharBack(c: char)
    requires AlphabetValue(c) >= 0
    ensures AlphabetValue(c) < 64 && AlphabetChar(AlphabetValue(c)) == c
  {
  }

  lemma EncodeTwoBytes(a: Byte, b: Byte, v0: int, v1: int, v2: int)
    requires a / 4 == v0 && a % 4 * 16 + b / 16 == v1 && b % 16 * 4 == v2
    ensures Base64Encode([a, b]) == [AlphabetChar(v0), AlphabetChar(v1), AlphabetChar(v2)]
  {
  }

  lemma EncodeThree(s: string)
    requires |s| == 3 && Base64Decode(s).Some?
    ensures Base64Encode(Base64Decode(s).value) == s
  {
    ThreeForm(s);
    CharBack(s[0]);
    CharBack(s[1]);
    CharBack(s[2]);
    EncodeThreeSextets(AlphabetValue(s[0]), AlphabetValue(s[1]), AlphabetValue(s[2]), s);
    assert s == [s[0], s[1], s[2]];
  }

  lemma EncodeThreeSextets(v0: int, v1: int, v2: int, s: string)
    requires 0 <= v0 < 64 && 0 <= v1 < 64 && 0 <= v2 < 64 && v2 % 4 == 0 && |s| == 3
    requires AlphabetValue(s[0]) == v0 && AlphabetValue(s[1]) == v1 && AlphabetValue(s[2]) == v2
    ensures Base64Decode(s).Some?
    ensures Base64Encode(Base64Decode(s).value) == [AlphabetChar(v0), AlphabetChar(v1), AlphabetChar(v2)]
  {
    GroupSextets(v0, v1, v2, 0);
    DecodeShort(v0, v1, v2, s);
    EncodeTwoBytes(v0 * 4 + v1 / 16, v1 % 16 * 16 + v2 / 4, v0, v1, v2);
  }

  lemma GroupForm(s: string)
    requires |s| >= 4 && Base64Decode(s).Some?
    ensures AlphabetValue(s[0]) >= 0 && AlphabetValue(s[1]) >= 0 && AlphabetValue(s[2]) >= 0 && AlphabetValue(s[3]) >= 0
    ensures Base64Decode(s[4..]).Some?
  {
  }

  lemma GroupOfSextets(v0: int, v1: int, v2: int, v3: int, bytes: seq<Byte>)
    requires 0 <= v0 < 64 && 0 <= v1 < 64 && 0 <= v2 < 64 && 0 <= v3 < 64
    requires bytes == [v0 * 4 + v1 / 16, v1 % 16 * 16 + v2 / 4, v2 % 4 * 64 + v3]
    ensures Group(bytes[0], bytes[1], bytes[2])
      == [AlphabetChar(v0), AlphabetChar(v1), AlphabetChar(v2), AlphabetChar(v3)]
  {
    GroupSextets(v0, v1, v2, v3);
  }

  lemma GroupOfChars(p: char, q: char, r: char, u: char, bytes: seq<Byte>)
    requires AlphabetValue(p) >= 0 && AlphabetValue(q) >= 0 && AlphabetValue(r) >= 0 && AlphabetValue(u) >= 0
    requires |bytes| == 3
    requires
      var v0, v1, v2, v3 := AlphabetValue(p), AlphabetValue(q), AlphabetValue(r), AlphabetValue(u);
      bytes[0] == v0 * 4 + v1 / 16 && bytes[1] == v1 % 16 * 16 + v2 / 4 && bytes[2] == v2 % 4 * 64 + v3
    ensures Group(bytes[0], bytes[1], bytes[2]) == [p, q, r, u]
  {
    CharBack(p);
    CharBack(q);
    CharBack(r);
    CharBack(u);
    GroupOfSextets(AlphabetValue(p), AlphabetValue(q), AlphabetValue(r), AlphabetValue(u), bytes);
  }

  lemma EncodeGroup(s: string)
    requires |s| >= 4 && Base64Decode(s).Some?
    ensures
      var b := Base64Decode(s).value;
      && |b| >= 3 && Base64Decode(s[4..]) == Some(b[3..])
      && Group(b[0], b[1], b[2]) == s[..4]
  {
    GroupForm(s);
    DecodeFour(s[0], s[1], s[2], s[3], s[4..]);
    assert s == [s[0], s[1], s[2], s[3]] + s[4..];
    var b, rest := Base64Decode(s).value, Base64Decode(s[4..]).value;
    assert b[3..] == rest;
    GroupOfChars(s[0], s[1], s[2], s[3], b[..3]);
    assert s[..4] == [s[0], s[1], s[2], s[3]];
  }

  /** An accepted text is the one encoding of what it decodes to. */
  lemma {:induction false} DecodeAcceptsOnlyEncodings(s: string)
    requires Base64Decode(s).Some?
    ensures Base64Encode(Base64Decode(s).value) == s
  {
    if |s| >= 4 {
      EncodeGroup(s);
      DecodeAcceptsOnlyEncodings(s[4..]);
      var b := Base64Decode(s).value;
      assert Base64Encode(b) == Group(b[0], b[1], b[2]) + Base64Encode(b[3..]);
      assert s == s[..4] + s[4..];
    } else if |s| == 3 {
      EncodeThree(s);
    } else if |s| == 2 {
      EncodeTwo(s);
    }
  }

  lemma {:induction false} DecodeAcceptsOnlyTheAlphabet(s: string, c: char)
    requires Base64Decode(s).Some? && c in s
    ensures AlphabetValue(c) >= 0
  {
    if |s| >= 4 && c in s[4..] {
      DecodeAcceptsOnlyTheAlphabet(s[4..], c);
    } else {
      assert forall i :: 4 <= i < |s| ==> s[i] == s[4..][i - 4];
    }
  }

  // ----- Tokens -----

  /** serde_json, of which two things are used: what it writes it reads back, and it reads nothing from
      an empty document. */
  datatype JsonCodec = JsonCodec(
    toVec: CatalogCursor -> seq<Byte>,
    fromSlice: seq<Byte> -> Option<CatalogCursor>)
  {
    ghost predicate Exact() {
      forall c :: fromSlice(toVec(c)) == Some(c)
    }

    predicate RejectsEmpty() {
      fromSlice([]) == None
    }
  }

  function Encode(codec: JsonCodec, c: CatalogCursor): string {
    Base64Encode(codec.toVec(c))
  }

  function Decode(codec: JsonCodec, token: string): Option<CatalogCursor> {
    var bytes := Base64Decode(token);
    if bytes.None? then None else codec.fromSlice(bytes.value)
  }

  lemma CursorRoundTrip(codec: JsonCodec, c: CatalogCursor)
    requires codec.Exact()
    ensures Decode(codec, Encode(codec, c)) == Some(c)
  {
    DecodeInvertsEncode(codec.toVec(c));
  }

  /** Equal tokens stand for equal cursors. */
  lemma EncodeInjective(codec: JsonCodec, c: CatalogCursor, d: CatalogCursor)
    requires codec.Exact() && Encode(codec, c) == Encode(codec, d)
    ensures c == d
  {
    CursorRoundTrip(codec, c);
    CursorRoundTrip(codec, d);
  }

  /** What the history stack needs of a token: it is a non-empty list entry, not the sentinel. */
  predicate ListSafe(token: string) {
    token != "" && token != "~" && ',' !in token
  }

  lemma AcceptedTokensAreListSafe(codec: JsonCodec, token: string)
    requires codec.RejectsEmpty() && Decode(codec, token).Some?
    ensures ListSafe(token)
  {
    if ',' in token {
      DecodeAcceptsOnlyTheAlphabet(token, ',');
    }
  }
}
