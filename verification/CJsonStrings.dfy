/** Strings written by others: any code points, each spelled as UTF-8, with a short escape, or with one or two
    hexadecimal escapes, are read as the UTF-8 encoding of the code points. */
module CJsonStrings {
  import opened Bytes
  import opened JsonScan
  import G = JsonGrammar
  import opened CJsonTree
  import opened CJsonParse

  // ----- the spelling of a character, section 7 of RFC 8259

  /** UTF-16, section 2.1 of RFC 2781. */
  function Utf16(p: nat): (units: seq<nat>)
    requires p <= 0x10_FFFF
    ensures |units| == 1 || |units| == 2
    ensures forall u <- units :: u < 0x1_0000
  {
    if p < 0x1_0000 then [p] else [0xD800 + (p - 0x1_0000) / 0x400, 0xDC00 + (p - 0x1_0000) % 0x400]
  }

  const LOWER_DIGITS := "0123456789abcdef"
  const UPPER_DIGITS := "0123456789ABCDEF"

  predicate IsDigitOf(c: Byte, v: nat) {
    v < 16 && (c == LOWER_DIGITS[v] as int || c == UPPER_DIGITS[v] as int)
  }

  /** Four digits for a number of 16 bits. */
  predicate Spells(d: seq<Byte>, u: nat) {
    && |d| == 4 && u < 0x1_0000
    && IsDigitOf(d[0], u / 4096) && IsDigitOf(d[1], u / 256 % 16) && IsDigitOf(d[2], u / 16 % 16) && IsDigitOf(d[3], u % 16)
  }

  function ShortLetter(p: nat): Byte {
    match p
    case 8 => 'b' as int
    case 9 => 't' as int
    case 10 => 'n' as int
    case 12 => 'f' as int
    case 13 => 'r' as int
    case 34 => '"' as int
    case 47 => '/' as int
    case 92 => '\\' as int
    case _ => 0
  }

  datatype Spelling = AsUtf8 | AsLetter | AsUnits(digits: seq<seq<Byte>>)

  datatype Character = Character(point: nat, spelling: Spelling)

  predicate ValidCharacter(c: Character) {
    c.point <= 0x10_FFFF &&
    match c.spelling
    case AsUtf8 => c.point != 0 && c.point != '"' as int && c.point != '\\' as int
    case AsLetter => ShortLetter(c.point) != 0
    case AsUnits(digits) =>
      && !(0xD800 <= c.point <= 0xDFFF) && |digits| == |Utf16(c.point)|
      && forall k :: 0 <= k < |digits| ==> Spells(digits[k], Utf16(c.point)[k])
  }

  /** A backslash, the letter u and the digits. */
  function UnitText(d: seq<Byte>): seq<Byte> { ['\\' as int, 'u' as int] + d }

  function CharacterText(c: Character): seq<Byte>
    requires ValidCharacter(c)
  {
    match c.spelling
    case AsUtf8 => G.Utf8(c.point)
    case AsLetter => ['\\' as int, ShortLetter(c.point)]
    case AsUnits(digits) => if |digits| == 1 then UnitText(digits[0]) else UnitText(digits[0]) + UnitText(digits[1])
  }

  predicate ValidCharacters(s: seq<Character>) { forall k :: 0 <= k < |s| ==> ValidCharacter(s[k]) }

  function CharactersText(s: seq<Character>): seq<Byte>
    requires ValidCharacters(s)
  {
    if s == [] then [] else CharacterText(s[0]) + CharactersText(s[1..])
  }

  function Utf8All(s: seq<Character>): seq<Byte>
    requires ValidCharacters(s)
  {
    if s == [] then [] else G.Utf8(s[0].point) + Utf8All(s[1..])
  }

  // ----- one unit

  lemma {:induction false} DigitRead(c: Byte, v: nat)
    requires IsDigitOf(c, v)
    ensures HexValue(c) == v && c != QUOTE && c != BACKSLASH
  {
    assert LOWER_DIGITS[v] == if v < 10 then ('0' as int + v) as char else ('a' as int + v - 10) as char;
    assert UPPER_DIGITS[v] == if v < 10 then ('0' as int + v) as char else ('A' as int + v - 10) as char;
  }

  lemma {:induction false} FourDigits(a: nat, b: nat, c: nat, d: nat)
    requires a < 16 && b < 16 && c < 16 && d < 16
    ensures var u := ((a * 16 + b) * 16 + c) * 16 + d;
            u < 0x1_0000 && u / 4096 == a && u / 256 % 16 == b && u / 16 % 16 == c && u % 16 == d
  {}

  lemma {:induction false} Recomposed(u: nat)
    requires u < 0x1_0000
    ensures ((u / 4096 * 16 + u / 256 % 16) * 16 + u / 16 % 16) * 16 + u % 16 == u && u / 4096 < 16
  {}

  lemma {:induction false} UnitBytes(t: seq<Byte>, i: nat, d: seq<Byte>)
    requires |d| == 4 && At(t, i, UnitText(d))
    ensures i + 6 <= |t| && t[i] == BACKSLASH && t[i + 1] == LETTER_U
    ensures t[i + 2] == d[0] && t[i + 3] == d[1] && t[i + 4] == d[2] && t[i + 5] == d[3]
  {
    var s := UnitText(d);
    AtByte(t, i, s, 0);
    AtByte(t, i, s, 1);
    AtByte(t, i, s, 2);
    AtByte(t, i, s, 3);
    AtByte(t, i, s, 4);
    AtByte(t, i, s, 5);
  }

  lemma {:induction false} UnitDigits(t: seq<Byte>, i: nat, d: seq<Byte>, u: nat)
    requires Spells(d, u) && At(t, i, UnitText(d))
    ensures i + 6 <= |t| && t[i] == BACKSLASH && t[i + 1] == LETTER_U && Hex4(t, i + 2) == u
    ensures forall k :: i + 2 <= k < i + 6 ==> t[k] != QUOTE && t[k] != BACKSLASH
  {
    hide IsDigitOf, HexValue, At, UnitText;
    UnitBytes(t, i, d);
    DigitRead(d[0], u / 4096);
    DigitRead(d[1], u / 256 % 16);
    DigitRead(d[2], u / 16 % 16);
    DigitRead(d[3], u % 16);
    Recomposed(u);
    FourDigits(u / 4096, u / 256 % 16, u / 16 % 16, u % 16);
  }

  /** An escape for one unit that is no surrogate. */
  lemma {:induction false} UnitRead(t: seq<Byte>, p: nat, e: nat, d: seq<Byte>, u: nat)
    requires Spells(d, u) && At(t, p, UnitText(d)) && p + 6 <= e <= |t| && !(0xD800 <= u <= 0xDFFF)
    ensures Utf16Literal(t, p, e) == (u, 6)
  {
    UnitDigits(t, p, d, u);
  }

  /** The two escapes for a code point outside the first plane. */
  lemma {:induction false} PairRead(t: seq<Byte>, i: nat, e: nat, high: seq<Byte>, low: seq<Byte>, p: nat)
    requires 0x1_0000 <= p <= 0x10_FFFF
    requires Spells(high, 0xD800 + (p - 0x1_0000) / 0x400) && Spells(low, 0xDC00 + (p - 0x1_0000) % 0x400)
    requires At(t, i, UnitText(high) + UnitText(low)) && i + 12 <= e <= |t|
    ensures Utf16Literal(t, i, e) == (p, 12)
  {
    hide Hex4, Spells;
    AtConcat(t, i, UnitText(high), UnitText(low));
    UnitDigits(t, i, high, 0xD800 + (p - 0x1_0000) / 0x400);
    UnitDigits(t, i + |UnitText(high)|, low, 0xDC00 + (p - 0x1_0000) % 0x400);
    assert |high| == 4 by { SpelledLength(high, 0xD800 + (p - 0x1_0000) / 0x400); }
  }

  lemma {:induction false} SpelledLength(d: seq<Byte>, u: nat)
    requires Spells(d, u)
    ensures |d| == 4
  {}

  lemma {:induction false} DigitSpelled(c: Byte)
    requires HexValue(c) < 16
    ensures IsDigitOf(c, HexValue(c))
  {
    var v := HexValue(c);
    assert LOWER_DIGITS[v] == if v < 10 then ('0' as int + v) as char else ('a' as int + v - 10) as char;
    assert UPPER_DIGITS[v] == if v < 10 then ('0' as int + v) as char else ('A' as int + v - 10) as char;
  }

  lemma {:induction false} HexSpelled(t: seq<Byte>, i: nat)
    requires i + 4 <= |t| && Hex4(t, i) != 0
    ensures Spells(t[i..i + 4], Hex4(t, i))
  {
    hide HexValue, IsDigitOf;
    var d := t[i..i + 4];
    assert d[0] == t[i] && d[1] == t[i + 1] && d[2] == t[i + 2] && d[3] == t[i + 3];
    HexBound(d[0]);
    HexBound(d[1]);
    HexBound(d[2]);
    HexBound(d[3]);
    DigitSpelled(d[0]);
    DigitSpelled(d[1]);
    DigitSpelled(d[2]);
    DigitSpelled(d[3]);
    FourDigits(HexValue(d[0]), HexValue(d[1]), HexValue(d[2]), HexValue(d[3]));
  }

  lemma {:induction false} HexBound(c: Byte)
    ensures 0 <= HexValue(c) <= 16
  {}

  /** An escape for a surrogate is accepted only as the first half of a pair: what is read then is the code point
      of that pair. */
  lemma {:induction false} SurrogatePaired(t: seq<Byte>, p: nat, e: nat, d: seq<Byte>, u: nat)
    requires Spells(d, u) && At(t, p, UnitText(d)) && p + 6 <= e <= |t| && 0xD800 <= u <= 0xDFFF
    requires Utf16Literal(t, p, e).1 != 0
    ensures var point := Utf16Literal(t, p, e).0;
            && p + 12 <= e && 0x1_0000 <= point <= 0x10_FFFF
            && At(t, p + 6, UnitText(t[p + 8..p + 12]))
            && u == Utf16(point)[0] && Spells(t[p + 8..p + 12], Utf16(point)[1])
  {
    hide Hex4, Spells;
    UnitDigits(t, p, d, u);
    var point := Utf16Literal(t, p, e).0;
    assert point == 0x1_0000 + u % 0x400 * 0x400 + Hex4(t, p + 8) % 0x400;
    HexSpelled(t, p + 8);
    assert t[p + 6..p + 12] == UnitText(t[p + 8..p + 12]);
  }

  // ----- the whole string

  lemma {:induction false} PlainClose(t: seq<Byte>, i: nat, n: nat)
    requires i + n <= |t| && forall k :: i <= k < i + n ==> t[k] != QUOTE && t[k] != BACKSLASH
    ensures StringClose(t, i) == StringClose(t, i + n)
    decreases n
  {
    if n > 0 { PlainClose(t, i + 1, n - 1); }
  }

  lemma {:induction false} PlainUnescaped(t: seq<Byte>, p: nat, n: nat, e: nat)
    requires p + n <= e < |t| && forall k :: p <= k < p + n ==> t[k] != QUOTE && t[k] != BACKSLASH
    ensures Unescape(t, p, e) == Prefixed(t[p..p + n], Unescape(t, p + n, e))
    decreases n
  {
    hide Utf16Literal, Unescaped, G.Utf8;
    if n > 0 {
      PlainUnescaped(t, p + 1, n - 1, e);
      assert t[p..p + n] == [t[p]] + t[p + 1..p + n];
    } else {
      assert t[p..p + n] == [];
    }
  }

  lemma {:induction false} Utf8Plain(p: nat)
    requires p <= 0x10_FFFF && p != QUOTE && p != BACKSLASH
    ensures forall k :: 0 <= k < |G.Utf8(p)| ==> G.Utf8(p)[k] != QUOTE && G.Utf8(p)[k] != BACKSLASH
  {}

  lemma {:induction false} UnitClose(t: seq<Byte>, i: nat, d: seq<Byte>, u: nat)
    requires Spells(d, u) && At(t, i, UnitText(d))
    ensures |UnitText(d)| == 6 && StringClose(t, i) == StringClose(t, i + 6)
  {
    hide Hex4;
    UnitDigits(t, i, d, u);
    PlainClose(t, i + 2, 4);
  }

  lemma {:induction false} RawBytes(t: seq<Byte>, i: nat, p: nat)
    requires p <= 0x10_FFFF && p != QUOTE && p != BACKSLASH && At(t, i, G.Utf8(p))
    ensures forall k :: i <= k < i + |G.Utf8(p)| ==> t[k] != QUOTE && t[k] != BACKSLASH
  {
    hide G.Utf8;
    Utf8Plain(p);
    forall k | i <= k < i + |G.Utf8(p)| ensures t[k] != QUOTE && t[k] != BACKSLASH { AtByte(t, i, G.Utf8(p), k - i); }
  }

  lemma {:induction false} CharacterClose(t: seq<Byte>, i: nat, c: Character)
    requires ValidCharacter(c) && At(t, i, CharacterText(c))
    ensures StringClose(t, i) == StringClose(t, i + |CharacterText(c)|)
  {
    hide G.Utf8, Spells, UnitText;
    match c.spelling
    case AsUtf8 =>
      RawBytes(t, i, c.point);
      PlainClose(t, i, |G.Utf8(c.point)|);
    case AsLetter =>
      AtByte(t, i, CharacterText(c), 0);
    case AsUnits(digits) =>
      if |digits| == 2 { AtConcat(t, i, UnitText(digits[0]), UnitText(digits[1])); }
      UnitClose(t, i, digits[0], Utf16(c.point)[0]);
      if |digits| == 2 { UnitClose(t, i + 6, digits[1], Utf16(c.point)[1]); }
  }

  lemma {:induction false} LetterRead(p: nat)
    requires ShortLetter(p) != 0
    ensures Unescaped(ShortLetter(p)) == p != 0 && ShortLetter(p) != LETTER_U && G.Utf8(p) == [p]
  {}

  lemma {:induction false} CharacterRead(t: seq<Byte>, p: nat, e: nat, c: Character)
    requires ValidCharacter(c) && At(t, p, CharacterText(c)) && p + |CharacterText(c)| <= e < |t|
    ensures Unescape(t, p, e) == Prefixed(G.Utf8(c.point), Unescape(t, p + |CharacterText(c)|, e))
  {
    hide G.Utf8, Spells, UnitText, Hex4;
    match c.spelling
    case AsUtf8 =>
      RawBytes(t, p, c.point);
      PlainUnescaped(t, p, |G.Utf8(c.point)|, e);
    case AsLetter =>
      AtByte(t, p, CharacterText(c), 0);
      AtByte(t, p, CharacterText(c), 1);
      LetterRead(c.point);
    case AsUnits(digits) =>
      if |digits| == 2 { AtConcat(t, p, UnitText(digits[0]), UnitText(digits[1])); }
      UnitDigits(t, p, digits[0], Utf16(c.point)[0]);
      UnitClose(t, p, digits[0], Utf16(c.point)[0]);
      if |digits| == 2 {
        UnitClose(t, p + 6, digits[1], Utf16(c.point)[1]);
        PairRead(t, p, e, digits[0], digits[1], c.point);
      } else {
        UnitRead(t, p, e, digits[0], c.point);
      }
  }

  lemma {:induction false} PrefixedTwice(a: seq<Byte>, b: seq<Byte>, r: Content)
    ensures Prefixed(a, Prefixed(b, r)) == Prefixed(a + b, r)
  {
    if r.Content? { assert a + (b + r.bytes) == (a + b) + r.bytes; }
  }

  lemma {:induction false} CharactersClose(t: seq<Byte>, i: nat, s: seq<Character>)
    requires ValidCharacters(s) && At(t, i, CharactersText(s)) && At(t, i + |CharactersText(s)|, [QUOTE])
    ensures StringClose(t, i) == i + |CharactersText(s)|
    decreases |s|
  {
    hide At, CharacterText, ValidCharacter;
    if s == [] {
      AtByte(t, i, [QUOTE], 0);
    } else {
      AtConcat(t, i, CharacterText(s[0]), CharactersText(s[1..]));
      CharacterClose(t, i, s[0]);
      CharactersClose(t, i + |CharacterText(s[0])|, s[1..]);
    }
  }

  lemma {:induction false} CharactersRead(t: seq<Byte>, p: nat, e: nat, s: seq<Character>)
    requires ValidCharacters(s) && At(t, p, CharactersText(s)) && e == p + |CharactersText(s)| < |t|
    ensures Unescape(t, p, e) == Content(Utf8All(s))
    decreases |s|
  {
    hide At, CharacterText, ValidCharacter, G.Utf8;
    if s != [] {
      AtConcat(t, p, CharacterText(s[0]), CharactersText(s[1..]));
      CharacterRead(t, p, e, s[0]);
      CharactersRead(t, p + |CharacterText(s[0])|, e, s[1..]);
    }
  }

  /** A string of any characters in any spelling is read as the UTF-8 encoding of its code points. */
  lemma {:induction false} SpelledStringParsed(t: seq<Byte>, i: nat, s: seq<Character>)
    requires ValidCharacters(s) && At(t, i, ['"' as int] + (CharactersText(s) + ['"' as int]))
    ensures StringAt(t, i) == Parsed(Utf8All(s), i + |CharactersText(s)| + 2)
  {
    hide At, CharactersText, ValidCharacters, Utf8All, Unescape, StringClose;
    AtConcat(t, i, [QUOTE], CharactersText(s) + [QUOTE]);
    AtConcat(t, i + 1, CharactersText(s), [QUOTE]);
    AtByte(t, i, [QUOTE], 0);
    CharactersClose(t, i + 1, s);
    CharactersRead(t, i + 1, i + 1 + |CharactersText(s)|, s);
  }
}
