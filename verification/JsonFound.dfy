/** The scalars that the scanners accept, as trees: whatever is skipped is the text of one. */
module JsonFound {
  import opened Bytes
  import opened JsonScan
  import opened JsonGrammar

  // ----- strings

  lemma {:induction false} TwoFound(b: seq<Byte>, i: nat) returns (p: int)
    requires i < |b| && 0xC1 < b[i] < 0xE0 && MultiByteEnd(b, i) > i
    ensures 0x80 <= p < 0x800 && MultiByteEnd(b, i) == i + 2
    ensures b[i] == 0xC0 + p / 64 && b[i + 1] == 0x80 + p % 64
  {
    p := LeadValue(b[i], 2) * 64 + b[i + 1] % 64;
    assert Trailing(b, i + 2, 0, p) == p;
    assert Trailing(b, i + 1, 1, LeadValue(b[i], 2)) == p;
  }

  lemma {:induction false} ThreeFound(b: seq<Byte>, i: nat) returns (p: int)
    requires i < |b| && 0xE0 <= b[i] < 0xF0 && MultiByteEnd(b, i) > i
    ensures 0x800 <= p < 0x1_0000 && !(0xD800 <= p <= 0xDFFF) && MultiByteEnd(b, i) == i + 3
    ensures b[i] == 0xE0 + p / 4096 && b[i + 1] == 0x80 + p / 64 % 64 && b[i + 2] == 0x80 + p % 64
  {
    var v := LeadValue(b[i], 3) * 64 + b[i + 1] % 64;
    p := v * 64 + b[i + 2] % 64;
    assert Trailing(b, i + 3, 0, p) == p;
    assert Trailing(b, i + 2, 1, v) == p;
    assert Trailing(b, i + 1, 2, LeadValue(b[i], 3)) == p;
    assert p / 64 == v && p / 4096 == p / 64 / 64;
  }

  lemma {:induction false} FourFound(b: seq<Byte>, i: nat) returns (p: int)
    requires i < |b| && 0xF0 <= b[i] < 0xF5 && MultiByteEnd(b, i) > i
    ensures 0x1_0000 <= p <= 0x10_FFFF && MultiByteEnd(b, i) == i + 4
    ensures b[i] == 0xF0 + p / 262144 && b[i + 1] == 0x80 + p / 4096 % 64
    ensures b[i + 2] == 0x80 + p / 64 % 64 && b[i + 3] == 0x80 + p % 64
  {
    var v := LeadValue(b[i], 4) * 64 + b[i + 1] % 64;
    var w := v * 64 + b[i + 2] % 64;
    p := w * 64 + b[i + 3] % 64;
    assert Trailing(b, i + 4, 0, p) == p;
    assert Trailing(b, i + 3, 1, w) == p;
    assert Trailing(b, i + 2, 2, v) == p;
    assert Trailing(b, i + 1, 3, LeadValue(b[i], 4)) == p;
    assert p / 64 == w && w / 64 == v && p / 4096 == p / 64 / 64 && p / 262144 == p / 64 / 64 / 64;
  }

  /** Whatever the scanner takes for a character outside ASCII is the encoding of one code point. */
  lemma {:induction false} CharFound(b: seq<Byte>, i: nat) returns (p: int)
    requires i < |b| && Utf8End(b, i) > i && b[i] != QUOTE && b[i] != BACKSLASH && !IsControl(b[i])
    ensures ValidItem(Char(p)) && Utf8(p) == b[i..Utf8End(b, i)]
  {
    if b[i] < 0x80 {
      p := b[i];
    } else {
      hide MultiByteEnd;
      assert MultiByteEnd(b, i) == i || 0xC1 < b[i] < 0xF5 by { LeadByte(b, i); }
      if b[i] < 0xE0 { p := TwoFound(b, i); } else if b[i] < 0xF0 { p := ThreeFound(b, i); } else { p := FourFound(b, i); }
    }
  }

  lemma {:induction false} LeadByte(b: seq<Byte>, i: nat)
    requires i < |b| && b[i] >= 0x80
    ensures MultiByteEnd(b, i) == i || 0xC1 < b[i] < 0xF5
  {}

  lemma {:induction false} HexFound(b: seq<Byte>, i: nat) returns (d: seq<Byte>)
    requires i <= |b| && HexEscapeValue(b, i) > 0
    ensures d == b[i + 2..i + 6] && IsHex(d) && Hex(d) == HexEscapeValue(b, i)
    ensures b[i..i + 6] == [BACKSLASH, LETTER_U] + d
  {
    d := b[i + 2..i + 6];
    assert d[0] == b[i + 2] && d[1] == b[i + 3] && d[2] == b[i + 4] && d[3] == b[i + 5];
    var v1 := HexValue(d[0]);
    var v2 := v1 * 16 + HexValue(d[1]);
    var v3 := v2 * 16 + HexValue(d[2]);
    var v4 := v3 * 16 + HexValue(d[3]);
    assert HexDigits(b, i + 6, 0, v4) == v4;
    assert HexDigits(b, i + 5, 1, v3) == if HexValue(d[3]) == 16 then -1 else v4;
    assert HexDigits(b, i + 4, 2, v2) == if HexValue(d[2]) == 16 then -1 else HexDigits(b, i + 5, 1, v3);
    assert HexDigits(b, i + 3, 3, v1) == if HexValue(d[1]) == 16 then -1 else HexDigits(b, i + 4, 2, v2);
    assert HexDigits(b, i + 2, 4, 0) == if HexValue(d[0]) == 16 then -1 else HexDigits(b, i + 3, 3, v1);
  }

  lemma {:induction false} HexEscapeFound(b: seq<Byte>, i: nat) returns (item: StringItem)
    requires i <= |b| && HexEscapeEnd(b, i) > i
    ensures ValidItem(item) && ItemText(item) == b[i..HexEscapeEnd(b, i)]
  {
    hide HexEscapeValue, IsHex, Hex;
    var d := HexFound(b, i);
    if IsHighSurrogate(Hex(d)) {
      var l := HexFound(b, i + 6);
      item := Surrogates(d, l);
      assert b[i..i + 12] == b[i..i + 6] + b[i + 6..i + 6 + 6];
      assert ItemText(item) == ([BACKSLASH, LETTER_U] + d) + ([BACKSLASH, LETTER_U] + l);
    } else {
      item := Unicode(d);
    }
  }

  lemma {:induction false} EscapeFound(b: seq<Byte>, i: nat) returns (item: StringItem)
    requires i < |b| && b[i] == BACKSLASH && EscapeEnd(b, i) > i
    ensures ValidItem(item) && ItemText(item) == b[i..EscapeEnd(b, i)]
  {
    hide HexEscapeEnd;
    var c := b[i + 1];
    if c == LETTER_U {
      item := HexEscapeFound(b, i);
    } else {
      item := if IsShortEscape(c) then Short(c) else Control(c);
      assert b[i..i + 2] == [b[i], b[i + 1]];
    }
  }

  lemma {:induction false} ItemFound(b: seq<Byte>, i: nat) returns (item: StringItem, j: nat)
    requires i < |b| && b[i] != QUOTE && StringRest(b, i) != 0
    ensures i < j <= |b| && ValidItem(item) && ItemText(item) == b[i..j] && StringRest(b, i) == StringRest(b, j)
  {
    hide EscapeEnd, Utf8End, ValidItem;
    j := ItemEnd(b, i);
    if b[i] == BACKSLASH {
      item := EscapeFound(b, i);
    } else {
      var p := CharFound(b, i);
      item := Char(p);
    }
  }

  lemma {:induction false} ItemsFound(b: seq<Byte>, i: nat) returns (items: seq<StringItem>)
    requires i <= |b| && StringRest(b, i) != 0
    ensures ValidItems(items) && ItemsText(items) + [QUOTE] == b[i..StringRest(b, i)]
    decreases |b| - i
  {
    if b[i] == QUOTE {
      items := [];
    } else {
      hide StringRest, ValidItem, ItemText;
      var item, j := ItemFound(b, i);
      var rest := ItemsFound(b, j);
      items := [item] + rest;
      var e := StringRest(b, i);
      assert items[1..] == rest;
      assert ItemsText(items) + [QUOTE] == ItemText(item) + (ItemsText(rest) + [QUOTE]);
      assert b[i..e] == b[i..j] + b[j..e];
    }
  }

  lemma {:induction false} StringFound(b: seq<Byte>, i: nat) returns (items: seq<StringItem>)
    requires i <= |b| && StringEnd(b, i) > i
    ensures ValidItems(items) && StringText(items) == b[i..StringEnd(b, i)]
  {
    hide StringRest, ValidItems, ItemsText;
    items := ItemsFound(b, i + 1);
    var e := StringEnd(b, i);
    assert b[i..e] == [b[i]] + b[i + 1..e];
  }

  // ----- numbers

  lemma {:induction false} DigitsFound(b: seq<Byte>, i: nat)
    requires i <= |b|
    ensures AllDigits(b[i..DigitsEnd(b, i)])
    decreases |b| - i
  {
    var d := DigitsEnd(b, i);
    if d > i {
      DigitsFound(b, i + 1);
      assert b[i..d] == [b[i]] + b[i + 1..d];
    }
  }

  lemma {:induction false} FractionFound(b: seq<Byte>, i: nat) returns (fraction: seq<Byte>)
    requires i <= |b|
    ensures AllDigits(fraction) && FractionText(fraction) == b[i..DecimalsEnd(b, i)]
  {
    hide DigitsEnd, AllDigits;
    var e := DecimalsEnd(b, i);
    if e == i {
      fraction := [];
      DigitsNone();
    } else {
      fraction := b[i + 1..e];
      DigitsFound(b, i + 1);
      assert b[i..e] == [b[i]] + fraction;
    }
  }

  lemma {:induction false} DigitsNone()
    ensures AllDigits([])
  {}

  lemma {:induction false} ExponentFound(b: seq<Byte>, i: nat) returns (exponent: Exponent)
    requires i <= |b|
    ensures ValidExponent(exponent) && ExponentText(exponent) == b[i..ExponentEnd(b, i)]
  {
    hide DigitsEnd, AllDigits;
    var e := ExponentEnd(b, i);
    if e == i {
      exponent := NoExponent;
    } else {
      var k := if i + 1 < |b| && (b[i + 1] == MINUS || b[i + 1] == PLUS) then i + 2 else i + 1;
      DigitsFound(b, k);
      exponent := Exponent(b[i], b[i + 1..k], b[k..e]);
      assert b[i..e] == [b[i]] + (b[i + 1..k] + b[k..e]);
    }
  }

  lemma {:induction false} WholeFound(b: seq<Byte>, k: nat, m: nat)
    requires k < m <= |b| && m == if b[k] == ZERO then k + 1 else DigitsEnd(b, k)
    ensures var whole := b[k..m]; whole != [] && AllDigits(whole) && (whole[0] == ZERO ==> |whole| == 1)
  {
    DigitsFound(b, k);
  }

  /** What stands behind the whole part, up to e. */
  lemma {:induction false} TailFound(b: seq<Byte>, m: nat) returns (fraction: seq<Byte>, exponent: Exponent)
    requires m <= |b|
    ensures AllDigits(fraction) && ValidExponent(exponent)
    ensures NumberTail(fraction, exponent) == b[m..ExponentEnd(b, DecimalsEnd(b, m))]
  {
    hide AllDigits, DecimalsEnd, ExponentEnd, ValidExponent, FractionText, ExponentText;
    var f := DecimalsEnd(b, m);
    var e := ExponentEnd(b, f);
    fraction := FractionFound(b, m);
    exponent := ExponentFound(b, f);
    assert b[m..e] == b[m..f] + b[f..e];
  }

  lemma {:induction false} NumberFound(b: seq<Byte>, i: nat) returns (s: Scalar)
    requires i <= |b| && NumberEnd(b, i) > i
    ensures ValidScalar(s) && s.Number? && ScalarText(s) == b[i..NumberEnd(b, i)]
  {
    hide DigitsEnd, AllDigits, DecimalsEnd, ExponentEnd, ValidExponent, NumberTail;
    var k := if i < |b| && b[i] == MINUS then i + 1 else i;
    var m := if k < |b| && b[k] == ZERO then k + 1 else DigitsEnd(b, k);
    var e := NumberEnd(b, i);
    WholeFound(b, k, m);
    var fraction, exponent := TailFound(b, m);
    s := Number(k > i, b[k..m], fraction, exponent);
    assert b[k..e] == b[k..m] + b[m..e];
    if k > i { assert b[i..e] == [b[i]] + b[k..e]; }
  }

  /** Whatever is skipped as a scalar is the text of one. */
  lemma {:induction false} ScalarFound(b: seq<Byte>, i: nat) returns (s: Scalar)
    requires i <= |b| && ScalarEnd(b, i) > i
    ensures ValidScalar(s) && ScalarText(s) == b[i..ScalarEnd(b, i)]
  {
    hide StringEnd, NumberEnd, ValidItems;
    if StringEnd(b, i) > i {
      var items := StringFound(b, i);
      s := Text(items);
    } else if LiteralEnd(b, i, TRUE) > i {
      s := True;
    } else if LiteralEnd(b, i, FALSE) > i {
      s := False;
    } else if LiteralEnd(b, i, NULL) > i {
      s := Null;
    } else {
      s := NumberFound(b, i);
    }
  }
}
