/** The scalars of JSON as trees with their texts, and what the scanners do on such texts. The strict ones are
    those of ECMA-404, without what the library refuses on purpose: the escape of the zero character and
    surrogate escapes that are not paired. The others have what the library lets through. */
module JsonGrammar {
  import opened Bytes
  import opened JsonScan

  datatype StringItem =
    | Char(point: int)                                 // an unescaped code point, as UTF-8
    | Short(letter: Byte)                              // a backslash and one letter
    | Unicode(digits: seq<Byte>)                       // a backslash, u and four digits
    | Surrogates(high: seq<Byte>, low: seq<Byte>)      // two of those, for one code point
    | Control(letter: Byte)                            // a backslash and a control byte: not in ECMA-404

  datatype Exponent = NoExponent | Exponent(letter: Byte, sign: seq<Byte>, digits: seq<Byte>)

  datatype Scalar =
    | Text(items: seq<StringItem>)
    | Number(negative: bool, whole: seq<Byte>, fraction: seq<Byte>, exponent: Exponent)
    | True
    | False
    | Null

  // ----- texts

  /** UTF-8 encoding, section 3 of RFC 3629. */
  function Utf8(p: int): (s: seq<Byte>)
    requires 0 <= p <= 0x10_FFFF
    ensures 1 <= |s| <= 4
  {
    if p < 0x80 then [p]
    else if p < 0x800 then [0xC0 + p / 64, 0x80 + p % 64]
    else if p < 0x1_0000 then [0xE0 + p / 4096, 0x80 + p / 64 % 64, 0x80 + p % 64]
    else [0xF0 + p / 262144, 0x80 + p / 4096 % 64, 0x80 + p / 64 % 64, 0x80 + p % 64]
  }

  predicate AllDigits(s: seq<Byte>) { forall c <- s :: IsDigit(c) }
  predicate AllSpace(s: seq<Byte>) { forall c <- s :: IsSpace(c) }

  /** The value of four hexadecimal digits. */
  predicate IsHex(d: seq<Byte>) { |d| == 4 && forall c <- d :: HexValue(c) < 16 }

  function Hex(d: seq<Byte>): nat
    requires IsHex(d)
  {
    ((HexValue(d[0]) * 16 + HexValue(d[1])) * 16 + HexValue(d[2])) * 16 + HexValue(d[3])
  }

  predicate ValidItem(item: StringItem) {
    match item
    case Char(p) => 0x20 <= p <= 0x10_FFFF && !(0xD800 <= p <= 0xDFFF) && p != QUOTE && p != BACKSLASH
    case Short(c) => IsShortEscape(c)
    case Unicode(d) => IsHex(d) && Hex(d) > 0 && !IsHighSurrogate(Hex(d)) && !IsLowSurrogate(Hex(d))
    case Surrogates(h, l) => IsHex(h) && IsHex(l) && IsHighSurrogate(Hex(h)) && IsLowSurrogate(Hex(l))
    case Control(c) => c != 0 && IsControl(c)
  }

  predicate StrictItems(items: seq<StringItem>) { forall i :: 0 <= i < |items| ==> !items[i].Control? }

  function ItemText(item: StringItem): (s: seq<Byte>)
    requires ValidItem(item)
    ensures |s| >= 1
  {
    match item
    case Char(p) => Utf8(p)
    case Short(c) => [BACKSLASH, c]
    case Unicode(d) => [BACKSLASH, LETTER_U] + d
    case Surrogates(h, l) => [BACKSLASH, LETTER_U] + h + [BACKSLASH, LETTER_U] + l
    case Control(c) => [BACKSLASH, c]
  }

  predicate ValidItems(items: seq<StringItem>) { forall i :: 0 <= i < |items| ==> ValidItem(items[i]) }

  function ItemsText(items: seq<StringItem>): seq<Byte>
    requires ValidItems(items)
  {
    if items == [] then [] else ItemText(items[0]) + ItemsText(items[1..])
  }

  function StringText(items: seq<StringItem>): (s: seq<Byte>)
    requires ValidItems(items)
    ensures |s| >= 2 && s[0] == QUOTE
  {
    [QUOTE] + (ItemsText(items) + [QUOTE])
  }

  predicate ValidExponent(e: Exponent) {
    match e
    case NoExponent => true
    case Exponent(letter, sign, digits) =>
      (letter == 101 || letter == 69) && (sign == [] || sign == [PLUS] || sign == [MINUS])
      && digits != [] && AllDigits(digits)
  }

  function ExponentText(e: Exponent): seq<Byte> {
    match e
    case NoExponent => []
    case Exponent(letter, sign, digits) => [letter] + (sign + digits)
  }

  function FractionText(fraction: seq<Byte>): seq<Byte> {
    if fraction == [] then [] else [DOT] + fraction
  }

  predicate ValidScalar(s: Scalar) {
    match s
    case Text(items) => ValidItems(items)
    case Number(_, whole, fraction, exponent) =>
      && whole != [] && AllDigits(whole) && (whole[0] == ZERO ==> |whole| == 1)
      && AllDigits(fraction) && ValidExponent(exponent)
    case _ => true
  }

  predicate StrictScalar(s: Scalar) { s.Text? ==> StrictItems(s.items) }

  function NumberTail(fraction: seq<Byte>, exponent: Exponent): seq<Byte> {
    FractionText(fraction) + ExponentText(exponent)
  }

  function ScalarText(s: Scalar): (t: seq<Byte>)
    requires ValidScalar(s)
    ensures t != []
  {
    match s
    case Text(items) => StringText(items)
    case Number(negative, whole, fraction, exponent) =>
      if negative then [MINUS] + (whole + NumberTail(fraction, exponent)) else whole + NumberTail(fraction, exponent)
    case True => TRUE
    case False => FALSE
    case Null => NULL
  }

  // ----- texts inside a buffer

  lemma {:induction false} SpaceText(b: seq<Byte>, i: nat, t: seq<Byte>)
    requires At(b, i, t) && AllSpace(t)
    ensures SpaceEnd(b, i) == SpaceEnd(b, i + |t|)
    ensures (i + |t| < |b| ==> !IsSpace(b[i + |t|])) ==> SpaceEnd(b, i) == i + |t|
    decreases |t|
  {
    if t != [] {
      assert t == [t[0]] + t[1..] && t[0] in t;
      AtConcat(b, i, [t[0]], t[1..]);
      AtByte(b, i, t, 0);
      SpaceText(b, i + 1, t[1..]);
    }
  }

  lemma {:induction false} DigitsText(b: seq<Byte>, i: nat, t: seq<Byte>)
    requires At(b, i, t) && AllDigits(t)
    ensures DigitsEnd(b, i) == DigitsEnd(b, i + |t|)
    ensures (i + |t| < |b| ==> !IsDigit(b[i + |t|])) ==> DigitsEnd(b, i) == i + |t|
    decreases |t|
  {
    if t != [] {
      assert t == [t[0]] + t[1..] && t[0] in t;
      AtConcat(b, i, [t[0]], t[1..]);
      AtByte(b, i, t, 0);
      DigitsText(b, i + 1, t[1..]);
    }
  }

  /** What may stand behind a value. */
  predicate Delimited(b: seq<Byte>, i: nat) {
    i < |b| ==> IsSpace(b[i]) || b[i] == COMMA || IsClose(b[i]) || IsOpen(b[i])
  }

  lemma {:induction false} ExponentScan(b: seq<Byte>, i: nat, e: Exponent)
    requires ValidExponent(e) && At(b, i, ExponentText(e)) && Delimited(b, i + |ExponentText(e)|)
    ensures ExponentEnd(b, i) == i + |ExponentText(e)|
  {
    hide At, DigitsEnd;
    if e.Exponent? {
      AtConcat(b, i, [e.letter], e.sign + e.digits);
      AtConcat(b, i + 1, e.sign, e.digits);
      AtByte(b, i, ExponentText(e), 0);
      if e.sign != [] { AtByte(b, i + 1, e.sign, 0); }
      var k := i + 1 + |e.sign|;
      AtByte(b, k, e.digits, 0);
      assert e.digits[0] in e.digits;
      DigitsText(b, k, e.digits);
    }
  }

  lemma {:induction false} FractionScan(b: seq<Byte>, i: nat, fraction: seq<Byte>)
    requires AllDigits(fraction) && At(b, i, FractionText(fraction))
    requires var j := i + |FractionText(fraction)|; j < |b| ==> !IsDigit(b[j]) && b[j] != DOT
    ensures DecimalsEnd(b, i) == i + |FractionText(fraction)|
  {
    if fraction != [] {
      AtConcat(b, i, [DOT], fraction);
      AtByte(b, i, [DOT], 0);
      DigitsText(b, i + 1, fraction);
    }
  }

  lemma {:induction false} WholeScan(b: seq<Byte>, i: nat, whole: seq<Byte>, tail: seq<Byte>)
    requires whole != [] && AllDigits(whole) && (whole[0] == ZERO ==> |whole| == 1)
    requires At(b, i, whole) && (i + |whole| < |b| ==> !IsDigit(b[i + |whole|]))
    ensures i < |b| && IsDigit(b[i])
    ensures (if b[i] == ZERO then i + 1 else DigitsEnd(b, i)) == i + |whole|
  {
    AtByte(b, i, whole, 0);
    assert whole[0] in whole;
    DigitsText(b, i, whole);
  }

  lemma {:induction false} NumberTailScan(b: seq<Byte>, i: nat, fraction: seq<Byte>, e: Exponent)
    requires AllDigits(fraction) && ValidExponent(e)
    requires At(b, i, NumberTail(fraction, e)) && Delimited(b, i + |NumberTail(fraction, e)|)
    ensures ExponentEnd(b, DecimalsEnd(b, i)) == i + |NumberTail(fraction, e)|
    ensures i < |b| ==> !IsDigit(b[i])
  {
    var f := FractionText(fraction);
    AtConcat(b, i, f, ExponentText(e));
    var k := i + |f|;
    if e.Exponent? { AtByte(b, k, ExponentText(e), 0); }
    if f != [] { AtByte(b, i, f, 0); }
    FractionScan(b, i, fraction);
    ExponentScan(b, k, e);
  }

  lemma {:induction false} NumberScan(b: seq<Byte>, i: nat, s: Scalar)
    requires s.Number? && ValidScalar(s) && At(b, i, ScalarText(s)) && Delimited(b, i + |ScalarText(s)|)
    ensures NumberEnd(b, i) == i + |ScalarText(s)|
    ensures b[i] == MINUS || IsDigit(b[i])
  {
    hide At, DigitsEnd, AllDigits, NumberTail, ExponentEnd, DecimalsEnd, ValidExponent, Delimited;
    var tail := NumberTail(s.fraction, s.exponent);
    if s.negative {
      AtConcat(b, i, [MINUS], s.whole + tail);
      AtByte(b, i, [MINUS], 0);
    }
    var k := if s.negative then i + 1 else i;
    AtConcat(b, k, s.whole, tail);
    NumberTailScan(b, k + |s.whole|, s.fraction, s.exponent);
    WholeScan(b, k, s.whole, tail);
  }

  // ----- strings

  lemma {:induction false} Utf8Scan(b: seq<Byte>, i: nat, p: int)
    requires ValidItem(Char(p)) && At(b, i, Utf8(p))
    ensures Utf8End(b, i) == i + |Utf8(p)|
    ensures i < |b| && b[i] == Utf8(p)[0] && b[i] != QUOTE && b[i] != BACKSLASH && !IsControl(b[i])
  {
    var t := Utf8(p);
    AtByte(b, i, t, 0);
    if p >= 0x80 {
      AtByte(b, i, t, 1);
      if p >= 0x800 {
        AtByte(b, i, t, 2);
        if p >= 0x1_0000 {
          AtByte(b, i, t, 3);
          FourBytes(b, i, p);
        } else {
          ThreeBytes(b, i, p);
        }
      } else {
        TwoBytes(b, i, p);
      }
    }
  }

  lemma {:induction false} TwoBytes(b: seq<Byte>, i: nat, p: int)
    requires 0x80 <= p < 0x800 && i + 2 <= |b|
    requires b[i] == 0xC0 + p / 64 && b[i + 1] == 0x80 + p % 64
    ensures MultiByteEnd(b, i) == i + 2
  {
    assert LeadValue(b[i], 2) == p / 64;
    assert Trailing(b, i + 2, 0, p) == p;
    assert Trailing(b, i + 1, 1, p / 64) == p;
  }

  lemma {:induction false} ThreeBytes(b: seq<Byte>, i: nat, p: int)
    requires 0x800 <= p < 0x1_0000 && !(0xD800 <= p <= 0xDFFF) && i + 3 <= |b|
    requires b[i] == 0xE0 + p / 4096 && b[i + 1] == 0x80 + p / 64 % 64 && b[i + 2] == 0x80 + p % 64
    ensures MultiByteEnd(b, i) == i + 3
  {
    assert p / 4096 == p / 64 / 64;
    assert LeadValue(b[i], 3) == p / 4096;
    assert Trailing(b, i + 3, 0, p) == p;
    assert Trailing(b, i + 2, 1, p / 64) == p;
    assert Trailing(b, i + 1, 2, p / 4096) == p;
  }

  lemma {:induction false} FourBytes(b: seq<Byte>, i: nat, p: int)
    requires 0x1_0000 <= p <= 0x10_FFFF && i + 4 <= |b|
    requires b[i] == 0xF0 + p / 262144 && b[i + 1] == 0x80 + p / 4096 % 64
    requires b[i + 2] == 0x80 + p / 64 % 64 && b[i + 3] == 0x80 + p % 64
    ensures MultiByteEnd(b, i) == i + 4
  {
    assert p / 4096 == p / 64 / 64 && p / 262144 == p / 64 / 64 / 64;
    assert LeadValue(b[i], 4) == p / 262144;
    assert Trailing(b, i + 4, 0, p) == p;
    assert Trailing(b, i + 3, 1, p / 64) == p;
    assert Trailing(b, i + 2, 2, p / 4096) == p;
    assert Trailing(b, i + 1, 3, p / 262144) == p;
  }

  lemma {:induction false} HexScan(b: seq<Byte>, i: nat, d: seq<Byte>)
    requires IsHex(d) && At(b, i, [BACKSLASH, LETTER_U] + d) && i + 6 < |b| && Hex(d) > 0
    ensures HexEscapeValue(b, i) == Hex(d)
  {
    var t := [BACKSLASH, LETTER_U] + d;
    AtByte(b, i, t, 0);
    AtByte(b, i, t, 1);
    AtByte(b, i, t, 2);
    AtByte(b, i, t, 3);
    AtByte(b, i, t, 4);
    AtByte(b, i, t, 5);
    assert d[0] in d && d[1] in d && d[2] in d && d[3] in d;
    var v1 := HexValue(d[0]);
    var v2 := v1 * 16 + HexValue(d[1]);
    var v3 := v2 * 16 + HexValue(d[2]);
    assert HexDigits(b, i + 6, 0, Hex(d)) == Hex(d);
    assert HexDigits(b, i + 5, 1, v3) == Hex(d);
    assert HexDigits(b, i + 4, 2, v2) == Hex(d);
    assert HexDigits(b, i + 3, 3, v1) == Hex(d);
  }

  /** One step of the string scanner over one item; something always follows an item. */
  lemma {:induction false} ItemScan(b: seq<Byte>, i: nat, item: StringItem)
    requires ValidItem(item) && At(b, i, ItemText(item)) && i + |ItemText(item)| < |b|
    ensures ItemEnd(b, i) == i + |ItemText(item)| && b[i] != QUOTE
    ensures item.Control? <==> b[i] == BACKSLASH && IsControl(b[i + 1])
    ensures StringRest(b, i) == StringRest(b, i + |ItemText(item)|)
  {
    match item
    case Char(p) => Utf8Scan(b, i, p);
    case Short(c) =>
      AtByte(b, i, [BACKSLASH, c], 0);
      AtByte(b, i, [BACKSLASH, c], 1);
      assert EscapeEnd(b, i) == i + 2;
    case Control(c) =>
      AtByte(b, i, [BACKSLASH, c], 0);
      AtByte(b, i, [BACKSLASH, c], 1);
      assert EscapeEnd(b, i) == i + 2;
    case Unicode(d) =>
      AtByte(b, i, ItemText(item), 0);
      AtByte(b, i, ItemText(item), 1);
      HexScan(b, i, d);
      assert EscapeEnd(b, i) == i + 6;
    case Surrogates(h, l) =>
      var t := [BACKSLASH, LETTER_U] + l;
      assert ItemText(item) == ([BACKSLASH, LETTER_U] + h) + t;
      AtConcat(b, i, [BACKSLASH, LETTER_U] + h, t);
      AtByte(b, i, ItemText(item), 0);
      AtByte(b, i, ItemText(item), 1);
      HexScan(b, i, h);
      HexScan(b, i + 6, l);
      assert EscapeEnd(b, i) == i + 12;
  }

  lemma {:induction false} ItemsScan(b: seq<Byte>, i: nat, items: seq<StringItem>)
    requires ValidItems(items) && At(b, i, ItemsText(items) + [QUOTE])
    ensures StringRest(b, i) == i + |ItemsText(items)| + 1
    decreases |items|
  {
    hide At, ItemText, ValidItem;
    AtConcat(b, i, ItemsText(items), [QUOTE]);
    AtByte(b, i + |ItemsText(items)|, [QUOTE], 0);
    if items != [] {
      var t := ItemText(items[0]);
      assert ItemsText(items) + [QUOTE] == t + (ItemsText(items[1..]) + [QUOTE]);
      AtConcat(b, i, t, ItemsText(items[1..]) + [QUOTE]);
      ItemScan(b, i, items[0]);
      ItemsScan(b, i + |t|, items[1..]);
    }
  }

  /** No backslash in front of a control byte, from i up to the end of the string. */
  predicate Clean(b: seq<Byte>, i: nat)
    requires i <= |b|
    decreases |b| - i
  {
    i == |b| || b[i] == QUOTE || ItemEnd(b, i) == i
    || (!(b[i] == BACKSLASH && i + 1 < |b| && IsControl(b[i + 1])) && Clean(b, ItemEnd(b, i)))
  }

  lemma {:induction false} CleanItems(b: seq<Byte>, i: nat, items: seq<StringItem>)
    requires ValidItems(items) && At(b, i, ItemsText(items) + [QUOTE])
    ensures i <= |b| && (Clean(b, i) <==> StrictItems(items))
    decreases |items|
  {
    hide At, ItemText, ValidItem, ItemEnd;
    AtConcat(b, i, ItemsText(items), [QUOTE]);
    AtByte(b, i + |ItemsText(items)|, [QUOTE], 0);
    if items != [] {
      var t := ItemText(items[0]);
      assert ItemsText(items) + [QUOTE] == t + (ItemsText(items[1..]) + [QUOTE]);
      AtConcat(b, i, t, ItemsText(items[1..]) + [QUOTE]);
      ItemScan(b, i, items[0]);
      CleanItems(b, i + |t|, items[1..]);
      assert StrictItems(items) <==> !items[0].Control? && StrictItems(items[1..]) by { StrictHead(items); }
    }
  }

  lemma {:induction false} StrictHead(items: seq<StringItem>)
    requires items != []
    ensures StrictItems(items) <==> !items[0].Control? && StrictItems(items[1..])
  {
    assert StrictItems(items[1..]) ==> forall i :: 1 <= i < |items| ==> items[i] == items[1..][i - 1];
  }

  lemma {:induction false} StringScan(b: seq<Byte>, i: nat, items: seq<StringItem>)
    requires ValidItems(items) && At(b, i, StringText(items))
    ensures StringEnd(b, i) == i + |StringText(items)|
    ensures i < |b| && b[i] == QUOTE
  {
    AtConcat(b, i, [QUOTE], ItemsText(items) + [QUOTE]);
    AtByte(b, i, [QUOTE], 0);
    ItemsScan(b, i + 1, items);
  }

  lemma {:induction false} LiteralScan(b: seq<Byte>, i: nat, literal: seq<Byte>)
    requires literal == TRUE || literal == FALSE || literal == NULL
    requires At(b, i, literal)
    ensures ScalarEnd(b, i) == i + |literal|
    ensures b[i] == literal[0]
  {
    AtByte(b, i, literal, 0);
    assert forall l :: |l| <= |b| - i && b[i..i + |l|] == l && l != [] ==> l[0] == b[i] by {
      forall l | |l| <= |b| - i && b[i..i + |l|] == l && l != [] ensures l[0] == b[i] { AtByte(b, i, l, 0); }
    }
    assert StringEnd(b, i) == i;
  }

  /** The text of a scalar is skipped exactly, and it starts with no bracket, space or comma. */
  lemma {:induction false} ScalarScan(b: seq<Byte>, i: nat, s: Scalar)
    requires ValidScalar(s) && At(b, i, ScalarText(s)) && Delimited(b, i + |ScalarText(s)|)
    ensures ScalarEnd(b, i) == i + |ScalarText(s)|
    ensures i < |b| && !IsOpen(b[i]) && !IsClose(b[i]) && !IsSpace(b[i]) && b[i] != COMMA
  {
    match s
    case Text(items) => StringScan(b, i, items);
    case Number(_, _, _, _) =>
      NumberScan(b, i, s);
      NoLiteral(b, i);
    case True => LiteralScan(b, i, TRUE);
    case False => LiteralScan(b, i, FALSE);
    case Null => LiteralScan(b, i, NULL);
  }

  lemma {:induction false} NoLiteral(b: seq<Byte>, i: nat)
    requires i < |b| && (b[i] < 97 || b[i] > 122) && b[i] != QUOTE
    ensures ScalarEnd(b, i) == NumberEnd(b, i)
  {
    forall l | |l| <= |b| - i && b[i..i + |l|] == l && l != [] ensures l[0] == b[i] { AtByte(b, i, l, 0); }
  }

  /** No scalar starts with a bracket. */
  lemma {:induction false} NoScalarAtBracket(b: seq<Byte>, i: nat)
    requires i < |b| && (IsOpen(b[i]) || IsClose(b[i]))
    ensures ScalarEnd(b, i) == i && StringEnd(b, i) == i && KeyEnd(b, i) == i
  {
    NoLiteral(b, i);
  }
}
