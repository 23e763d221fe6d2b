/** The scanners of the JSON library: each reads from an index of a buffer and says where it stops.
    A scanner that can fail stops where it started exactly when it fails. */
module JsonScan {
  import opened Bytes

  const TAB: Byte := 9
  const LF: Byte := 10
  const CR: Byte := 13
  const SPACE: Byte := 32
  const QUOTE: Byte := 34
  const PLUS: Byte := 43
  const COMMA: Byte := 44
  const MINUS: Byte := 45
  const DOT: Byte := 46
  const SLASH: Byte := 47
  const ZERO: Byte := 48
  const NINE: Byte := 57
  const COLON: Byte := 58
  const SQUARE_OPEN: Byte := 91
  const BACKSLASH: Byte := 92
  const SQUARE_CLOSE: Byte := 93
  const LETTER_U: Byte := 117
  const CURLY_OPEN: Byte := 123
  const CURLY_CLOSE: Byte := 125

  const TRUE: seq<Byte> := [116, 114, 117, 101]
  const FALSE: seq<Byte> := [102, 97, 108, 115, 101]
  const NULL: seq<Byte> := [110, 117, 108, 108]

  predicate IsSpace(c: Byte) { c == SPACE || c == TAB || c == LF || c == CR }
  predicate IsDigit(c: Byte) { ZERO <= c <= NINE }
  predicate IsControl(c: Byte) { c < SPACE }
  predicate IsOpen(c: Byte) { c == CURLY_OPEN || c == SQUARE_OPEN }
  predicate IsClose(c: Byte) { c == CURLY_CLOSE || c == SQUARE_CLOSE }
  predicate IsPair(open: Byte, close: Byte) {
    (open == CURLY_OPEN && close == CURLY_CLOSE) || (open == SQUARE_OPEN && close == SQUARE_CLOSE)
  }

  function Max(a: nat, b: nat): nat { if a >= b then a else b }

  // ----- white space

  function SpaceEnd(b: seq<Byte>, i: nat): (j: nat)
    requires i <= |b|
    ensures i <= j <= |b|
    ensures j < |b| ==> !IsSpace(b[j])
    decreases |b| - i
  {
    if i < |b| && IsSpace(b[i]) then SpaceEnd(b, i + 1) else i
  }

  method SkipSpace(b: seq<Byte>, start: nat) returns (i: nat)
    requires start <= |b|
    ensures i == SpaceEnd(b, start)
  {
    i := start;
    while i < |b|
      invariant start <= i <= |b| && SpaceEnd(b, i) == SpaceEnd(b, start)
    {
      if !IsSpace(b[i]) { break; }
      i := i + 1;
    }
  }

  // ----- UTF-8

  function HighBits(c: Byte): (n: nat)
    ensures n <= 8
  {
    if c < 0x80 then 0
    else if c < 0xC0 then 1
    else if c < 0xE0 then 2
    else if c < 0xF0 then 3
    else if c < 0xF8 then 4
    else if c < 0xFC then 5
    else if c < 0xFE then 6
    else if c < 0xFF then 7
    else 8
  }

  /** Shifts the byte left until its top bit is clear. */
  method CountHighBits(c: Byte) returns (i: nat)
    ensures i == HighBits(c)
  {
    var n: int := c;
    i := 0;
    while n >= 0x80
      invariant 0 <= n < 256 && i + HighBits(n) == HighBits(c)
      decreases HighBits(n)
    {
      i := i + 1;
      n := (n % 0x80) * 2;
    }
  }

  predicate ShortestUtf8(length: nat, value: int)
    requires 2 <= length <= 4
  {
    var min := if length == 2 then 0x80 else if length == 3 then 0x800 else 0x1_0000;
    var max := if length == 2 then 0x7FF else if length == 3 then 0xFFFF else 0x10_FFFF;
    min <= value <= max && (value < 0xD800 || value > 0xDFFF)
  }

  /** The value after `k` trailing bytes from j on, or -1 if one of them is missing or malformed. */
  function Trailing(b: seq<Byte>, j: nat, k: nat, value: int): int
    decreases k
  {
    if k == 0 then value
    else if j >= |b| || b[j] / 64 != 2 then -1
    else Trailing(b, j + 1, k - 1, value * 64 + b[j] % 64)
  }

  function LeadValue(c: Byte, length: nat): int
    requires 2 <= length <= 4
  {
    c % (if length == 2 then 32 else if length == 3 then 16 else 8)
  }

  function MultiByteEnd(b: seq<Byte>, i: nat): (j: nat)
    requires i < |b| && b[i] >= 0x80
    ensures i <= j <= |b|
  {
    var n := HighBits(b[i]);
    if 0xC1 < b[i] < 0xF5 then
      var value := Trailing(b, i + 1, n - 1, LeadValue(b[i], n));
      if i + n <= |b| && value != -1 && ShortestUtf8(n, value) then i + n else i
    else i
  }

  method SkipUTF8MultiByte(b: seq<Byte>, start: nat) returns (end: nat)
    requires start < |b| && b[start] >= 0x80
    ensures end == MultiByteEnd(b, start)
  {
    end := start;
    if 0xC1 < b[start] < 0xF5 {
      var i := start;
      var bitCount := CountHighBits(b[start]);
      var value: int := LeadValue(b[start], bitCount);
      var j := bitCount - 1;
      while j > 0
        invariant 0 <= j <= bitCount - 1 && i == start + bitCount - 1 - j && i < |b| && value >= 0
        invariant Trailing(b, start + 1, bitCount - 1, LeadValue(b[start], bitCount)) == Trailing(b, i + 1, j, value)
      {
        i := i + 1;
        if i >= |b| { break; }
        if b[i] / 64 != 2 { break; }
        value := value * 64 + b[i] % 64;
        j := j - 1;
      }
      if j == 0 && ShortestUtf8(bitCount, value) {
        end := i + 1;
      }
    }
  }

  function Utf8End(b: seq<Byte>, i: nat): (j: nat)
    requires i <= |b|
    ensures i <= j <= |b|
  {
    if i == |b| then i
    else if b[i] < 0x80 then i + 1
    else MultiByteEnd(b, i)
  }

  // ----- strings

  /** The value of a hexadecimal digit, or 16. */
  function HexValue(c: Byte): (v: nat)
    ensures v <= 16
  {
    if 97 <= c <= 102 then c - 87
    else if 65 <= c <= 70 then c - 55
    else if IsDigit(c) then c - ZERO
    else 16
  }

  /** The value of n hexadecimal digits from i on, continuing `value`; -1 when one of them is no digit. */
  function HexDigits(b: seq<Byte>, i: nat, n: nat, value: nat): int
    requires i + n <= |b|
    decreases n
  {
    if n == 0 then value
    else if HexValue(b[i]) == 16 then -1
    else HexDigits(b, i + 1, n - 1, value * 16 + HexValue(b[i]))
  }

  /** The value of the four-digit escape at i, or 0 when there is none: it needs a byte behind it, and the
      value 0 is not allowed. */
  function HexEscapeValue(b: seq<Byte>, i: nat): (v: nat)
    requires i <= |b|
    ensures v > 0 ==> i + 6 < |b|
  {
    if i + 6 < |b| && b[i] == BACKSLASH && b[i + 1] == LETTER_U then
      var v := HexDigits(b, i + 2, 4, 0);
      if v > 0 then v else 0
    else 0
  }

  method SkipOneHexEscape(b: seq<Byte>, start: nat) returns (ok: bool, end: nat, value: nat)
    requires start <= |b|
    ensures ok <==> HexEscapeValue(b, start) > 0
    ensures end == if ok then start + 6 else start
    ensures ok ==> value == HexEscapeValue(b, start)
  {
    hide HexValue;
    var i := start;
    value := 0;
    if start + 6 < |b| && b[i] == BACKSLASH && b[i + 1] == LETTER_U {
      i := i + 2;
      while i < start + 6
        invariant start + 2 <= i <= start + 6
        invariant HexDigits(b, start + 2, 4, 0) == HexDigits(b, i, start + 6 - i, value)
      {
        var n := HexValue(b[i]);
        if n == 16 { break; }
        value := value * 16 + n;
        i := i + 1;
      }
    }
    ok := i == start + 6 && value > 0;
    end := if ok then i else start;
  }

  predicate IsHighSurrogate(v: nat) { 0xD800 <= v <= 0xDBFF }
  predicate IsLowSurrogate(v: nat) { 0xDC00 <= v <= 0xDFFF }

  function HexEscapeEnd(b: seq<Byte>, i: nat): (j: nat)
    requires i <= |b|
    ensures i <= j <= |b|
  {
    var v := HexEscapeValue(b, i);
    if v == 0 then i
    else if IsHighSurrogate(v) then
      (if IsLowSurrogate(HexEscapeValue(b, i + 6)) then i + 12 else i)
    else if IsLowSurrogate(v) then i
    else i + 6
  }

  /** The letters that may follow a backslash, apart from u. */
  predicate IsShortEscape(c: Byte) {
    c == QUOTE || c == BACKSLASH || c == SLASH || c == 98 || c == 102 || c == 110 || c == 114 || c == 116
  }

  function EscapeEnd(b: seq<Byte>, i: nat): (j: nat)
    requires i <= |b|
    ensures i <= j <= |b|
  {
    if i + 1 < |b| && b[i] == BACKSLASH then
      var c := b[i + 1];
      if c == 0 then i
      else if c == LETTER_U then HexEscapeEnd(b, i)
      else if IsShortEscape(c) || IsControl(c) then i + 2
      else i
    else i
  }

  /** The end of the character or escape sequence at i; i itself when there is no legal one. */
  function ItemEnd(b: seq<Byte>, i: nat): (j: nat)
    requires i < |b|
    ensures i <= j <= |b|
  {
    if b[i] == BACKSLASH then EscapeEnd(b, i) else if IsControl(b[i]) then i else Utf8End(b, i)
  }

  /** Where the string ends whose content goes on at i; 0 when it does not end properly. */
  function StringRest(b: seq<Byte>, i: nat): (j: nat)
    requires i <= |b|
    ensures j != 0 ==> i < j <= |b|
    decreases |b| - i
  {
    if i == |b| then 0
    else if b[i] == QUOTE then i + 1
    else
      var j := ItemEnd(b, i);
      if j == i then 0 else StringRest(b, j)
  }

  function StringEnd(b: seq<Byte>, i: nat): (j: nat)
    requires i <= |b|
    ensures i <= j <= |b|
    ensures j > i ==> j >= i + 2 && b[i] == QUOTE
  {
    if i < |b| && b[i] == QUOTE then
      var j := StringRest(b, i + 1);
      if j == 0 then i else j
    else i
  }

  method SkipString(b: seq<Byte>, start: nat) returns (end: nat)
    requires start <= |b|
    ensures end == StringEnd(b, start)
  {
    end := start;
    if start < |b| && b[start] == QUOTE {
      var i := start + 1;
      while i < |b|
        invariant start < i <= |b|
        invariant end == start && StringRest(b, i) == StringRest(b, start + 1)
      {
        if b[i] == QUOTE {
          end := i + 1;
          break;
        }
        var j;
        if b[i] == BACKSLASH {
          j := EscapeEnd(b, i);
        } else if IsControl(b[i]) {
          j := i;
        } else {
          j := Utf8End(b, i);
        }
        if j == i { break; }
        i := j;
      }
    }
  }

  // ----- literals and numbers

  method StrnEq(a: seq<Byte>, b: seq<Byte>, n: nat) returns (eq: bool)
    requires n <= |a| && n <= |b|
    ensures eq <==> a[..n] == b[..n]
  {
    var i := 0;
    while i < n
      invariant 0 <= i <= n && forall k :: 0 <= k < i ==> a[k] == b[k]
    {
      if a[i] != b[i] { break; }
      i := i + 1;
    }
    eq := i == n;
    if !eq { assert a[..n][i] != b[..n][i]; }
  }

  function LiteralEnd(b: seq<Byte>, i: nat, literal: seq<Byte>): (j: nat)
    requires i <= |b|
    ensures i <= j <= |b|
  {
    if |literal| <= |b| - i && b[i..i + |literal|] == literal then i + |literal| else i
  }

  function DigitsEnd(b: seq<Byte>, i: nat): (j: nat)
    requires i <= |b|
    ensures i <= j <= |b|
    ensures j < |b| ==> !IsDigit(b[j])
    decreases |b| - i
  {
    if i < |b| && IsDigit(b[i]) then DigitsEnd(b, i + 1) else i
  }

  const MAX_FACTOR: nat := 0x7FFF_FFF7 / 10

  /** The number that a run of digits from i on denotes, continuing `value`; -1 once it gets too large. */
  function DigitsValue(b: seq<Byte>, i: nat, value: int): int
    requires i <= |b|
    decreases |b| - i
  {
    if i < |b| && IsDigit(b[i]) then
      DigitsValue(b, i + 1, if 0 <= value <= MAX_FACTOR then value * 10 + (b[i] - ZERO) else -1)
    else value
  }

  method SkipDigits(b: seq<Byte>, start: nat) returns (end: nat, value: int)
    requires start <= |b|
    ensures end == DigitsEnd(b, start)
    ensures value == DigitsValue(b, start, 0)
  {
    end := start;
    value := 0;
    while end < |b|
      invariant start <= end <= |b| && value >= -1
      invariant DigitsEnd(b, end) == DigitsEnd(b, start)
      invariant DigitsValue(b, end, value) == DigitsValue(b, start, 0)
    {
      if !IsDigit(b[end]) { break; }
      if value > -1 {
        value := if value <= MAX_FACTOR then value * 10 + HexValue(b[end]) else -1;
      }
      end := end + 1;
    }
  }

  function DecimalsEnd(b: seq<Byte>, i: nat): (j: nat)
    requires i <= |b|
    ensures i <= j <= |b|
  {
    if i < |b| && b[i] == DOT && DigitsEnd(b, i + 1) > i + 1 then DigitsEnd(b, i + 1) else i
  }

  function ExponentEnd(b: seq<Byte>, i: nat): (j: nat)
    requires i <= |b|
    ensures i <= j <= |b|
  {
    if i < |b| && (b[i] == 101 || b[i] == 69) then
      var k := if i + 1 < |b| && (b[i + 1] == MINUS || b[i + 1] == PLUS) then i + 2 else i + 1;
      if DigitsEnd(b, k) > k then DigitsEnd(b, k) else i
    else i
  }

  function NumberEnd(b: seq<Byte>, i: nat): (j: nat)
    requires i <= |b|
    ensures i <= j <= |b|
  {
    var k := if i < |b| && b[i] == MINUS then i + 1 else i;
    var m := if k < |b| && b[k] == ZERO then k + 1 else DigitsEnd(b, k);
    if m > k then ExponentEnd(b, DecimalsEnd(b, m)) else i
  }

  function ScalarEnd(b: seq<Byte>, i: nat): (j: nat)
    requires i <= |b|
    ensures i <= j <= |b|
  {
    if StringEnd(b, i) > i then StringEnd(b, i)
    else if LiteralEnd(b, i, TRUE) > i then LiteralEnd(b, i, TRUE)
    else if LiteralEnd(b, i, FALSE) > i then LiteralEnd(b, i, FALSE)
    else if LiteralEnd(b, i, NULL) > i then LiteralEnd(b, i, NULL)
    else NumberEnd(b, i)
  }

  // ----- runs of scalars

  /** Behind the white space at i: is there a comma that another value follows, and where does that value
      start? Without such a comma the index is just behind the white space. */
  function SpaceAndComma(b: seq<Byte>, i: nat): (r: (bool, nat))
    requires i <= |b|
    ensures i <= r.1 <= |b|
    ensures r.1 < |b| ==> !IsSpace(b[r.1])
    ensures r.0 ==> i < r.1 < |b| && !IsClose(b[r.1])
  {
    var j := SpaceEnd(b, i);
    if j < |b| && b[j] == COMMA then
      var k := SpaceEnd(b, j + 1);
      if k < |b| && !IsClose(b[k]) then (true, k) else (false, j)
    else (false, j)
  }

  function ArrayScalarsEnd(b: seq<Byte>, i: nat): (j: nat)
    requires i <= |b|
    ensures i <= j <= |b|
    decreases |b| - i
  {
    var s := ScalarEnd(b, i);
    if s == i then i
    else
      var r := SpaceAndComma(b, s);
      if r.0 then ArrayScalarsEnd(b, r.1) else r.1
  }

  method SkipArrayScalars(b: seq<Byte>, start: nat) returns (i: nat)
    requires start <= |b|
    ensures i == ArrayScalarsEnd(b, start)
  {
    hide ScalarEnd, SpaceAndComma;
    i := start;
    while i < |b|
      invariant start <= i <= |b| && ArrayScalarsEnd(b, i) == ArrayScalarsEnd(b, start)
    {
      var s := ScalarEnd(b, i);
      if s == i { break; }
      var r := SpaceAndComma(b, s);
      i := r.1;
      if !r.0 { return; }
    }
  }

  /** Where the value of the key at i starts; i itself when there is no key followed by a colon. */
  function KeyEnd(b: seq<Byte>, i: nat): (j: nat)
    requires i <= |b|
    ensures i <= j <= |b|
  {
    var s := StringEnd(b, i);
    if s == i then i
    else
      var p := SpaceEnd(b, s);
      if p < |b| && b[p] == COLON then SpaceEnd(b, p + 1) else i
  }

  function ObjectScalarsEnd(b: seq<Byte>, i: nat): (j: nat)
    requires i <= |b|
    ensures i <= j <= |b|
    decreases |b| - i
  {
    var q := KeyEnd(b, i);
    if q == i then i
    else if q < |b| && IsOpen(b[q]) then q
    else
      var v := ScalarEnd(b, q);
      if v == q then i
      else
        var r := SpaceAndComma(b, v);
        if r.0 then ObjectScalarsEnd(b, r.1) else r.1
  }

  method SkipObjectScalars(b: seq<Byte>, start: nat) returns (end: nat)
    requires start <= |b|
    ensures end == ObjectScalarsEnd(b, start)
  {
    hide StringEnd, ScalarEnd, SpaceAndComma, SpaceEnd;
    end := start;
    var i := start;
    while i < |b|
      invariant start <= i <= |b| && end == i && ObjectScalarsEnd(b, i) == ObjectScalarsEnd(b, start)
      decreases |b| - i
    {
      var s := SkipString(b, i);
      if s == i { break; }
      s := SkipSpace(b, s);
      if s < |b| && b[s] != COLON { break; }
      if s == |b| { break; }
      s := SkipSpace(b, s + 1);
      if s < |b| && IsOpen(b[s]) {
        end := s;
        break;
      }
      var v := ScalarEnd(b, s);
      if v == s { break; }
      var r := SpaceAndComma(b, v);
      i := r.1;
      end := i;
      if !r.0 { break; }
    }
  }

  function ScalarsEnd(b: seq<Byte>, i: nat, mode: Byte): (j: nat)
    requires i <= |b|
    ensures i <= j <= |b|
  {
    if mode == SQUARE_OPEN then ArrayScalarsEnd(b, SpaceEnd(b, i)) else ObjectScalarsEnd(b, SpaceEnd(b, i))
  }
}
