/** The recursive parser of cJSON over a buffer with a moving offset. */
module CJsonParse {
  import opened Bytes
  import opened JsonScan
  import G = JsonGrammar
  import opened CJsonTree

  const NESTING_LIMIT: nat := 1000

  datatype Parsed<T> = Failed | Parsed(value: T, end: nat)

  // ----- what the parser computes, on a text without zero bytes

  /** Everything up to the space character is white space; the terminating zero ends it. */
  function SkipWhitespace(t: seq<Byte>, i: nat): (j: nat)
    requires i <= |t|
    ensures i <= j <= |t|
    decreases |t| - i
  {
    if i < |t| && t[i] <= SPACE then SkipWhitespace(t, i + 1) else i
  }

  /** The quote that ends a string whose content goes on at i; the length of the text when there is none. */
  function StringClose(t: seq<Byte>, i: nat): (e: nat)
    requires i <= |t|
    ensures i <= e <= |t| && (e < |t| ==> t[e] == QUOTE)
    decreases |t| - i
  {
    if i == |t| || t[i] == QUOTE then i
    else if t[i] != BACKSLASH then StringClose(t, i + 1)
    else if i + 2 <= |t| then StringClose(t, i + 2)
    else |t|
  }

  /** Four hexadecimal digits; 0 when one of them is none. */
  function Hex4(t: seq<Byte>, i: nat): (v: nat)
    requires i + 4 <= |t|
    ensures v < 0x1_0000
  {
    var a, b, c, d := HexValue(t[i]), HexValue(t[i + 1]), HexValue(t[i + 2]), HexValue(t[i + 3]);
    if a == 16 || b == 16 || c == 16 || d == 16 then 0 else ((a * 16 + b) * 16 + c) * 16 + d
  }

  /** The code point of the escape sequence at p, and how long it is; the length is 0 when it is refused. */
  function Utf16Literal(t: seq<Byte>, p: nat, e: nat): (r: (nat, nat))
    requires p <= e <= |t|
    ensures r.1 == 0 || (p + r.1 <= e && (r.1 == 6 || r.1 == 12))
    ensures r.1 == 6 ==> r.0 < 0x1_0000
    ensures r.1 == 12 ==> 0x1_0000 <= r.0 <= 0x10_FFFF
  {
    if e - p < 6 then (0, 0)
    else
      var first := Hex4(t, p + 2);
      if IsLowSurrogate(first) then (0, 0)
      else if IsHighSurrogate(first) then
        if e - (p + 6) < 6 || t[p + 6] != BACKSLASH || t[p + 7] != LETTER_U then (0, 0)
        else
          var second := Hex4(t, p + 8);
          if IsLowSurrogate(second) then (0x1_0000 + first % 0x400 * 0x400 + second % 0x400, 12) else (0, 0)
      else (first, 6)
  }

  /** The byte of a short escape sequence; 0 when the letter is none. */
  function Unescaped(letter: Byte): Byte {
    if letter == 98 then 8 else if letter == 102 then 12 else if letter == 110 then LF else if letter == 114 then CR
    else if letter == 116 then TAB else if letter == QUOTE || letter == BACKSLASH || letter == SLASH then letter else 0
  }

  datatype Content = Refused | Content(bytes: seq<Byte>)

  function Prefixed(s: seq<Byte>, r: Content): Content { if r.Refused? then Refused else Content(s + r.bytes) }

  /** The content of a string from p up to its closing quote at e. */
  function Unescape(t: seq<Byte>, p: nat, e: nat): Content
    requires e < |t|
    decreases e - p
  {
    if p >= e then Content([])
    else if t[p] != BACKSLASH then Prefixed([t[p]], Unescape(t, p + 1, e))
    else if t[p + 1] == LETTER_U then
      var u := Utf16Literal(t, p, e);
      if u.1 == 0 then Refused else Prefixed(G.Utf8(u.0), Unescape(t, p + u.1, e))
    else if Unescaped(t[p + 1]) != 0 then Prefixed([Unescaped(t[p + 1])], Unescape(t, p + 2, e))
    else Refused
  }

  function StringAt(t: seq<Byte>, i: nat): (r: Parsed<seq<Byte>>)
    requires i <= |t|
    ensures r.Parsed? ==> i < r.end <= |t|
  {
    if i == |t| || t[i] != QUOTE then Failed
    else
      var e := StringClose(t, i + 1);
      if e == |t| then Failed
      else
        var u := Unescape(t, i + 1, e);
        if u.Refused? then Failed else Parsed(u.bytes, e + 1)
  }

  const NUMBER_STRING: nat := 64

  /** The end of the run of number characters that is copied for conversion, `room` of them at most. */
  function NumberRun(t: seq<Byte>, i: nat, room: nat): (j: nat)
    requires i <= |t|
    ensures i <= j <= |t| && j <= i + room
    decreases room
  {
    if room > 0 && i < |t| && IsNumberChar(t[i]) then NumberRun(t, i + 1, room - 1) else i
  }

  function NumberAt(t: seq<Byte>, i: nat): (r: Parsed<Json>)
    requires i <= |t|
    ensures r.Parsed? ==> i < r.end <= |t|
  {
    var s := t[i..NumberRun(t, i, NUMBER_STRING - 1)];
    var n := StrtodLength(s);
    if n == 0 then Failed else Parsed(Number(s[..n]), i + n)
  }

  function ValueAt(t: seq<Byte>, i: nat, depth: nat): (r: Parsed<Json>)
    requires i <= |t|
    ensures r.Parsed? ==> i < r.end <= |t|
    decreases |t| - i, 1
  {
    if LiteralEnd(t, i, NULL) > i then Parsed(Null, i + 4)
    else if LiteralEnd(t, i, FALSE) > i then Parsed(False, i + 5)
    else if LiteralEnd(t, i, TRUE) > i then Parsed(True, i + 4)
    else if i == |t| then Failed
    else if t[i] == QUOTE then
      var r := StringAt(t, i);
      if r.Failed? then Failed else Parsed(Text(r.value), r.end)
    else if t[i] == MINUS || IsDigit(t[i]) then NumberAt(t, i)
    else if t[i] == SQUARE_OPEN then ContainerAt(t, i, depth, false)
    else if t[i] == CURLY_OPEN then ContainerAt(t, i, depth, true)
    else Failed
  }

  /** An array or object from its opening bracket on. */
  function ContainerAt(t: seq<Byte>, i: nat, depth: nat, isObject: bool): (r: Parsed<Json>)
    requires i < |t|
    ensures r.Parsed? ==> i < r.end <= |t|
    decreases |t| - i, 0
  {
    if depth >= NESTING_LIMIT then Failed
    else
      var j := SkipWhitespace(t, i + 1);
      if j < |t| && t[j] == CloseOf(isObject) then Parsed(Container(isObject, NoChild), j + 1)
      else
        var r := ChildrenAt(t, j, depth + 1, isObject);
        if r.Failed? then Failed else Parsed(Container(isObject, r.value), r.end)
  }

  /** The name of an item, in an object only, up to where its value starts. */
  function NameAt(t: seq<Byte>, i: nat, isObject: bool): (r: Parsed<seq<Byte>>)
    requires i <= |t|
    ensures r.Parsed? ==> i <= r.end <= |t|
  {
    if !isObject then Parsed([], SkipWhitespace(t, i))
    else
      var r := StringAt(t, SkipWhitespace(t, i));
      if r.Failed? then Failed
      else
        var k := SkipWhitespace(t, r.end);
        if k == |t| || t[k] != COLON then Failed else Parsed(r.value, SkipWhitespace(t, k + 1))
  }

  /** The items from i on, and behind the closing bracket. */
  function ChildrenAt(t: seq<Byte>, i: nat, depth: nat, isObject: bool): (r: Parsed<Children>)
    requires i <= |t|
    ensures r.Parsed? ==> i < r.end <= |t|
    decreases |t| - i, 2
  {
    var n := NameAt(t, i, isObject);
    if n.Failed? then Failed
    else
      var v := ValueAt(t, n.end, depth);
      if v.Failed? then Failed
      else
        var k := SkipWhitespace(t, v.end);
        if k == |t| then Failed
        else if t[k] == COMMA then
          var rest := ChildrenAt(t, k + 1, depth, isObject);
          if rest.Failed? then Failed else Parsed(Child(n.value, v.value, rest.value), rest.end)
        else if t[k] == CloseOf(isObject) then Parsed(Child(n.value, v.value, NoChild), k + 1)
        else Failed
  }

  const BOM: seq<Byte> := [0xEF, 0xBB, 0xBF]

  function SkipBom(t: seq<Byte>): (i: nat)
    ensures i <= |t|
  {
    if |t| >= 4 && t[..3] == BOM then 3 else 0
  }

  function Document(t: seq<Byte>): Parsed<Json> { ValueAt(t, SkipWhitespace(t, SkipBom(t)), 0) }

  // ----- escapes with wrong digits

  /** One of the four bytes at i is no hexadecimal digit. */
  predicate HasWrongDigit(t: seq<Byte>, i: nat)
    requires i + 4 <= |t|
  {
    exists k :: i <= k < i + 4 && HexValue(t[k]) == 16
  }

  /** A wrong digit in the first four is not refused: it is exactly the length of what is left up to the closing
      quote that decides, and the escape then stands for the zero character. */
  lemma {:induction false} WrongDigitRead(t: seq<Byte>, p: nat, e: nat)
    requires p + 6 <= |t| && p <= e <= |t| && HasWrongDigit(t, p + 2)
    ensures Utf16Literal(t, p, e).1 == 0 <==> e - p < 6
    ensures e - p >= 6 ==> Utf16Literal(t, p, e) == (0, 6)
  {
    assert Hex4(t, p + 2) == 0;
  }

  /** In the second half of a surrogate pair a wrong digit is always refused. */
  lemma {:induction false} WrongSecondRefused(t: seq<Byte>, p: nat, e: nat)
    requires p + 12 <= |t| && p <= e <= |t| && IsHighSurrogate(Hex4(t, p + 2)) && HasWrongDigit(t, p + 8)
    ensures Utf16Literal(t, p, e).1 == 0
  {
    assert Hex4(t, p + 8) == 0;
  }

  /** Four right digits are read as their value. */
  lemma {:induction false} RightDigits(t: seq<Byte>, i: nat)
    requires i + 4 <= |t| && !HasWrongDigit(t, i)
    ensures G.IsHex(t[i..i + 4]) && Hex4(t, i) == G.Hex(t[i..i + 4])
  {
    var d := t[i..i + 4];
    forall k | 0 <= k < 4 ensures HexValue(d[k]) < 16 { assert d[k] == t[i + k]; }
  }

  /** A whole document with two wrong digits is parsed. */
  lemma {:induction false} WrongDigitAccepted()
    ensures var t := [QUOTE, BACKSLASH, LETTER_U, ZERO, ZERO, 122, 122, QUOTE]; Document(t) == Parsed(Text([0]), 8)
  {
    var t := [QUOTE, BACKSLASH, LETTER_U, ZERO, ZERO, 122, 122, QUOTE];
    assert HexValue(t[5]) == 16;
    WrongDigitRead(t, 1, 7);
    assert StringClose(t, 7) == 7;
    assert StringClose(t, 5) == StringClose(t, 6) == 7;
    assert StringClose(t, 3) == StringClose(t, 4) == StringClose(t, 5);
    assert StringClose(t, 1) == 7;
    assert Unescape(t, 7, 7) == Content([]);
    assert Unescape(t, 1, 7) == Content([0]);
    assert LiteralEnd(t, 0, NULL) == 0 && LiteralEnd(t, 0, FALSE) == 0 && LiteralEnd(t, 0, TRUE) == 0;
  }
}
