/** The trees of cJSON and the texts they are printed to. */
module CJsonTree {
  import opened Bytes
  import opened JsonScan

  /** A number is kept as its printed text; strings and names hold raw bytes. */
  datatype Json =
    | Null
    | False
    | True
    | Number(token: seq<Byte>)
    | Text(content: seq<Byte>)
    | Container(isObject: bool, children: Children)

  /** The linked list of the items of an array or object; in an array the names are not set. */
  datatype Children = NoChild | Child(name: seq<Byte>, value: Json, next: Children)

  function OpenOf(isObject: bool): Byte { if isObject then CURLY_OPEN else SQUARE_OPEN }
  function CloseOf(isObject: bool): Byte { if isObject then CURLY_CLOSE else SQUARE_CLOSE }

  function Depth(v: Json): nat {
    match v
    case Container(_, children) => 1 + ChildrenDepth(children)
    case _ => 0
  }

  function ChildrenDepth(c: Children): nat {
    match c
    case NoChild => 0
    case Child(_, v, next) => Max(Depth(v), ChildrenDepth(next))
  }

  // ----- numbers

  predicate IsNumberChar(c: Byte) { IsDigit(c) || c == PLUS || c == MINUS || c == DOT || c == 101 || c == 69 }

  /** How much of a text the C library converts to a floating point number. */
  function StrtodLength(s: seq<Byte>): (n: nat)
    ensures n <= |s|
  {
    var k := if s != [] && (s[0] == PLUS || s[0] == MINUS) then 1 else 0;
    var d := DigitsEnd(s, k);
    var m := if d < |s| && s[d] == DOT then DigitsEnd(s, d + 1) else d;
    if d == k && m <= d + 1 then 0 else ExponentEnd(s, m)
  }

  const NUMBER_BUFFER: nat := 26

  /** The text of a number as printed: a minus sign or a digit first, converted back completely. */
  predicate IsNumberToken(t: seq<Byte>) {
    && 0 < |t| < NUMBER_BUFFER && (t[0] == MINUS || IsDigit(t[0])) && (forall c <- t :: IsNumberChar(c))
    && StrtodLength(t) == |t|
  }

  // ----- strings

  predicate NulFree(s: seq<Byte>) { forall c <- s :: c != 0 }

  function HexChar(v: nat): Byte
    requires v < 16
  {
    if v < 10 then 48 + v else 97 + v - 10
  }

  /** The letter of the short escape sequence of a byte; 0 when it has none. */
  function ShortEscape(c: Byte): Byte {
    if c == QUOTE then QUOTE else if c == BACKSLASH then BACKSLASH else if c == 8 then 98 else if c == 12 then 102
    else if c == LF then 110 else if c == CR then 114 else if c == TAB then 116 else 0
  }

  function EscapedByte(c: Byte): (s: seq<Byte>)
    ensures 1 <= |s| <= 6
  {
    if ShortEscape(c) != 0 then [BACKSLASH, ShortEscape(c)]
    else if c < SPACE then [BACKSLASH, LETTER_U, ZERO, ZERO, HexChar(c / 16), HexChar(c % 16)]
    else [c]
  }

  function Escaped(s: seq<Byte>): (t: seq<Byte>)
    ensures |t| >= |s|
  {
    if s == [] then [] else EscapedByte(s[0]) + Escaped(s[1..])
  }

  function Quoted(s: seq<Byte>): (t: seq<Byte>)
    ensures |t| == |Escaped(s)| + 2
  {
    [QUOTE] + (Escaped(s) + [QUOTE])
  }

  // ----- trees

  predicate ValidJson(v: Json) {
    match v
    case Number(token) => IsNumberToken(token)
    case Text(content) => NulFree(content)
    case Container(isObject, children) => ValidChildren(children, isObject)
    case _ => true
  }

  predicate ValidChildren(c: Children, isObject: bool) {
    match c
    case NoChild => true
    case Child(name, v, next) =>
      (if isObject then NulFree(name) else name == []) && ValidJson(v) && ValidChildren(next, isObject)
  }

  function Tabs(n: nat): (s: seq<Byte>)
    ensures |s| == n
  {
    if n == 0 then [] else [TAB] + Tabs(n - 1)
  }

  /** What stands in front of the value of an item: in an object its indented name and a colon. */
  function Lead(isObject: bool, format: bool, depth: nat, name: seq<Byte>): seq<Byte> {
    if isObject then (if format then Tabs(depth) else []) + (Quoted(name) + if format then [COLON, TAB] else [COLON])
    else []
  }

  function Trail(isObject: bool, format: bool, last: bool): seq<Byte> {
    if isObject then (if last then [] else [COMMA]) + if format then [LF] else []
    else if last then [] else if format then [COMMA, SPACE] else [COMMA]
  }

  function Opening(isObject: bool, format: bool): seq<Byte> {
    [OpenOf(isObject)] + if isObject && format then [LF] else []
  }

  function Closing(isObject: bool, format: bool, depth: nat): seq<Byte> {
    (if isObject && format then Tabs(depth) else []) + [CloseOf(isObject)]
  }

  /** The text of a tree at a nesting depth, compact or formatted. */
  function Render(v: Json, format: bool, depth: nat): (t: seq<Byte>)
    decreases v
  {
    match v
    case Null => NULL
    case False => FALSE
    case True => TRUE
    case Number(token) => token
    case Text(content) => Quoted(content)
    case Container(isObject, children) =>
      Opening(isObject, format) + (RenderChildren(children, isObject, format, depth + 1) + Closing(isObject, format, depth))
  }

  function RenderChildren(c: Children, isObject: bool, format: bool, depth: nat): seq<Byte>
    decreases c
  {
    match c
    case NoChild => []
    case Child(name, v, next) =>
      Lead(isObject, format, depth, name)
      + (Render(v, format, depth) + (Trail(isObject, format, next.NoChild?) + RenderChildren(next, isObject, format, depth)))
  }
}
