/** Parsing printed text gives the tree back. */
module CJsonRoundTrip {
  import opened Bytes
  import opened JsonScan
  import G = JsonGrammar
  import opened CJsonTree
  import opened CJsonParse

  // ----- strings

  lemma {:induction false} CloseStep(t: seq<Byte>, i: nat, c: Byte)
    requires c != 0 && At(t, i, EscapedByte(c))
    ensures StringClose(t, i) == StringClose(t, i + |EscapedByte(c)|)
  {
    var s := EscapedByte(c);
    AtByte(t, i, s, 0);
    if |s| > 1 {
      AtByte(t, i, s, 1);
      if |s| > 2 {
        AtByte(t, i, s, 2);
        AtByte(t, i, s, 3);
        AtByte(t, i, s, 4);
        AtByte(t, i, s, 5);
        assert StringClose(t, i + 2) == StringClose(t, i + 3) == StringClose(t, i + 4);
        assert StringClose(t, i + 4) == StringClose(t, i + 5) == StringClose(t, i + 6);
      }
    }
  }

  lemma {:induction false} NulFreeTail(s: seq<Byte>)
    requires s != [] && NulFree(s)
    ensures s[0] != 0 && NulFree(s[1..])
  {
    assert s[0] in s && forall c <- s[1..] :: c in s;
  }

  lemma {:induction false} CloseFound(t: seq<Byte>, i: nat, s: seq<Byte>)
    requires NulFree(s) && At(t, i, Escaped(s)) && At(t, i + |Escaped(s)|, [QUOTE])
    ensures StringClose(t, i) == i + |Escaped(s)|
    decreases |s|
  {
    hide At, EscapedByte, NulFree;
    if s == [] {
      AtByte(t, i, [QUOTE], 0);
    } else {
      NulFreeTail(s);
      AtConcat(t, i, EscapedByte(s[0]), Escaped(s[1..]));
      CloseStep(t, i, s[0]);
      CloseFound(t, i + |EscapedByte(s[0])|, s[1..]);
    }
  }

  lemma {:induction false} UnescapeByte(t: seq<Byte>, p: nat, e: nat, c: Byte)
    requires c != 0 && At(t, p, EscapedByte(c)) && p + |EscapedByte(c)| <= e < |t|
    ensures Unescape(t, p, e) == Prefixed([c], Unescape(t, p + |EscapedByte(c)|, e))
  {
    var s := EscapedByte(c);
    AtByte(t, p, s, 0);
    if |s| == 2 {
      AtByte(t, p, s, 1);
    } else if |s| == 6 {
      AtByte(t, p, s, 1);
      AtByte(t, p, s, 2);
      AtByte(t, p, s, 3);
      AtByte(t, p, s, 4);
      AtByte(t, p, s, 5);
      HexCharValue(c / 16);
      HexCharValue(c % 16);
      assert Hex4(t, p + 2) == c;
      assert Utf16Literal(t, p, e) == (c, 6) && G.Utf8(c) == [c];
    }
  }

  lemma {:induction false} HexCharValue(v: nat)
    requires v < 16
    ensures HexValue(HexChar(v)) == v && HexValue(ZERO) == 0
  {}

  lemma {:induction false} UnescapeAll(t: seq<Byte>, p: nat, e: nat, s: seq<Byte>)
    requires NulFree(s) && At(t, p, Escaped(s)) && e == p + |Escaped(s)| < |t|
    ensures Unescape(t, p, e) == Content(s)
    decreases |s|
  {
    hide At, EscapedByte, NulFree;
    if s != [] {
      NulFreeTail(s);
      AtConcat(t, p, EscapedByte(s[0]), Escaped(s[1..]));
      UnescapeByte(t, p, e, s[0]);
      UnescapeAll(t, p + |EscapedByte(s[0])|, e, s[1..]);
      assert s == [s[0]] + s[1..];
    }
  }

  /** A printed string is read back. */
  lemma {:induction false} StringParsed(t: seq<Byte>, i: nat, s: seq<Byte>)
    requires NulFree(s) && At(t, i, Quoted(s))
    ensures StringAt(t, i) == Parsed(s, i + |Quoted(s)|)
    ensures i < |t| && t[i] == QUOTE
  {
    hide At, Escaped, NulFree, Unescape, StringClose;
    AtConcat(t, i, [QUOTE], Escaped(s) + [QUOTE]);
    AtConcat(t, i + 1, Escaped(s), [QUOTE]);
    AtByte(t, i, [QUOTE], 0);
    CloseFound(t, i + 1, s);
    UnescapeAll(t, i + 1, i + 1 + |Escaped(s)|, s);
  }

  // ----- numbers

  /** What may follow a number. */
  predicate NumberEnds(t: seq<Byte>, i: nat) { i < |t| ==> !IsNumberChar(t[i]) }

  lemma {:induction false} RunFound(t: seq<Byte>, i: nat, s: seq<Byte>, room: nat)
    requires At(t, i, s) && (forall c <- s :: IsNumberChar(c)) && |s| <= room && NumberEnds(t, i + |s|)
    ensures NumberRun(t, i, room) == i + |s|
    decreases |s|
  {
    if s != [] {
      assert s == [s[0]] + s[1..] && s[0] in s;
      AtConcat(t, i, [s[0]], s[1..]);
      AtByte(t, i, s, 0);
      assert forall c <- s[1..] :: c in s;
      RunFound(t, i + 1, s[1..], room - 1);
    }
  }

  lemma {:induction false} NumberParsed(t: seq<Byte>, i: nat, s: seq<Byte>)
    requires IsNumberToken(s) && At(t, i, s) && NumberEnds(t, i + |s|)
    ensures NumberAt(t, i) == Parsed(Number(s), i + |s|)
    ensures t[i] == MINUS || IsDigit(t[i])
  {
    hide StrtodLength;
    RunFound(t, i, s, NUMBER_STRING - 1);
    AtByte(t, i, s, 0);
    assert s[..|s|] == s;
  }

  // ----- white space

  predicate IsBlank(s: seq<Byte>) { forall c <- s :: c <= SPACE }

  lemma {:induction false} BlankSkipped(t: seq<Byte>, i: nat, s: seq<Byte>)
    requires At(t, i, s) && IsBlank(s)
    ensures SkipWhitespace(t, i) == SkipWhitespace(t, i + |s|)
    decreases |s|
  {
    if s != [] {
      assert s == [s[0]] + s[1..] && s[0] in s;
      AtConcat(t, i, [s[0]], s[1..]);
      AtByte(t, i, s, 0);
      assert forall c <- s[1..] :: c in s;
      BlankSkipped(t, i + 1, s[1..]);
    }
  }

  lemma {:induction false} TabsBlank(n: nat)
    ensures IsBlank(Tabs(n))
  {
    if n > 0 { TabsBlank(n - 1); }
  }

  // ----- first bytes

  lemma {:induction false} RenderStart(t: seq<Byte>, i: nat, v: Json, format: bool, depth: nat)
    requires ValidJson(v) && At(t, i, Render(v, format, depth))
    ensures Render(v, format, depth) != [] && i < |t| && t[i] > SPACE && t[i] != SQUARE_CLOSE && t[i] != CURLY_CLOSE
    ensures v.Container? <==> t[i] == SQUARE_OPEN || t[i] == CURLY_OPEN
    ensures v.Container? ==> t[i] == OpenOf(v.isObject)
    ensures !v.Null? && !v.False? && !v.True? ==> t[i] != 110 && t[i] != 102 && t[i] != 116
    ensures t[i] != 0xEF
  {
    AtByte(t, i, Render(v, format, depth), 0);
  }

  lemma {:induction false} NoLiteralAt(t: seq<Byte>, i: nat)
    requires i < |t| && t[i] != 110 && t[i] != 102 && t[i] != 116
    ensures LiteralEnd(t, i, NULL) == i && LiteralEnd(t, i, FALSE) == i && LiteralEnd(t, i, TRUE) == i
  {}

  lemma {:induction false} LiteralParsed(t: seq<Byte>, i: nat, v: Json, depth: nat)
    requires v.Null? || v.False? || v.True?
    requires At(t, i, Render(v, false, 0))
    ensures ValueAt(t, i, depth) == Parsed(v, i + |Render(v, false, 0)|)
  {
    AtByte(t, i, Render(v, false, 0), 0);
    forall l: seq<Byte> | l != [] && i + |l| <= |t| && t[i..i + |l|] == l ensures l[0] == t[i] { AtByte(t, i, l, 0); }
  }

  // ----- between values

  /** The name of an item, up to its value. */
  lemma {:induction false} NameParsed(t: seq<Byte>, i: nat, j: nat, isObject: bool, format: bool, depth: nat, name: seq<Byte>)
    requires i <= |t| && At(t, j, Lead(isObject, format, depth, name)) && SkipWhitespace(t, i) == SkipWhitespace(t, j)
    requires if isObject then NulFree(name) else name == []
    requires var k := j + |Lead(isObject, format, depth, name)|; k < |t| && t[k] > SPACE
    ensures NameAt(t, i, isObject) == Parsed(name, j + |Lead(isObject, format, depth, name)|)
    ensures isObject ==> SkipWhitespace(t, i) < |t| && t[SkipWhitespace(t, i)] == QUOTE
  {
    if isObject { ObjectName(t, i, j, format, depth, name); }
  }

  lemma {:induction false} ObjectName(t: seq<Byte>, i: nat, j: nat, format: bool, depth: nat, name: seq<Byte>)
    requires i <= |t| && At(t, j, Lead(true, format, depth, name)) && SkipWhitespace(t, i) == SkipWhitespace(t, j) && NulFree(name)
    requires var k := j + |Lead(true, format, depth, name)|; k < |t| && t[k] > SPACE
    ensures NameAt(t, i, true) == Parsed(name, j + |Lead(true, format, depth, name)|)
    ensures SkipWhitespace(t, i) < |t| && t[SkipWhitespace(t, i)] == QUOTE
  {
    hide At, Quoted, StringAt, NulFree, Tabs;
    var indent, q, colon := if format then Tabs(depth) else [], Quoted(name), if format then [COLON, TAB] else [COLON];
    AtConcat(t, j, indent, q + colon);
    var m := j + |indent|;
    AtConcat(t, m, q, colon);
    StringParsed(t, m, name);
    if format { TabsBlank(depth); }
    BlankSkipped(t, j, indent);
    var e := m + |q|;
    AtByte(t, e, colon, 0);
    if format {
      AtByte(t, e, colon, 1);
      assert SkipWhitespace(t, e + 1) == SkipWhitespace(t, e + 2) == e + 2;
    } else {
      assert SkipWhitespace(t, e + 1) == e + 1;
    }
  }

  /** Behind the value of the last item. */
  lemma {:induction false} TrailLast(t: seq<Byte>, e: nat, isObject: bool, format: bool, depth: nat)
    requires At(t, e, Trail(isObject, format, true) + Closing(isObject, format, depth))
    ensures var k := e + |Trail(isObject, format, true) + Closing(isObject, format, depth)| - 1;
            k < |t| && SkipWhitespace(t, e) == k && t[k] == CloseOf(isObject) && NumberEnds(t, e)
  {
    hide At, Tabs;
    var trail, tabs := Trail(isObject, format, true), if isObject && format then Tabs(depth) else [];
    AtConcat(t, e, trail, tabs + [CloseOf(isObject)]);
    AtConcat(t, e + |trail|, tabs, [CloseOf(isObject)]);
    AtByte(t, e + |trail| + |tabs|, [CloseOf(isObject)], 0);
    if isObject && format {
      AtByte(t, e, trail, 0);
      TabsBlank(depth);
    }
    BlankSkipped(t, e, trail);
    BlankSkipped(t, e + |trail|, tabs);
  }

  /** Behind the value of any other item. */
  lemma {:induction false} TrailMore(t: seq<Byte>, e: nat, isObject: bool, format: bool)
    requires At(t, e, Trail(isObject, format, false))
    ensures e < |t| && t[e] == COMMA && SkipWhitespace(t, e) == e && NumberEnds(t, e)
    ensures e + |Trail(isObject, format, false)| <= |t|
    ensures SkipWhitespace(t, e + 1) == SkipWhitespace(t, e + |Trail(isObject, format, false)|)
  {}

  /** The parts of the text of a list of items with the closing bracket behind it. */
  lemma {:induction false} ItemParts(t: seq<Byte>, j: nat, c: Children, isObject: bool, format: bool, depth: nat)
    requires c.Child? && ValidChildren(c, isObject)
    requires At(t, j, RenderChildren(c, isObject, format, depth + 1) + Closing(isObject, format, depth))
    ensures var k := j + |Lead(isObject, format, depth + 1, c.name)|;
            var e := k + |Render(c.value, format, depth + 1)|;
            var trail := Trail(isObject, format, c.next.NoChild?);
            var rest := RenderChildren(c.next, isObject, format, depth + 1) + Closing(isObject, format, depth);
            && At(t, j, Lead(isObject, format, depth + 1, c.name)) && At(t, k, Render(c.value, format, depth + 1))
            && At(t, e, trail) && At(t, e + |trail|, rest)
            && (c.next.NoChild? ==> At(t, e, trail + Closing(isObject, format, depth)))
            && j + |RenderChildren(c, isObject, format, depth + 1) + Closing(isObject, format, depth)| == e + |trail| + |rest|
            && k < |t| && t[k] > SPACE && t[k] != CloseOf(isObject)
  {
    hide At, Lead, Render, Trail, Closing;
    var lead, r := Lead(isObject, format, depth + 1, c.name), Render(c.value, format, depth + 1);
    var trail, rest := Trail(isObject, format, c.next.NoChild?), RenderChildren(c.next, isObject, format, depth + 1);
    var close := Closing(isObject, format, depth);
    AtConcat(t, j, RenderChildren(c, isObject, format, depth + 1), close);
    AtConcat(t, j, lead, r + (trail + rest));
    AtConcat(t, j + |lead|, r, trail + rest);
    var e := j + |lead| + |r|;
    AtConcat(t, e, trail, rest);
    AtConcat(t, e + |trail|, rest, close);
    AtConcat(t, e, trail, close);
    RenderStart(t, j + |lead|, c.value, format, depth + 1);
  }

  // ----- the main lemmas

  /** Accepted when the nesting stays within the limit. */
  function Expected<T>(depth: nat, value: T, end: nat): Parsed<T> {
    if depth <= NESTING_LIMIT then Parsed(value, end) else Failed
  }

  lemma {:induction false} ChildrenParsed(t: seq<Byte>, i: nat, j: nat, c: Children, isObject: bool, format: bool, d: nat, depth: nat)
    requires c.Child? && ValidChildren(c, isObject) && depth <= NESTING_LIMIT && j <= |t|
    requires i <= |t| && SkipWhitespace(t, i) == SkipWhitespace(t, j)
    requires At(t, j, RenderChildren(c, isObject, format, d + 1) + Closing(isObject, format, d))
    ensures ChildrenAt(t, i, depth, isObject)
            == Expected(depth + ChildrenDepth(c), c, j + |RenderChildren(c, isObject, format, d + 1) + Closing(isObject, format, d)|)
    decreases c, 3
  {
    hide *;
    if c.next.NoChild? {
      LastItem(t, i, j, c, isObject, format, d, depth);
    } else {
      MoreItems(t, i, j, c, isObject, format, d, depth);
    }
  }

  lemma {:induction false} LastItem(t: seq<Byte>, i: nat, j: nat, c: Children, isObject: bool, format: bool, d: nat, depth: nat)
    requires c.Child? && ValidChildren(c, isObject) && depth <= NESTING_LIMIT && j <= |t|
    requires i <= |t| && SkipWhitespace(t, i) == SkipWhitespace(t, j)
    requires At(t, j, RenderChildren(c, isObject, format, d + 1) + Closing(isObject, format, d))
    requires c.next.NoChild?
    ensures ChildrenAt(t, i, depth, isObject)
            == Expected(depth + ChildrenDepth(c), c, j + |RenderChildren(c, isObject, format, d + 1) + Closing(isObject, format, d)|)
    decreases c, 2
  {
    hide At, Lead, Render, Trail, Closing, NameAt, ValueAt, SkipWhitespace, NulFree, NumberEnds, RenderChildren, ChildrenAt, ValidJson, Depth;
    ItemParts(t, j, c, isObject, format, d);
    var k := j + |Lead(isObject, format, d + 1, c.name)|;
    var e := k + |Render(c.value, format, d + 1)|;
    NameParsed(t, i, j, isObject, format, d + 1, c.name);
    NoneLeft(isObject, format, d);
    TrailLast(t, e, isObject, format, d);
    ValueParsed(t, k, c.value, format, d + 1, depth);
    ChildrenStep(t, i, depth, isObject, c.name, k, c.value, e, SkipWhitespace(t, e));
  }

  lemma {:induction false} MoreItems(t: seq<Byte>, i: nat, j: nat, c: Children, isObject: bool, format: bool, d: nat, depth: nat)
    requires c.Child? && ValidChildren(c, isObject) && depth <= NESTING_LIMIT && j <= |t|
    requires i <= |t| && SkipWhitespace(t, i) == SkipWhitespace(t, j)
    requires At(t, j, RenderChildren(c, isObject, format, d + 1) + Closing(isObject, format, d))
    requires c.next.Child?
    ensures ChildrenAt(t, i, depth, isObject)
            == Expected(depth + ChildrenDepth(c), c, j + |RenderChildren(c, isObject, format, d + 1) + Closing(isObject, format, d)|)
    decreases c, 2
  {
    hide At, Lead, Render, Trail, Closing, NameAt, ValueAt, SkipWhitespace, NulFree, NumberEnds, RenderChildren, ChildrenAt, ValidJson, Depth;
    ItemParts(t, j, c, isObject, format, d);
    var k := j + |Lead(isObject, format, d + 1, c.name)|;
    var e := k + |Render(c.value, format, d + 1)|;
    NameParsed(t, i, j, isObject, format, d + 1, c.name);
    TrailMore(t, e, isObject, format);
    ValueParsed(t, k, c.value, format, d + 1, depth);
    ChildrenParsed(t, e + 1, e + |Trail(isObject, format, false)|, c.next, isObject, format, d, depth);
    ChildrenStep(t, i, depth, isObject, c.name, k, c.value, e, e);
  }

  /** One turn of the loop over the items. */
  lemma {:induction false} ChildrenStep(t: seq<Byte>, i: nat, depth: nat, isObject: bool, name: seq<Byte>, k: nat, v: Json, e: nat, m: nat)
    requires i <= |t| && NameAt(t, i, isObject) == Parsed(name, k) && e <= |t| && m < |t|
    requires SkipWhitespace(t, e) == m && (t[m] == COMMA || t[m] == CloseOf(isObject))
    ensures ValueAt(t, k, depth).Failed? ==> ChildrenAt(t, i, depth, isObject).Failed?
    ensures ValueAt(t, k, depth) == Parsed(v, e) ==>
              ChildrenAt(t, i, depth, isObject)
              == if t[m] == COMMA then
                   var rest := ChildrenAt(t, m + 1, depth, isObject);
                   if rest.Failed? then Failed else Parsed(Child(name, v, rest.value), rest.end)
                 else Parsed(Child(name, v, NoChild), m + 1)
  {
    hide NameAt, ValueAt, SkipWhitespace;
  }

  lemma {:induction false} NoneLeft(isObject: bool, format: bool, d: nat)
    ensures |RenderChildren(NoChild, isObject, format, d + 1) + Closing(isObject, format, d)| == |Closing(isObject, format, d)|
  {}

  /** A printed value is read back, or refused when it is nested too deep. */
  lemma {:induction false} ValueParsed(t: seq<Byte>, i: nat, v: Json, format: bool, d: nat, depth: nat)
    requires ValidJson(v) && At(t, i, Render(v, format, d)) && NumberEnds(t, i + |Render(v, format, d)|) && depth <= NESTING_LIMIT
    ensures ValueAt(t, i, depth) == Expected(depth + Depth(v), v, i + |Render(v, format, d)|)
    decreases v, 1
  {
    hide At, NumberEnds, StringAt, NumberAt, IsNumberToken, NulFree, Quoted;
    RenderStart(t, i, v, format, d);
    match v
    case Number(token) =>
      NumberParsed(t, i, token);
      NoLiteralAt(t, i);
    case Text(content) =>
      StringParsed(t, i, content);
      NoLiteralAt(t, i);
    case Container(isObject, children) =>
      ContainerParsed(t, i, v, format, d, depth);
    case _ => LiteralParsed(t, i, v, depth);
  }

  lemma {:induction false} SkippedOnce(t: seq<Byte>, i: nat)
    requires i <= |t|
    ensures SkipWhitespace(t, SkipWhitespace(t, i)) == SkipWhitespace(t, i)
    decreases |t| - i
  {
    if i < |t| && t[i] <= SPACE { SkippedOnce(t, i + 1); }
  }

  /** The parts of a container, and where its first item or its closing bracket stands. */
  lemma {:induction false} ContainerParts(t: seq<Byte>, i: nat, v: Json, format: bool, d: nat)
    requires v.Container? && At(t, i, Render(v, format, d))
    ensures var j := i + |Opening(v.isObject, format)|;
            var rest := RenderChildren(v.children, v.isObject, format, d + 1) + Closing(v.isObject, format, d);
            && i < j <= |t| && At(t, j, rest) && i + |Render(v, format, d)| == j + |rest|
            && SkipWhitespace(t, i + 1) == SkipWhitespace(t, j)
  {
    hide At, Closing;
    var opening := Opening(v.isObject, format);
    var rest := RenderChildren(v.children, v.isObject, format, d + 1) + Closing(v.isObject, format, d);
    AtConcat(t, i, opening, rest);
    assert opening == [OpenOf(v.isObject)] + opening[1..];
    AtConcat(t, i, [OpenOf(v.isObject)], opening[1..]);
    BlankSkipped(t, i + 1, opening[1..]);
  }

  /** An empty container: only white space up to the closing bracket. */
  lemma {:induction false} EmptyParsed(t: seq<Byte>, j: nat, isObject: bool, format: bool, d: nat)
    requires At(t, j, RenderChildren(NoChild, isObject, format, d + 1) + Closing(isObject, format, d))
    ensures var n := |RenderChildren(NoChild, isObject, format, d + 1) + Closing(isObject, format, d)|;
            j <= |t| && SkipWhitespace(t, j) == j + n - 1 && j + n - 1 < |t| && t[j + n - 1] == CloseOf(isObject)
  {
    hide At, Tabs;
    var tabs := if isObject && format then Tabs(d) else [];
    assert RenderChildren(NoChild, isObject, format, d + 1) + Closing(isObject, format, d) == tabs + [CloseOf(isObject)];
    AtConcat(t, j, tabs, [CloseOf(isObject)]);
    AtByte(t, j + |tabs|, [CloseOf(isObject)], 0);
    if isObject && format { TabsBlank(d); }
    BlankSkipped(t, j, tabs);
  }

  /** The first item does not look like a closing bracket. */
  lemma {:induction false} FirstItem(t: seq<Byte>, j: nat, c: Children, isObject: bool, format: bool, d: nat)
    requires c.Child? && ValidChildren(c, isObject)
    requires At(t, j, RenderChildren(c, isObject, format, d + 1) + Closing(isObject, format, d))
    ensures j <= |t| && SkipWhitespace(t, j) < |t| && t[SkipWhitespace(t, j)] != CloseOf(isObject)
  {
    hide At, Render, RenderChildren, Trail, Closing, NulFree, StringAt, Quoted, ValidJson;
    ItemParts(t, j, c, isObject, format, d);
    NameParsed(t, j, j, isObject, format, d + 1, c.name);
  }

  lemma {:induction false} ContainerParsed(t: seq<Byte>, i: nat, v: Json, format: bool, d: nat, depth: nat)
    requires v.Container? && ValidJson(v) && At(t, i, Render(v, format, d)) && depth <= NESTING_LIMIT
    requires i < |t| && t[i] == OpenOf(v.isObject)
    ensures ValueAt(t, i, depth) == Expected(depth + Depth(v), v, i + |Render(v, format, d)|)
    decreases v, 0
  {
    hide At, Render, RenderChildren, Closing, Opening, SkipWhitespace, StringAt, NumberAt, ChildrenAt, LiteralEnd;
    NoLiteralAt(t, i);
    ContainerParts(t, i, v, format, d);
    var j := i + |Opening(v.isObject, format)|;
    if v.children.NoChild? {
      EmptyParsed(t, j, v.isObject, format, d);
    } else {
      FirstItem(t, j, v.children, v.isObject, format, d);
      SkippedOnce(t, j);
      if depth < NESTING_LIMIT {
        ChildrenParsed(t, SkipWhitespace(t, j), j, v.children, v.isObject, format, d, depth + 1);
      }
    }
  }

  /** For every tree, compact or formatted: the parser gives the printed tree back exactly when its
      containers are nested at most 1000 deep, and refuses it otherwise. */
  lemma {:induction false} PrintedParsed(v: Json, format: bool)
    requires ValidJson(v)
    ensures Document(Render(v, format, 0)) == if Depth(v) <= 1000 then Parsed(v, |Render(v, format, 0)|) else Failed
  {
    hide At, Render, ValueAt, NumberEnds;
    var t := Render(v, format, 0);
    Whole(t);
    RenderStart(t, 0, v, format, 0);
    ValueParsed(t, 0, v, format, 0, 0);
  }

  lemma {:induction false} Whole(t: seq<Byte>)
    ensures At(t, 0, t) && NumberEnds(t, |t|)
  {}

  // ----- an example

  function Items(): Json { Container(false, Child([], True, Child([], Null, NoChild))) }

  function Example(): Json { Container(true, Child(Ascii("a"), Items(), Second())) }

  lemma {:induction false} ItemsText()
    ensures Render(Items(), false, 1) == Ascii("[true,null]") && Render(Items(), true, 1) == Ascii("[true, null]")
  {
    var last := Child([], Null, NoChild);
    assert RenderChildren(last, false, false, 2) == NULL && RenderChildren(last, false, true, 2) == NULL;
  }

  lemma {:induction false} Entries()
    ensures Quoted(Ascii("a")) == Ascii("\"a\"") && Quoted(Ascii("b")) == Ascii("\"b\"")
    ensures Quoted([104, 10]) == Ascii("\"h\\n\"")
  {
    assert Escaped([]) == [];
    assert Escaped([10]) == EscapedByte(10) + [] by { assert [10][1..] == []; }
    assert [104, 10][1..] == [10];
    assert Ascii("a")[1..] == [] && Ascii("b")[1..] == [];
  }

  function Second(): Children { Child(Ascii("b"), Text([104, 10]), NoChild) }

  lemma {:induction false} Pieces(o: seq<Byte>, a: seq<Byte>, x: seq<Byte>, m: seq<Byte>, b: seq<Byte>, y: seq<Byte>,
                                  n: seq<Byte>, z: seq<Byte>)
    ensures o + ((a + (x + (m + (b + (y + (n + [])))))) + z) == (o + a) + (x + ((m + b) + (y + (n + z))))
  {}

  lemma {:induction false} ExampleParts(format: bool)
    ensures Render(Example(), format, 0)
            == Opening(true, format)
               + ((Lead(true, format, 1, Ascii("a"))
                   + (Render(Items(), format, 1)
                      + (Trail(true, format, false)
                         + (Lead(true, format, 1, Ascii("b"))
                            + (Quoted([104, 10]) + (Trail(true, format, true) + []))))))
                  + Closing(true, format, 0))
  {
    hide Ascii, Items, Quoted, Lead, Trail, Opening, Closing;
    assert RenderChildren(NoChild, true, format, 1) == [];
    assert RenderChildren(Second(), true, format, 1)
           == Lead(true, format, 1, Ascii("b")) + (Quoted([104, 10]) + (Trail(true, format, true) + []));
  }

  /** The text of {"a":[true,null],"b":"h\n"}. */
  lemma {:induction false} CompactExample()
    ensures Render(Example(), false, 0)
            == Ascii("{\"a\":") + (Ascii("[true,null]") + (Ascii(",\"b\":") + (Ascii("\"h\\n\"") + Ascii("}"))))
  {
    ExampleParts(false);
    ItemsText();
    Entries();
    CompactParts();
    Pieces(Opening(true, false), Lead(true, false, 1, Ascii("a")), Ascii("[true,null]"), Trail(true, false, false),
           Lead(true, false, 1, Ascii("b")), Ascii("\"h\\n\""), Trail(true, false, true), Closing(true, false, 0));
    hide *;
  }

  /** The same formatted. */
  lemma {:induction false} FormattedExample()
    ensures Render(Example(), true, 0)
            == Ascii("{\n\t\"a\":\t") + (Ascii("[true, null]") + (Ascii(",\n\t\"b\":\t") + (Ascii("\"h\\n\"") + Ascii("\n}"))))
  {
    ExampleParts(true);
    ItemsText();
    Entries();
    FormattedParts();
    Pieces(Opening(true, true), Lead(true, true, 1, Ascii("a")), Ascii("[true, null]"), Trail(true, true, false),
           Lead(true, true, 1, Ascii("b")), Ascii("\"h\\n\""), Trail(true, true, true), Closing(true, true, 0));
    hide *;
  }

  lemma {:induction false} CompactParts()
    ensures Opening(true, false) + Lead(true, false, 1, Ascii("a")) == Ascii("{\"a\":")
    ensures Trail(true, false, false) + Lead(true, false, 1, Ascii("b")) == Ascii(",\"b\":")
    ensures Trail(true, false, true) + Closing(true, false, 0) == Ascii("}")
  {
    hide Quoted;
    Entries();
  }

  lemma {:induction false} FormattedParts()
    ensures Opening(true, true) + Lead(true, true, 1, Ascii("a")) == Ascii("{\n\t\"a\":\t")
    ensures Trail(true, true, false) + Lead(true, true, 1, Ascii("b")) == Ascii(",\n\t\"b\":\t")
    ensures Trail(true, true, true) + Closing(true, true, 0) == Ascii("\n}")
  {
    hide Quoted;
    Entries();
    assert Tabs(1) == [TAB] && Tabs(0) == [];
  }
}
