/** Every JSON text is parsed: the trees of ECMA-404, with any white space and any spelling of strings and numbers,
    and the trees of cJSON they stand for. */
module CJsonDocuments {
  import opened Bytes
  import opened JsonScan
  import G = JsonGrammar
  import D = JsonDocument
  import opened CJsonTree
  import opened CJsonParse
  import opened CJsonStrings
  import opened CJsonRoundTrip

  // ----- the tree that a document stands for

  /** The character that an item of a string spells. */
  function CharacterOf(item: G.StringItem): Character
    requires G.ValidItem(item) && !item.Control?
  {
    match item
    case Char(p) => Character(p, AsUtf8)
    case Short(letter) =>
      Character(if letter == 'b' as int then 8 else if letter == 'f' as int then 12 else if letter == 'n' as int then 10
                else if letter == 'r' as int then 13 else if letter == 't' as int then 9 else letter, AsLetter)
    case Unicode(d) => Character(G.Hex(d), AsUnits([d]))
    case Surrogates(h, l) => Character(0x1_0000 + (G.Hex(h) - 0xD800) * 0x400 + (G.Hex(l) - 0xDC00), AsUnits([h, l]))
  }

  predicate StrictItems(items: seq<G.StringItem>) { G.ValidItems(items) && G.StrictItems(items) }

  function CharactersOf(items: seq<G.StringItem>): (s: seq<Character>)
    requires StrictItems(items)
    ensures |s| == |items| && forall k :: 0 <= k < |s| ==> s[k] == CharacterOf(items[k])
  {
    seq(|items|, k requires 0 <= k < |items| => CharacterOf(items[k]))
  }

  /** The content of a string: the UTF-8 encoding of its code points. */
  function ContentOf(items: seq<G.StringItem>): seq<Byte>
    requires StrictItems(items)
  {
    if items == [] then [] else G.Utf8(CharacterOf(items[0]).point) + ContentOf(items[1..])
  }

  function TreeOf(v: D.Value, levels: nat): Json
    requires D.ValidValue(v, levels) && D.StrictValue(v)
    decreases v
  {
    match v
    case Leaf(s) =>
      (match s
       case Text(items) => Text(ContentOf(items))
       case Number(_, _, _, _) => Number(G.ScalarText(s))
       case True => True
       case False => False
       case Null => Null)
    case Nest(open, body, _) => Container(open == CURLY_OPEN, ChildrenOf(body, open, levels - 1))
  }

  function ChildrenOf(body: D.Body, open: Byte, levels: nat): (c: Children)
    requires D.ValidBody(body, open, levels) && D.StrictBody(body, open)
    ensures c.NoChild? <==> body.Blank?
    decreases body
  {
    match body
    case Blank(_) => NoChild
    case Last(m) => Child(NameOf(m, open, levels), MemberOf(m, open, levels), NoChild)
    case More(m, _, rest) => Child(NameOf(m, open, levels), MemberOf(m, open, levels), ChildrenOf(rest, open, levels))
  }

  function MemberOf(m: D.Member, open: Byte, levels: nat): Json
    requires D.ValidMember(m, open, levels) && D.StrictMember(m, open)
    decreases m
  {
    TreeOf(m.value, levels)
  }

  /** The key of a member; nothing in an array. */
  function NameOf(m: D.Member, open: Byte, levels: nat): seq<Byte>
    requires D.ValidMember(m, open, levels) && D.StrictMember(m, open)
  {
    if m.name.Named? then ContentOf(m.name.key) else []
  }

  /** No number is longer than the 63 bytes that are converted. */
  predicate ShortNumbers(v: D.Value, levels: nat)
    requires D.ValidValue(v, levels)
    decreases v
  {
    match v
    case Leaf(s) => s.Number? ==> |G.ScalarText(s)| <= 63
    case Nest(open, body, _) => ShortBody(body, open, levels - 1)
  }

  predicate ShortBody(body: D.Body, open: Byte, levels: nat)
    requires D.ValidBody(body, open, levels)
    decreases body
  {
    match body
    case Blank(_) => true
    case Last(m) => ShortMember(m, open, levels)
    case More(m, _, rest) => ShortMember(m, open, levels) && ShortBody(rest, open, levels)
  }

  predicate ShortMember(m: D.Member, open: Byte, levels: nat)
    requires D.ValidMember(m, open, levels)
    decreases m
  {
    ShortNumbers(m.value, levels)
  }

  // ----- strings

  lemma {:induction false} DigitsSpelled(d: seq<Byte>)
    requires G.IsHex(d)
    ensures Spells(d, G.Hex(d)) && G.Hex(d) < 0x1_0000
  {
    hide HexValue, IsDigitOf;
    assert d[0] in d && d[1] in d && d[2] in d && d[3] in d;
    DigitSpelled(d[0]);
    DigitSpelled(d[1]);
    DigitSpelled(d[2]);
    DigitSpelled(d[3]);
    FourDigits(HexValue(d[0]), HexValue(d[1]), HexValue(d[2]), HexValue(d[3]));
  }

  lemma {:induction false} PairUnits(h: nat, l: nat)
    requires 0xD800 <= h <= 0xDBFF && 0xDC00 <= l <= 0xDFFF
    ensures var p := 0x1_0000 + (h - 0xD800) * 0x400 + (l - 0xDC00); p <= 0x10_FFFF && Utf16(p) == [h, l]
  {}

  lemma {:induction false} ItemCharacter(item: G.StringItem)
    requires G.ValidItem(item) && !item.Control?
    ensures ValidCharacter(CharacterOf(item)) && CharacterText(CharacterOf(item)) == G.ItemText(item)
  {
    hide Spells, G.Hex;
    match item
    case Char(p) =>
    case Short(letter) =>
    case Unicode(d) =>
      DigitsSpelled(d);
    case Surrogates(h, l) =>
      DigitsSpelled(h);
      DigitsSpelled(l);
      PairUnits(G.Hex(h), G.Hex(l));
  }

  lemma {:induction false} ItemsCharacters(items: seq<G.StringItem>)
    requires StrictItems(items)
    ensures ValidCharacters(CharactersOf(items)) && CharactersText(CharactersOf(items)) == G.ItemsText(items)
    ensures Utf8All(CharactersOf(items)) == ContentOf(items)
    decreases |items|
  {
    hide CharacterOf, ValidCharacter, CharacterText, G.ItemText, G.ValidItem, G.Utf8;
    if items != [] {
      ItemCharacter(items[0]);
      ItemsCharacters(items[1..]);
      assert CharactersOf(items)[1..] == CharactersOf(items[1..]);
      forall k | 0 <= k < |items| ensures ValidCharacter(CharactersOf(items)[k]) { ItemCharacter(items[k]); }
    }
  }

  lemma {:induction false} StringRead(t: seq<Byte>, i: nat, items: seq<G.StringItem>)
    requires StrictItems(items) && At(t, i, G.StringText(items))
    ensures StringAt(t, i) == Parsed(ContentOf(items), i + |G.StringText(items)|)
    ensures i < |t| && t[i] == QUOTE
  {
    hide At, StringAt, G.ItemsText, CharactersText, ContentOf;
    ItemsCharacters(items);
    AtByte(t, i, G.StringText(items), 0);
    SpelledStringParsed(t, i, CharactersOf(items));
  }

  // ----- numbers

  lemma {:induction false} DigitChars(s: seq<Byte>)
    requires G.AllDigits(s)
    ensures forall c <- s :: IsNumberChar(c)
  {}

  lemma {:induction false} TailChars(fraction: seq<Byte>, e: G.Exponent)
    requires G.AllDigits(fraction) && G.ValidExponent(e)
    ensures forall c <- G.NumberTail(fraction, e) :: IsNumberChar(c)
  {
    DigitChars(fraction);
    if e.Exponent? { DigitChars(e.digits); }
  }

  lemma {:induction false} NumberChars(s: G.Scalar)
    requires s.Number? && G.ValidScalar(s)
    ensures forall c <- G.ScalarText(s) :: IsNumberChar(c)
  {
    hide G.NumberTail;
    TailChars(s.fraction, s.exponent);
    DigitChars(s.whole);
  }

  lemma {:induction false} TailConverted(t: seq<Byte>, i: nat, fraction: seq<Byte>, e: G.Exponent)
    requires G.AllDigits(fraction) && G.ValidExponent(e) && At(t, i, G.NumberTail(fraction, e))
    requires i + |G.NumberTail(fraction, e)| == |t|
    ensures var m := if i < |t| && t[i] == DOT then DigitsEnd(t, i + 1) else i;
            ExponentEnd(t, m) == |t|
  {
    hide DigitsEnd, ExponentEnd;
    var f := G.FractionText(fraction);
    AtConcat(t, i, f, G.ExponentText(e));
    var k := i + |f|;
    if e.Exponent? { AtByte(t, k, G.ExponentText(e), 0); }
    if f != [] { AtByte(t, i, f, 0); }
    if fraction != [] {
      AtConcat(t, i, [DOT], fraction);
      G.DigitsText(t, i + 1, fraction);
    }
    G.ExponentScan(t, k, e);
  }

  /** The whole text of a number is converted. */
  lemma {:induction false} NumberConverted(s: G.Scalar)
    requires s.Number? && G.ValidScalar(s)
    ensures StrtodLength(G.ScalarText(s)) == |G.ScalarText(s)|
  {
    hide At, DigitsEnd, G.AllDigits, G.NumberTail, ExponentEnd, G.ValidExponent;
    var t, tail := G.ScalarText(s), G.NumberTail(s.fraction, s.exponent);
    D.AtWhole(t);
    if s.negative {
      AtConcat(t, 0, [MINUS], s.whole + tail);
      AtByte(t, 0, [MINUS], 0);
    }
    var k := if s.negative then 1 else 0;
    AtConcat(t, k, s.whole, tail);
    D.AtWhole(t);
    NothingBehind(t);
    G.NumberTailScan(t, k + |s.whole|, s.fraction, s.exponent);
    G.WholeScan(t, k, s.whole, tail);
    G.DigitsText(t, k, s.whole);
    TailConverted(t, k + |s.whole|, s.fraction, s.exponent);
  }

  lemma {:induction false} NothingBehind(t: seq<Byte>)
    ensures G.Delimited(t, |t|)
  {}

  lemma {:induction false} NumberFirst(s: G.Scalar)
    requires s.Number? && G.ValidScalar(s)
    ensures G.ScalarText(s)[0] == MINUS || IsDigit(G.ScalarText(s)[0])
  {
    if !s.negative { assert s.whole[0] in s.whole; }
  }

  lemma {:induction false} NumberRead(t: seq<Byte>, i: nat, s: G.Scalar)
    requires s.Number? && G.ValidScalar(s) && At(t, i, G.ScalarText(s)) && |G.ScalarText(s)| <= 63
    requires NumberEnds(t, i + |G.ScalarText(s)|)
    ensures NumberAt(t, i) == Parsed(Number(G.ScalarText(s)), i + |G.ScalarText(s)|)
    ensures t[i] == MINUS || IsDigit(t[i])
  {
    hide *;
    var n := G.ScalarText(s);
    NumberFirst(s);
    NumberChars(s);
    NumberConverted(s);
    RunFound(t, i, n, 63);
    AtByte(t, i, n, 0);
    TokenRead(t, i, n);
  }

  lemma {:induction false} TokenRead(t: seq<Byte>, i: nat, n: seq<Byte>)
    requires At(t, i, n) && n != [] && NumberRun(t, i, 63) == i + |n| && StrtodLength(n) == |n|
    ensures NumberAt(t, i) == Parsed(Number(n), i + |n|)
  {
    hide StrtodLength, NumberRun;
    assert n[..|n|] == n;
  }

  // ----- between values

  lemma {:induction false} SpaceIsBlank(s: seq<Byte>)
    requires G.AllSpace(s)
    ensures IsBlank(s)
  {}

  lemma {:induction false} SpaceSkipped(t: seq<Byte>, i: nat, s: seq<Byte>)
    requires At(t, i, s) && G.AllSpace(s) && i + |s| < |t| && t[i + |s|] > SPACE
    ensures SkipWhitespace(t, i) == i + |s|
  {
    SpaceIsBlank(s);
    BlankSkipped(t, i, s);
  }

  lemma {:induction false} ScalarVisible(t: seq<Byte>, i: nat, s: G.Scalar)
    requires G.ValidScalar(s) && At(t, i, G.ScalarText(s))
    ensures i < |t| && t[i] > SPACE && t[i] != CURLY_CLOSE && t[i] != SQUARE_CLOSE && t[i] != 0xEF
    ensures s.Text? || s.Number? ==> t[i] != 110 && t[i] != 102 && t[i] != 116
  {
    hide G.ItemsText, G.NumberTail;
    AtByte(t, i, G.ScalarText(s), 0);
    if s.Number? { assert s.whole[0] in s.whole; }
  }

  lemma {:induction false} ValueVisible(t: seq<Byte>, i: nat, v: D.Value, levels: nat)
    requires D.ValidValue(v, levels) && At(t, i, D.ValueText(v, levels))
    ensures i < |t| && t[i] > SPACE && t[i] != CURLY_CLOSE && t[i] != SQUARE_CLOSE && t[i] != 0xEF
    ensures v.Nest? ==> t[i] == v.open
  {
    match v
    case Leaf(s) => ScalarVisible(t, i, s);
    case Nest(_, _, _) => AtByte(t, i, D.ValueText(v, levels), 0);
  }

  lemma {:induction false} SpaceEnds(t: seq<Byte>, i: nat, s: seq<Byte>, c: Byte)
    requires At(t, i, s + [c]) && G.AllSpace(s) && c > SPACE && !IsNumberChar(c)
    ensures NumberEnds(t, i) && i + |s| < |t| && t[i + |s|] == c && SkipWhitespace(t, i) == i + |s|
  {
    AtConcat(t, i, s, [c]);
    AtByte(t, i + |s|, [c], 0);
    SpaceSkipped(t, i, s);
    if s != [] {
      AtByte(t, i, s, 0);
      assert s[0] in s;
    }
  }

  /** The name of a member, up to its value at k. */
  lemma {:induction false} NameRead(t: seq<Byte>, i: nat, j: nat, k: nat, m: D.Member, open: Byte, levels: nat)
    requires D.ValidMember(m, open, levels) && D.StrictMember(m, open) && IsOpen(open)
    requires i <= |t| && At(t, j, D.NameText(m.name)) && k == j + |D.NameText(m.name)|
    requires SkipWhitespace(t, i) == SkipWhitespace(t, j) && k < |t| && t[k] > SPACE
    ensures NameAt(t, i, open == CURLY_OPEN) == Parsed(NameOf(m, open, levels), k)
    ensures SkipWhitespace(t, i) == j && t[j] > SPACE
    ensures m.name.Named? ==> t[j] == QUOTE
  {
    hide At, D.ValidValue, D.StrictValue, StringAt, ContentOf, G.StringText, G.AllSpace;
    if m.name.Named? {
      NamedRead(t, i, j, k, m.name);
    }
  }

  lemma {:induction false} NamedRead(t: seq<Byte>, i: nat, j: nat, k: nat, name: D.Name)
    requires name.Named? && StrictItems(name.key) && G.AllSpace(name.beforeColon) && G.AllSpace(name.afterColon)
    requires i <= |t| && At(t, j, D.NameText(name)) && k == j + |D.NameText(name)|
    requires SkipWhitespace(t, i) == SkipWhitespace(t, j) && k < |t| && t[k] > SPACE
    ensures NameAt(t, i, true) == Parsed(ContentOf(name.key), k)
    ensures SkipWhitespace(t, i) == j && t[j] == QUOTE
  {
    hide At, StringAt, ContentOf, G.StringText, G.AllSpace;
    var s := G.StringText(name.key);
    AtConcat(t, j, s, name.beforeColon + ([COLON] + name.afterColon));
    StringRead(t, j, name.key);
    var e := j + |s|;
    AtConcat(t, e, name.beforeColon, [COLON] + name.afterColon);
    var c := e + |name.beforeColon|;
    AtConcat(t, c, [COLON], name.afterColon);
    AtByte(t, c, [COLON], 0);
    SpaceSkipped(t, e, name.beforeColon);
    SpaceSkipped(t, c + 1, name.afterColon);
  }

  // ----- values

  lemma {:induction false} LeafRead(t: seq<Byte>, i: nat, s: G.Scalar, levels: nat, depth: nat)
    requires G.ValidScalar(s) && G.StrictScalar(s) && At(t, i, G.ScalarText(s))
    requires NumberEnds(t, i + |G.ScalarText(s)|) && (s.Number? ==> |G.ScalarText(s)| <= 63)
    ensures ValueAt(t, i, depth) == Parsed(TreeOf(D.Leaf(s), levels), i + |G.ScalarText(s)|)
  {
    hide At, StringAt, NumberAt, ContentOf, NumberEnds;
    ScalarVisible(t, i, s);
    match s
    case Text(items) =>
      StringRead(t, i, items);
      NoLiteralAt(t, i);
    case Number(_, _, _, _) =>
      NumberRead(t, i, s);
      NoLiteralAt(t, i);
    case True => LiteralParsed(t, i, True, depth);
    case False => LiteralParsed(t, i, False, depth);
    case Null => LiteralParsed(t, i, Null, depth);
  }

  /** A value is read as its tree, or refused when it is nested too deep. */
  lemma {:induction false} ValueRead(t: seq<Byte>, i: nat, v: D.Value, levels: nat, depth: nat)
    requires D.ValidValue(v, levels) && D.StrictValue(v) && ShortNumbers(v, levels) && depth <= NESTING_LIMIT
    requires At(t, i, D.ValueText(v, levels)) && NumberEnds(t, i + |D.ValueText(v, levels)|)
    ensures ValueAt(t, i, depth) == Expected(depth + D.ValueDepth(v), TreeOf(v, levels), i + |D.ValueText(v, levels)|)
    decreases v, 3
  {
    hide At, NumberEnds, ValueAt;
    match v
    case Leaf(s) => LeafRead(t, i, s, levels, depth);
    case Nest(open, body, close) => NestRead(t, i, v, levels, depth);
  }

  /** Only white space between the brackets. */
  lemma {:induction false} BlankRead(t: seq<Byte>, i: nat, isObject: bool, space: seq<Byte>, depth: nat)
    requires G.AllSpace(space) && i + 1 <= |t| && At(t, i + 1, space + [CloseOf(isObject)]) && depth < NESTING_LIMIT
    ensures ContainerAt(t, i, depth, isObject) == Parsed(Container(isObject, NoChild), i + 1 + |space| + 1)
  {
    SpaceEnds(t, i + 1, space, CloseOf(isObject));
  }

  lemma {:induction false} ContainerStep(t: seq<Byte>, i: nat, depth: nat, isObject: bool)
    requires i < |t| && depth < NESTING_LIMIT
    requires var j := SkipWhitespace(t, i + 1); j < |t| && t[j] != CloseOf(isObject)
    ensures var r := ChildrenAt(t, SkipWhitespace(t, i + 1), depth + 1, isObject);
            ContainerAt(t, i, depth, isObject) == if r.Failed? then Failed else Parsed(Container(isObject, r.value), r.end)
  {
    hide ChildrenAt, SkipWhitespace;
  }

  lemma {:induction false} AtBracket(t: seq<Byte>, i: nat, depth: nat)
    requires i < |t| && (t[i] == SQUARE_OPEN || t[i] == CURLY_OPEN)
    ensures ValueAt(t, i, depth) == ContainerAt(t, i, depth, t[i] == CURLY_OPEN)
    ensures depth >= NESTING_LIMIT ==> ValueAt(t, i, depth) == Failed
  {
    NoLiteralAt(t, i);
    hide ChildrenAt, SkipWhitespace, LiteralEnd;
  }

  lemma {:induction false} NestRead(t: seq<Byte>, i: nat, v: D.Value, levels: nat, depth: nat)
    requires v.Nest? && D.ValidValue(v, levels) && D.StrictValue(v) && ShortNumbers(v, levels) && depth <= NESTING_LIMIT
    requires At(t, i, D.ValueText(v, levels))
    ensures ValueAt(t, i, depth) == Expected(depth + D.ValueDepth(v), TreeOf(v, levels), i + |D.ValueText(v, levels)|)
    decreases v, 2
  {
    hide At, ValueAt, ContainerAt, ChildrenAt, SkipWhitespace, D.BodyText, ShortBody;
    var open, body, close := v.open, v.body, v.close;
    ValueVisible(t, i, v, levels);
    AtConcat(t, i, [open], D.BodyText(body, open, levels - 1) + [close]);
    AtBracket(t, i, depth);
    var isObject := open == CURLY_OPEN;
    assert close == CloseOf(isObject);
    if depth < NESTING_LIMIT {
      if body.Blank? {
        assert D.BodyText(body, open, levels - 1) == body.space by { BlankBody(body, open, levels - 1); }
        BlankRead(t, i, isObject, body.space, depth);
      } else {
        FirstMember(t, i + 1, body, open, levels - 1, close);
        SkippedOnce(t, i + 1);
        BodyRead(t, SkipWhitespace(t, i + 1), i + 1, body, open, levels - 1, close, depth + 1);
        ContainerStep(t, i, depth, isObject);
      }
    }
  }

  lemma {:induction false} BlankBody(body: D.Body, open: Byte, levels: nat)
    requires body.Blank? && D.ValidBody(body, open, levels)
    ensures D.BodyText(body, open, levels) == body.space
  {}

  /** The text of a member stands at i, with c behind it. */
  predicate MemberAt(t: seq<Byte>, i: nat, m: D.Member, open: Byte, levels: nat, c: Byte)
    requires D.ValidMember(m, open, levels)
  {
    At(t, i, D.MemberText(m, open, levels)) && At(t, i + |D.MemberText(m, open, levels)|, [c])
  }

  /** The parts of a body that is not empty. */
  lemma {:induction false} BodyParts(t: seq<Byte>, i: nat, body: D.Body, open: Byte, levels: nat, close: Byte)
    requires !body.Blank? && D.ValidBody(body, open, levels) && D.StrictBody(body, open)
    requires At(t, i, D.BodyText(body, open, levels) + [close])
    ensures D.ValidMember(body.member, open, levels) && D.StrictMember(body.member, open)
    ensures MemberAt(t, i, body.member, open, levels, if body.Last? then close else COMMA)
    ensures var e := i + |D.MemberText(body.member, open, levels)|;
            if body.Last? then
              e == i + |D.BodyText(body, open, levels)|
            else
              && At(t, e + 1, D.BodyText(body.rest, open, levels) + [close])
              && e + 1 + |D.BodyText(body.rest, open, levels)| == i + |D.BodyText(body, open, levels)|
  {
    hide At, D.MemberText;
    var m := D.MemberText(body.member, open, levels);
    AtConcat(t, i, D.BodyText(body, open, levels), [close]);
    if body.More? {
      var rest := D.BodyText(body.rest, open, levels);
      AtConcat(t, i, m, [COMMA] + rest);
      AtConcat(t, i + |m|, [COMMA], rest);
      AtConcat(t, i + |m| + 1, rest, [close]);
    }
  }

  /** The parts of a member with what stands behind it. */
  lemma {:induction false} MemberRead(t: seq<Byte>, at: nat, i: nat, m: D.Member, open: Byte, levels: nat, c: Byte)
    requires D.ValidMember(m, open, levels) && D.StrictMember(m, open) && IsOpen(open) && c > SPACE && !IsNumberChar(c)
    requires at <= |t| && i <= |t| && SkipWhitespace(t, at) == SkipWhitespace(t, i)
    requires MemberAt(t, i, m, open, levels, c)
    ensures var j := i + |m.before|;
            var k := j + |D.NameText(m.name)|;
            var e := k + |D.ValueText(m.value, levels)|;
            && SkipWhitespace(t, at) == j < |t| && t[j] != CURLY_CLOSE && t[j] != SQUARE_CLOSE
            && NameAt(t, at, open == CURLY_OPEN) == Parsed(NameOf(m, open, levels), k)
            && At(t, k, D.ValueText(m.value, levels)) && NumberEnds(t, e) && e <= |t|
            && SkipWhitespace(t, e) == e + |m.after| == i + |D.MemberText(m, open, levels)| < |t|
            && t[e + |m.after|] == c
  {
    hide At, D.ValueText, D.NameText, D.StrictValue, D.ValidValue, G.AllSpace, NameAt, NumberEnds, SkipWhitespace, StrictItems;
    hide G.ValidItems, G.StrictItems;
    var v := D.ValueText(m.value, levels);
    AtConcat(t, i, m.before, D.NameText(m.name) + (v + m.after));
    var j := i + |m.before|;
    AtConcat(t, j, D.NameText(m.name), v + m.after);
    var k := j + |D.NameText(m.name)|;
    AtConcat(t, k, v, m.after);
    var e := k + |v|;
    AtConcat(t, e, m.after, [c]);
    SpaceEnds(t, e, m.after, c);
    ValueVisible(t, k, m.value, levels);
    SpaceIsBlank(m.before);
    BlankSkipped(t, i, m.before);
    NameRead(t, at, j, k, m, open, levels);
    if m.name.Unnamed? { D.NameStart(t, j, m.name); }
  }

  lemma {:induction false} FirstMember(t: seq<Byte>, i: nat, body: D.Body, open: Byte, levels: nat, close: Byte)
    requires !body.Blank? && D.ValidBody(body, open, levels) && D.StrictBody(body, open) && IsOpen(open)
    requires IsClose(close) && At(t, i, D.BodyText(body, open, levels) + [close])
    ensures i <= |t| && SkipWhitespace(t, i) < |t|
    ensures t[SkipWhitespace(t, i)] != CURLY_CLOSE && t[SkipWhitespace(t, i)] != SQUARE_CLOSE
  {
    hide MemberAt, D.BodyText, D.MemberText, D.StrictMember, D.ValidMember, SkipWhitespace, NameAt, NumberEnds, At, NameOf;
    BodyParts(t, i, body, open, levels, close);
    MemberRead(t, i, i, body.member, open, levels, if body.Last? then close else COMMA);
  }

  lemma {:induction false} MemberValue(t: seq<Byte>, k: nat, m: D.Member, open: Byte, levels: nat, depth: nat)
    requires D.ValidMember(m, open, levels) && D.StrictMember(m, open) && ShortMember(m, open, levels) && depth <= NESTING_LIMIT
    requires At(t, k, D.ValueText(m.value, levels)) && NumberEnds(t, k + |D.ValueText(m.value, levels)|)
    ensures ValueAt(t, k, depth)
            == Expected(depth + D.ValueDepth(m.value), MemberOf(m, open, levels), k + |D.ValueText(m.value, levels)|)
    decreases m, 0
  {
    ValueRead(t, k, m.value, levels, depth);
    hide *;
  }

  /** One turn of the loop over the members. */
  lemma {:induction false} MemberTurn(t: seq<Byte>, at: nat, i: nat, m: D.Member, open: Byte, levels: nat, c: Byte, depth: nat)
    requires D.ValidMember(m, open, levels) && D.StrictMember(m, open) && ShortMember(m, open, levels)
    requires IsOpen(open) && (c == COMMA || c == CloseOf(open == CURLY_OPEN)) && depth <= NESTING_LIMIT
    requires at <= |t| && i <= |t| && SkipWhitespace(t, at) == SkipWhitespace(t, i) && MemberAt(t, i, m, open, levels, c)
    ensures var e, isObject := i + |D.MemberText(m, open, levels)|, open == CURLY_OPEN;
            && e < |t|
            && (depth + D.ValueDepth(m.value) > NESTING_LIMIT ==> ChildrenAt(t, at, depth, isObject) == Failed)
            && (depth + D.ValueDepth(m.value) <= NESTING_LIMIT ==>
                  ChildrenAt(t, at, depth, isObject)
                  == if c == COMMA then
                       var rest := ChildrenAt(t, e + 1, depth, isObject);
                       if rest.Failed? then Failed
                       else Parsed(Child(NameOf(m, open, levels), MemberOf(m, open, levels), rest.value), rest.end)
                     else Parsed(Child(NameOf(m, open, levels), MemberOf(m, open, levels), NoChild), e + 1))
    decreases m, 1
  {
    hide At, MemberAt, D.MemberText, D.ValueText, D.NameText, SkipWhitespace, NameAt, ValueAt, ChildrenAt, NumberEnds;
    hide TreeOf, NameOf, ShortMember, MemberOf, D.ValidValue, D.StrictValue, D.ValueDepth;
    MemberRead(t, at, i, m, open, levels, c);
    var k := i + |m.before| + |D.NameText(m.name)|;
    var e := k + |D.ValueText(m.value, levels)|;
    MemberValue(t, k, m, open, levels, depth);
    ChildrenStep(t, at, depth, open == CURLY_OPEN, NameOf(m, open, levels), k, MemberOf(m, open, levels), e, e + |m.after|);
  }

  /** The members from i on; the parser may stand in front of the white space there or behind it. */
  lemma {:induction false} BodyRead(t: seq<Byte>, at: nat, i: nat, body: D.Body, open: Byte, levels: nat, close: Byte, depth: nat)
    requires !body.Blank? && D.ValidBody(body, open, levels) && D.StrictBody(body, open) && ShortBody(body, open, levels)
    requires IsOpen(open) && close == CloseOf(open == CURLY_OPEN) && depth <= NESTING_LIMIT
    requires At(t, i, D.BodyText(body, open, levels) + [close])
    requires at <= |t| && i <= |t| && SkipWhitespace(t, at) == SkipWhitespace(t, i)
    ensures ChildrenAt(t, at, depth, open == CURLY_OPEN)
            == Expected(depth + D.BodyDepth(body), ChildrenOf(body, open, levels), i + |D.BodyText(body, open, levels)| + 1)
    decreases body, 1
  {
    hide At, MemberAt, D.BodyText, D.MemberText, D.StrictMember, SkipWhitespace, ChildrenAt, NameOf, D.ValidMember, ShortMember;
    hide MemberOf;
    BodyParts(t, i, body, open, levels, close);
    MemberTurn(t, at, i, body.member, open, levels, if body.Last? then close else COMMA, depth);
    if body.More? {
      var e := i + |D.MemberText(body.member, open, levels)|;
      BodyRead(t, e + 1, e + 1, body.rest, open, levels, close, depth);
    }
  }

  function Mark(bom: bool): seq<Byte> { if bom then [0xEF, 0xBB, 0xBF] else [] }

  /** Every text of a document of ECMA-404 whose numbers have at most 63 bytes, with a byte order mark in front or
      not, is parsed to the tree that the document stands for when it is nested at most 1000 deep, and refused
      otherwise. Nothing but white space is left behind it. */
  lemma {:induction false} DocumentRead(bom: bool, before: seq<Byte>, v: D.Value, levels: nat, after: seq<Byte>)
    requires G.AllSpace(before) && G.AllSpace(after) && D.ValidValue(v, levels) && D.StrictValue(v) && ShortNumbers(v, levels)
    ensures var t := Mark(bom) + (before + (D.ValueText(v, levels) + after));
            var end := |Mark(bom)| + |before| + |D.ValueText(v, levels)|;
            && Document(t) == (if D.ValueDepth(v) <= 1000 then Parsed(TreeOf(v, levels), end) else Failed)
            && SkipWhitespace(t, end) == |t|
  {
    hide At, D.ValueText, TreeOf, ValueAt, ShortNumbers, D.StrictValue, SkipWhitespace, Mark;
    var value, mark := D.ValueText(v, levels), Mark(bom);
    var t, j := mark + (before + (value + after)), |mark|;
    var i := j + |before|;
    D.AtWhole(t);
    AtConcat(t, 0, mark, before + (value + after));
    AtConcat(t, j, before, value + after);
    AtConcat(t, i, value, after);
    ValueVisible(t, i, v, levels);
    SpaceSkipped(t, j, before);
    EndsBefore(t, i + |value|, after);
    MarkSkipped(t, bom, before);
    ValueRead(t, i, v, levels, 0);
  }

  lemma {:induction false} EndsBefore(t: seq<Byte>, i: nat, after: seq<Byte>)
    requires At(t, i, after) && G.AllSpace(after) && i + |after| == |t|
    ensures NumberEnds(t, i) && SkipWhitespace(t, i) == |t|
  {
    if after != [] {
      AtByte(t, i, after, 0);
      assert after[0] in after;
    }
    SpaceIsBlank(after);
    BlankSkipped(t, i, after);
  }

  lemma {:induction false} MarkSkipped(t: seq<Byte>, bom: bool, before: seq<Byte>)
    requires At(t, 0, Mark(bom)) && At(t, |Mark(bom)|, before) && G.AllSpace(before)
    requires |Mark(bom)| + |before| < |t| && t[|Mark(bom)| + |before|] != 0xEF
    ensures SkipBom(t) == |Mark(bom)|
  {
    if bom {
      assert t[..3] == t[0..3];
    } else {
      if before != [] {
        AtByte(t, 0, before, 0);
        assert before[0] in before;
      }
      assert |t| >= 4 ==> t[..3][0] == t[0];
    }
  }

  // ----- what is refused

  /** Every array and object that is accepted ends with its own closing bracket. */
  lemma {:induction false} ChildrenClosed(t: seq<Byte>, i: nat, depth: nat, isObject: bool)
    requires i <= |t| && ChildrenAt(t, i, depth, isObject).Parsed?
    ensures t[ChildrenAt(t, i, depth, isObject).end - 1] == CloseOf(isObject)
    decreases |t| - i
  {
    hide NameAt, ValueAt, SkipWhitespace;
    var k := SkipWhitespace(t, ValueAt(t, NameAt(t, i, isObject).end, depth).end);
    if t[k] == COMMA { ChildrenClosed(t, k + 1, depth, isObject); }
  }

  lemma {:induction false} ValueClosed(t: seq<Byte>, i: nat, depth: nat)
    requires i < |t| && ValueAt(t, i, depth).Parsed?
    ensures var r := ValueAt(t, i, depth);
            && (r.value.Container? <==> t[i] == SQUARE_OPEN || t[i] == CURLY_OPEN)
            && (r.value.Container? ==>
                  r.value.isObject == (t[i] == CURLY_OPEN) && t[r.end - 1] == if t[i] == CURLY_OPEN then CURLY_CLOSE else SQUARE_CLOSE)
            && (r.value.Text? <==> t[i] == QUOTE) && (r.value.Text? ==> i + 2 <= r.end && t[r.end - 1] == QUOTE)
  {
    if t[i] == SQUARE_OPEN || t[i] == CURLY_OPEN {
      AtBracket(t, i, depth);
      hide ValueAt, ContainerAt;
      ContainerClosed(t, i, depth, t[i] == CURLY_OPEN);
    } else {
      StringClosed(t, i);
      NumberNumber(t, i);
      LiteralStarts(t, i);
      hide ContainerAt, StringAt, NumberAt, LiteralEnd;
    }
  }

  lemma {:induction false} ContainerClosed(t: seq<Byte>, i: nat, depth: nat, isObject: bool)
    requires i < |t| && ContainerAt(t, i, depth, isObject).Parsed?
    ensures var r := ContainerAt(t, i, depth, isObject);
            r.value.Container? && r.value.isObject == isObject && t[r.end - 1] == CloseOf(isObject)
  {
    hide SkipWhitespace, ChildrenAt;
    var j := SkipWhitespace(t, i + 1);
    if !(j < |t| && t[j] == CloseOf(isObject)) { ChildrenClosed(t, j, depth + 1, isObject); }
  }

  lemma {:induction false} StringClosed(t: seq<Byte>, i: nat)
    requires i < |t|
    ensures StringAt(t, i).Parsed? ==> t[i] == QUOTE && i + 2 <= StringAt(t, i).end && t[StringAt(t, i).end - 1] == QUOTE
  {
    hide Unescape;
  }

  lemma {:induction false} NumberNumber(t: seq<Byte>, i: nat)
    requires i <= |t|
    ensures NumberAt(t, i).Parsed? ==> NumberAt(t, i).value.Number?
  {
    hide StrtodLength, NumberRun;
  }

  lemma {:induction false} LiteralStarts(t: seq<Byte>, i: nat)
    requires i < |t|
    ensures LiteralEnd(t, i, NULL) > i || LiteralEnd(t, i, FALSE) > i || LiteralEnd(t, i, TRUE) > i ==>
              t[i] == 110 || t[i] == 102 || t[i] == 116
  {
    forall l: seq<Byte> | l != [] && i + |l| <= |t| && t[i..i + |l|] == l ensures l[0] == t[i] { AtByte(t, i, l, 0); }
  }

  lemma {:induction false} EmptyString(t: seq<Byte>, i: nat)
    requires i + 2 <= |t| && t[i] == t[i + 1] == QUOTE
    ensures StringAt(t, i) == Parsed([], i + 2) && forall depth :: ValueAt(t, i, depth) == Parsed(Text([]), i + 2)
  {
    assert StringClose(t, i + 1) == i + 1;
    NoLiteralAt(t, i);
  }

  lemma {:induction false} StartsDocument(t: seq<Byte>)
    requires t != [] && t[0] > SPACE && t[0] != 0xEF
    ensures Document(t) == ValueAt(t, 0, 0)
  {
    assert |t| >= 4 ==> t[..3][0] == t[0];
  }

  /** An array that a curly bracket closes, and arrays with a comma too many and one too few. */
  lemma {:induction false} ArraysRefused(t: seq<Byte>)
    requires t == Ascii("[\"\"}") || t == Ascii("[\"\",]") || t == Ascii("[\"\"\"\"]")
    ensures Document(t) == Failed
  {
    StartsDocument(t);
    AtBracket(t, 0, 0);
    EmptyString(t, 1);
    assert SkipWhitespace(t, 1) == 1 && SkipWhitespace(t, 3) == 3;
    if t[3] == COMMA {
      assert SkipWhitespace(t, 4) == 4;
      NoLiteralAt(t, 4);
      assert ValueAt(t, 4, 1) == Failed;
      assert ChildrenAt(t, 4, 1, false) == Failed;
    }
    assert ChildrenAt(t, 1, 1, false) == Failed;
  }

  /** Objects with a key alone, without a colon, and with a comma in its place. */
  lemma {:induction false} ObjectsRefused(t: seq<Byte>)
    requires t == Ascii("{\"\"}") || t == Ascii("{\"\"\"\"}") || t == Ascii("{\"\",\"\"}")
    ensures Document(t) == Failed
  {
    StartsDocument(t);
    AtBracket(t, 0, 0);
    EmptyString(t, 1);
    assert SkipWhitespace(t, 1) == 1 && SkipWhitespace(t, 3) == 3;
    assert NameAt(t, 1, true) == Failed;
    assert ChildrenAt(t, 1, 1, true) == Failed;
  }
}
