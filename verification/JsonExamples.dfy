/** The tokens of JSON in ASCII, and the example of the library's header. */
module JsonExamples {
  import opened Bytes
  import opened JsonScan
  import opened JsonCollection
  import opened JsonGrammar
  import opened JsonDocument
  import opened JsonSearch

  lemma {:induction false} Three(a: Byte, b: Byte, c: Byte)
    requires ValidItem(Char(a)) && ValidItem(Char(b)) && ValidItem(Char(c)) && a < 128 && b < 128 && c < 128
    ensures var items := [Char(a), Char(b), Char(c)];
            ValidItems(items) && ItemsText(items) == [a, b, c] && StringText(items) == [QUOTE, a, b, c, QUOTE]
  {
    var items := [Char(a), Char(b), Char(c)];
    assert items[1..] == [Char(b), Char(c)] && items[1..][1..] == [Char(c)] && items[1..][1..][1..] == [];
    assert ItemsText([Char(c)]) == [c];
    assert ItemsText(items[1..]) == [b] + [c];
  }

  function Word(s: string): seq<StringItem>
    requires |s| == 3
  {
    [Char(s[0] as int), Char(s[1] as int), Char(s[2] as int)]
  }

  function Entry(key: string, v: Value): Member
    requires |key| == 3
  {
    Member([], Named(Word(key), [], []), v, [])
  }

  function Inner(): Value { Nest('{' as int, Last(Entry("foo", Leaf(Text(Word("xyz"))))), '}' as int) }

  function Example(): Value {
    Nest('{' as int, More(Entry("foo", Leaf(Text(Word("abc")))), true, Last(Entry("bar", Inner()))), '}' as int)
  }

  lemma {:induction false} EntryText(key: string, v: Value, levels: nat)
    requires |key| == 3 && ValidValue(v, levels) && (v.Nest? ==> IsPair(v.open, v.close))
    requires forall c <- key :: 'a' <= c <= 'z'
    ensures ValidMember(Entry(key, v), CURLY_OPEN, levels)
    ensures MemberText(Entry(key, v), CURLY_OPEN, levels)
            == ['"' as int, key[0] as int, key[1] as int, key[2] as int, '"' as int, ':' as int] + ValueText(v, levels)
    ensures |NameText(Entry(key, v).name)| == 6 && ItemsText(Word(key)) == [key[0] as int, key[1] as int, key[2] as int]
  {
    assert key[0] in key && key[1] in key && key[2] in key;
    Three(key[0] as int, key[1] as int, key[2] as int);
    hide ValueText;
  }

  lemma {:induction false} LeafText(s: string, levels: nat)
    requires |s| == 3 && forall c <- s :: 'a' <= c <= 'z'
    ensures var v := Leaf(Text(Word(s)));
            ValidValue(v, levels) && ValueText(v, levels) == ['"' as int, s[0] as int, s[1] as int, s[2] as int, '"' as int]
  {
    assert s[0] in s && s[1] in s && s[2] in s;
    Three(s[0] as int, s[1] as int, s[2] as int);
  }

  lemma {:induction false} InnerText()
    ensures ValidValue(Inner(), 1) && ValueText(Inner(), 1) == Ascii("{\"foo\":\"xyz\"}")
  {
    hide MemberText, ValidMember;
    LeafText("xyz", 0);
    EntryText("foo", Leaf(Text(Word("xyz"))), 0);
  }

  /** The document of the example. */
  function Document(): string { "{" + ("\"foo\":\"abc\"" + ("," + ("\"bar\":" + ("{\"foo\":\"xyz\"}" + "}")))) }

  lemma {:induction false} DocumentBytes()
    ensures Ascii(Document())
            == Ascii("{") + (Ascii("\"foo\":\"abc\"") + (Ascii(",") + (Ascii("\"bar\":") + (Ascii("{\"foo\":\"xyz\"}") + Ascii("}")))))
  {
    hide Ascii;
    var s0 := "{\"foo\":\"xyz\"}" + "}";
    var s1 := "\"bar\":" + s0;
    var s2 := "," + s1;
    var s3 := "\"foo\":\"abc\"" + s2;
    AsciiConcat("{\"foo\":\"xyz\"}", "}");
    AsciiConcat("\"bar\":", s0);
    AsciiConcat(",", s1);
    AsciiConcat("\"foo\":\"abc\"", s2);
    AsciiConcat("{", s3);
  }

  lemma {:induction false} ExampleText()
    ensures ValidValue(Example(), 2) && ValueText(Example(), 2) == Ascii(Document())
  {
    hide MemberText, ValidMember, Ascii, Document;
    LeafText("abc", 1);
    InnerText();
    EntryText("foo", Leaf(Text(Word("abc"))), 1);
    EntryText("bar", Inner(), 1);
    var first, second := Entry("foo", Leaf(Text(Word("abc")))), Entry("bar", Inner());
    assert MemberText(first, CURLY_OPEN, 1) == Ascii("\"foo\":\"abc\"") by { FirstEntry(); }
    assert MemberText(second, CURLY_OPEN, 1) == Ascii("\"bar\":") + Ascii("{\"foo\":\"xyz\"}") by { SecondEntry(); }
    assert Ascii("{") == [CURLY_OPEN] && Ascii(",") == [COMMA] && Ascii("}") == [CURLY_CLOSE] by { Brackets(); }
    DocumentBytes();
    Regrouped(Ascii("{"), Ascii("\"foo\":\"abc\""), Ascii(","), Ascii("\"bar\":"), Ascii("{\"foo\":\"xyz\"}"), Ascii("}"));
  }

  lemma {:induction false} Brackets()
    ensures Ascii("{") == [CURLY_OPEN] && Ascii(",") == [COMMA] && Ascii("}") == [CURLY_CLOSE]
  {}

  lemma {:induction false} Regrouped(a: seq<Byte>, b: seq<Byte>, c: seq<Byte>, d: seq<Byte>, e: seq<Byte>, f: seq<Byte>)
    ensures a + ((b + (c + (d + e))) + f) == a + (b + (c + (d + (e + f))))
  {}

  lemma {:induction false} FirstEntry()
    ensures Ascii("\"foo\":\"abc\"")
            == ['"' as int, 'f' as int, 'o' as int, 'o' as int, '"' as int, ':' as int]
               + ['"' as int, 'a' as int, 'b' as int, 'c' as int, '"' as int]
  {}

  lemma {:induction false} SecondEntry()
    ensures Ascii("\"bar\":") == ['"' as int, 'b' as int, 'a' as int, 'r' as int, '"' as int, ':' as int]
  {}

  // ----- searching it

  lemma {:induction false} Keys()
    ensures Ascii("foo") == ['f' as int, 'o' as int, 'o' as int] && Ascii("bar") == ['b' as int, 'a' as int, 'r' as int]
    ensures Ascii("foo") != Ascii("bar")
  {}

  function Outer(): Place { Place(Example(), 2, 0) }

  lemma {:induction false} Selected()
    ensures ValidValue(Example(), 2) && ValidValue(Inner(), 1)
    ensures SelectIn(Outer(), ByKey(Ascii("foo"))) == Place(Leaf(Text(Word("abc"))), 1, 7)
    ensures SelectIn(Outer(), ByKey(Ascii("bar"))) == Place(Inner(), 1, 19)
    ensures SelectIn(Place(Inner(), 1, 19), ByKey(Ascii("foo"))) == Place(Leaf(Text(Word("xyz"))), 0, 26)
  {
    hide ValueText, MemberText, ItemsText, NameText, Ascii;
    LeafText("abc", 1);
    LeafText("xyz", 0);
    InnerText();
    EntryText("foo", Leaf(Text(Word("abc"))), 1);
    EntryText("bar", Inner(), 1);
    EntryText("foo", Leaf(Text(Word("xyz"))), 0);
    Keys();
  }

  lemma {:induction false} PathTexts()
    ensures ValidPath([Name(Ascii("foo"))]) && Render([Name(Ascii("foo"))]) == Ascii("foo")
    ensures ValidPath([Name(Ascii("bar")), Name(Ascii("foo"))])
    ensures Render([Name(Ascii("bar")), Name(Ascii("foo"))]) == Ascii("bar.foo")
  {
    assert [Name(Ascii("foo"))][1..] == [];
    var two := [Name(Ascii("bar")), Name(Ascii("foo"))];
    assert two[1..] == [Name(Ascii("foo"))];
    assert Render([Name(Ascii("foo"))]) == Ascii("foo");
    assert Ascii("bar.foo") == Ascii("bar") + ([DOT] + Ascii("foo"));
  }

  lemma {:induction false} ContentAt(s: string, levels: nat, from: nat)
    requires |s| == 3 && forall c <- s :: 'a' <= c <= 'z'
    ensures ValidValue(Leaf(Text(Word(s))), levels)
    ensures Content(Place(Leaf(Text(Word(s))), levels, from)) == Hit(from + 1, from + 4)
  {
    LeafText(s, levels);
    EntryText(s, Leaf(Text(Word(s))), levels);
    hide ValueText, ItemsText;
  }

  lemma {:induction false} ExampleDepth()
    ensures ValueDepth(Example()) == 2
  {}

  lemma {:induction false} LookedUp()
    ensures ValidValue(Example(), 2)
    ensures Lookup(Outer(), Step(ByKey(Ascii("foo")), Done)) == Answer(Place(Leaf(Text(Word("abc"))), 1, 7))
    ensures Lookup(Outer(), Step(ByKey(Ascii("bar")), Step(ByKey(Ascii("foo")), Done)))
            == Answer(Place(Leaf(Text(Word("xyz"))), 0, 26))
  {
    hide SelectIn, Ascii, Example, Inner, ValidValue;
    Selected();
  }

  lemma {:induction false} Queries()
    ensures var foo, bar := Name(Ascii("foo")), Name(Ascii("bar"));
            && ValidPath([foo]) && QueryOf([foo]) == Step(ByKey(foo.key), Done)
            && ValidPath([bar, foo]) && QueryOf([bar, foo]) == Step(ByKey(bar.key), Step(ByKey(foo.key), Done))
  {
    PathTexts();
    hide ValidPath, Ascii;
    assert [Name(Ascii("bar")), Name(Ascii("foo"))][1..] == [Name(Ascii("foo"))];
  }

  /** The key "foo" is found at the outer level, and "bar.foo" in the inner object. */
  lemma {:induction false} ExampleFound()
    ensures SearchReply(Ascii(Document()), Ascii("foo")) == Hit(8, 11)
    ensures SearchReply(Ascii(Document()), Ascii("bar.foo")) == Hit(27, 30)
  {
    hide ValueText, SearchReply, Lookup, Render, Ascii, Document, ItemsText, Example, ValidPath, Content, QueryOf, Word;
    LookedUp();
    ExampleText();
    ExampleDepth();
    PathTexts();
    Queries();
    ContentAt("abc", 1, 7);
    ContentAt("xyz", 0, 26);
    var b := Ascii(Document());
    assert [] + (b + []) == b;
    PathSearch([], Example(), 2, [], [Name(Ascii("foo"))]);
    PathSearch([], Example(), 2, [], [Name(Ascii("bar")), Name(Ascii("foo"))]);
  }

  // ----- tokens

  /** The bytes that mean something in JSON, as ASCII. */
  lemma {:induction false} Tokens(c: char)
    requires c as int < 128
    ensures var x := c as int;
            && (IsSpace(x) <==> c in " \t\n\r") && (IsDigit(x) <==> c in "0123456789")
            && (IsShortEscape(x) <==> c in "\"\\/bfnrt") && (HexValue(x) < 16 <==> c in "0123456789abcdefABCDEF")
            && (IsOpen(x) <==> c in "[{") && (IsClose(x) <==> c in "]}") && (IsControl(x) <==> x < 0x20)
            && (x == COMMA <==> c == ',') && (x == COLON <==> c == ':') && (x == QUOTE <==> c == '"')
            && (x == BACKSLASH <==> c == '\\') && (x == DOT <==> c == '.') && (x == MINUS <==> c == '-')
            && (x == PLUS <==> c == '+') && (x == LETTER_U <==> c == 'u')
    ensures TRUE == Ascii("true") && FALSE == Ascii("false") && NULL == Ascii("null")
    ensures IsPair('[' as int, ']' as int) && IsPair('{' as int, '}' as int)
    ensures !IsPair('[' as int, '}' as int) && !IsPair('{' as int, ']' as int)
  {}

  /** The number that UTF-8 bytes make up: the low bits of the first and six bits of each of the others. */
  function Utf8Digits(s: seq<Byte>): nat
    requires 1 <= |s| <= 4
  {
    match |s|
    case 1 => s[0]
    case 2 => 64 * (s[0] % 32) as int + (s[1] % 64) as int
    case 3 => 64 * (64 * (s[0] % 16) as int + (s[1] % 64) as int) + (s[2] % 64) as int
    case _ => 64 * (64 * (64 * (s[0] % 8) as int + (s[1] % 64) as int) + (s[2] % 64) as int) + (s[3] % 64) as int
  }

  /** The table of section 3 of RFC 3629: how many bytes, their leading bits, and the digits in them. */
  lemma {:induction false} Utf8Layout(p: nat)
    requires p <= 0x10_FFFF
    ensures var s := Utf8(p);
            && |s| == (if p < 0x80 then 1 else if p < 0x800 then 2 else if p < 0x1_0000 then 3 else 4)
            && (forall k :: 0 < k < |s| ==> 0x80 <= s[k] < 0xC0)
            && (|s| == 2 ==> 0xC0 <= s[0] < 0xE0) && (|s| == 3 ==> 0xE0 <= s[0] < 0xF0) && (|s| == 4 ==> 0xF0 <= s[0] < 0xF8)
            && Utf8Digits(s) == p
  {
    if p < 0x80 {
    } else if p < 0x800 {
      TwoByteLayout(p);
    } else if p < 0x1_0000 {
      ThreeByteLayout(p);
    } else {
      FourByteLayout(p);
    }
    hide Utf8Digits;
  }

  lemma {:induction false} TwoByteLayout(p: nat)
    requires 0x80 <= p < 0x800
    ensures var s := Utf8(p); |s| == 2 && 0xC0 <= s[0] < 0xE0 && 0x80 <= s[1] < 0xC0 && Utf8Digits(s) == p
  {
    SixBits(p);
    LeadByte(p / 64);
  }

  lemma {:induction false} ThreeByteLayout(p: nat)
    requires 0x800 <= p < 0x1_0000
    ensures var s := Utf8(p);
            && |s| == 3 && 0xE0 <= s[0] < 0xF0 && 0x80 <= s[1] < 0xC0 && 0x80 <= s[2] < 0xC0 && Utf8Digits(s) == p
  {
    SixBits(p);
    SixBits(p / 64);
    LeadByte(p / 4096);
  }

  lemma {:induction false} FourByteLayout(p: nat)
    requires 0x1_0000 <= p <= 0x10_FFFF
    ensures var s := Utf8(p);
            && |s| == 4 && 0xF0 <= s[0] < 0xF8 && 0x80 <= s[1] < 0xC0 && 0x80 <= s[2] < 0xC0 && 0x80 <= s[3] < 0xC0
            && Utf8Digits(s) == p
  {
    SixBits(p);
    SixBits(p / 64);
    SixBits(p / 4096);
    LeadByte(p / 262144);
  }

  lemma {:induction false} SixBits(p: nat)
    ensures p == 64 * (p / 64) + p % 64 && p / 64 / 64 == p / 4096 && p / 4096 / 64 == p / 262144
    ensures p % 64 < 64 && (0x80 + p % 64) % 64 == p % 64
  {}

  lemma {:induction false} LeadByte(q: nat)
    ensures q < 32 ==> (0xC0 + q) % 32 == q
    ensures q < 16 ==> (0xE0 + q) % 16 == q
    ensures q < 8 ==> (0xF0 + q) % 8 == q
  {}
}
