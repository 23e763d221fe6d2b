/** The parser's methods: an offset moved through a buffer, strings unescaped into allocated memory. */
module CJsonParser {
  import opened Bytes
  import opened Division
  import opened JsonScan
  import G = JsonGrammar
  import opened CJsonTree
  import opened CJsonParse

  // ----- the memory for a string

  /** The bytes from p to e without the backslashes: what the first pass counts. */
  function Room(t: seq<Byte>, p: nat, e: nat): nat
    requires e <= |t|
    decreases e - p
  {
    if p >= e then 0 else 1 + Room(t, if t[p] == BACKSLASH then p + 2 else p + 1, e)
  }

  lemma {:induction false} RoomShrinks(t: seq<Byte>, p: nat, q: nat, e: nat)
    requires p <= q && e <= |t|
    ensures Room(t, q, e) <= Room(t, p, e)
    decreases e - p, q
  {
    if p < e && p < q {
      if t[p] != BACKSLASH || p + 2 <= q {
        RoomShrinks(t, if t[p] == BACKSLASH then p + 2 else p + 1, q, e);
      } else if q < e {
        RoomShrinks(t, p + 2, if t[q] == BACKSLASH then q + 2 else q + 1, e);
      }
    }
  }

  lemma {:induction false} PlainRoom(t: seq<Byte>, p: nat, n: nat, e: nat)
    requires p + n <= e <= |t| && forall k :: p <= k < p + n ==> t[k] != BACKSLASH
    ensures Room(t, p, e) == n + Room(t, p + n, e)
    decreases n
  {
    if n > 0 { PlainRoom(t, p + 1, n - 1, e); }
  }

  lemma {:induction false} HexRoom(t: seq<Byte>, p: nat, e: nat)
    requires p + 6 <= e <= |t| && t[p] == BACKSLASH && Hex4(t, p + 2) != 0
    ensures Room(t, p, e) == 5 + Room(t, p + 6, e)
  {
    PlainRoom(t, p + 2, 4, e);
  }

  /** The bytes of an escape sequence fit into the room it gives free, whatever its digits are. */
  lemma {:induction false} LiteralFits(t: seq<Byte>, p: nat, e: nat)
    requires p < e <= |t| && t[p] == BACKSLASH
    requires var u := Utf16Literal(t, p, e); u.1 != 0
    ensures var u := Utf16Literal(t, p, e); |G.Utf8(u.0)| + Room(t, p + u.1, e) <= Room(t, p, e)
  {
    hide Room;
    var u := Utf16Literal(t, p, e);
    var first := Hex4(t, p + 2);
    if first != 0 { HexRoom(t, p, e); }
    if u.1 == 12 {
      HexRoom(t, p + 6, e);
    } else if first == 0 {
      OneByteRoom(t, p, e);
    }
  }

  lemma {:induction false} OneByteRoom(t: seq<Byte>, p: nat, e: nat)
    requires p + 6 <= e <= |t| && t[p] == BACKSLASH
    ensures 1 + Room(t, p + 6, e) <= Room(t, p, e)
  {
    RoomShrinks(t, p + 2, p + 6, e);
  }

  // ----- UTF-8

  lemma {:induction false} SixMore(c: nat, n: nat)
    requires n < 3
    ensures c / Pow64(n) / 64 == c / Pow64(n + 1)
  {
    Pow64Values();
  }

  /** How long the encoding is, and what its first byte adds to the leading bits. */
  function LengthMark(c: nat): (nat, nat) {
    if c < 0x80 then (1, 0) else if c < 0x800 then (2, 0xC0) else if c < 0x1_0000 then (3, 0xE0) else (4, 0xF0)
  }

  lemma {:induction false} Utf8Byte(c: nat, k: nat)
    requires c <= 0x10_FFFF && k < |G.Utf8(c)|
    ensures |G.Utf8(c)| == LengthMark(c).0
    ensures G.Utf8(c)[k] == var q := c / Pow64(LengthMark(c).0 - 1 - k); if k == 0 then LengthMark(c).1 + q else 0x80 + q % 64
  {
    Pow64Values();
  }

  lemma {:induction false} Utf8Bytes(c: nat)
    requires c <= 0x10_FFFF
    ensures var s, n := G.Utf8(c), LengthMark(c).0;
            && |s| == n && s[0] == LengthMark(c).1 + c / Pow64(n - 1)
            && forall k :: 0 < k < n ==> s[k] == 0x80 + c / Pow64(n - 1 - k) % 64
  {
    hide G.Utf8, LengthMark, Pow64;
    Utf8Byte(c, 0);
    forall k | 0 < k < |G.Utf8(c)| ensures G.Utf8(c)[k] == 0x80 + c / Pow64(LengthMark(c).0 - 1 - k) % 64 { Utf8Byte(c, k); }
  }

  /** Writes the trailing bytes from the last one on, six bits each, then the first byte. */
  method PutUtf8(output: array<Byte>, at: nat, codepoint: nat, ghost before: seq<Byte>, ghost done: seq<Byte>)
    returns (end: nat)
    requires codepoint <= 0x10_FFFF && Written(output[..], before, done) && at == |done|
    requires at + |G.Utf8(codepoint)| <= output.Length
    modifies output
    ensures end == at + |G.Utf8(codepoint)| && Written(output[..], before, done + G.Utf8(codepoint))
  {
    hide Written, Pow64, G.Utf8, LengthMark;
    Utf8Bytes(codepoint);
    Pow64Values();
    var (length, mark) := LengthMark(codepoint);
    var c := codepoint;
    var bytes := new Byte[length];
    var position := length - 1;
    while position > 0
      invariant 0 <= position < length && c == codepoint / Pow64(length - 1 - position)
      invariant Written(output[..], before, done)
      invariant forall k :: position < k < length ==> bytes[k] == G.Utf8(codepoint)[k]
    {
      bytes[position] := 0x80 + c % 64;
      ShortEnough(codepoint);
      SixMore(codepoint, length - 1 - position);
      c := c / 64;
      position := position - 1;
    }
    bytes[0] := mark + c;
    assert bytes[..] == G.Utf8(codepoint);
    end := CopyBytes(output, at, bytes[..], before, done);
  }

  lemma {:induction false} ShortEnough(c: nat)
    ensures 1 <= LengthMark(c).0 <= 4
  {}

  // ----- the parse buffer

  class ParseBuffer {
    const content: seq<Byte>       // with its terminating zero
    var offset: nat
    var depth: nat

    ghost predicate Valid()
      reads this
    {
      && |content| > 0 && content[|content| - 1] == 0 && NulFree(content[..|content| - 1])
      && offset < |content|
    }

    function Source(): seq<Byte>
      requires |content| > 0
    {
      content[..|content| - 1]
    }

    constructor (t: seq<Byte>)
      requires NulFree(t)
      ensures Valid() && Source() == t && offset == 0 && depth == 0
    {
      content, offset, depth := t + [0], 0, 0;
    }

    method SkipSpace()
      requires Valid()
      modifies this`offset
      ensures Valid() && offset == SkipWhitespace(Source(), old(offset))
    {
      hide NulFree;
      ghost var t, start := Source(), offset;
      while offset < |content| && content[offset] <= SPACE
        invariant offset <= |content|
        invariant offset < |content| ==> SkipWhitespace(t, offset) == SkipWhitespace(t, start)
        invariant offset == |content| ==> SkipWhitespace(t, start) == |t|
      {
        offset := offset + 1;
      }
      if offset == |content| { offset := offset - 1; }
    }

    /** Scans for the closing quote; counts the bytes that are no backslashes. */
    method FindClose() returns (end: nat, room: nat)
      requires Valid() && offset < |content| - 1
      ensures end == StringClose(Source(), offset + 1)
      ensures end < |content| - 1 ==> room == Room(Source(), offset + 1, end)
    {
      hide NulFree;
      ghost var t := Source();
      end := offset + 1;
      var skipped: nat := 0;
      while end < |content| && content[end] != QUOTE
        invariant offset + 1 <= end <= |content| && skipped <= end - (offset + 1)
        invariant end < |content| ==> StringClose(t, offset + 1) == StringClose(t, end)
        invariant end == |content| ==> StringClose(t, offset + 1) == |t|
        invariant end < |content| ==>
                    Room(t, offset + 1, StringClose(t, end))
                    == end - (offset + 1) - skipped + Room(t, end, StringClose(t, end))
      {
        if content[end] == BACKSLASH {
          if end + 1 >= |content| { return |content| - 1, 0; }
          skipped := skipped + 1;
          end := end + 1;
        }
        end := end + 1;
      }
      if end >= |content| { return |content| - 1, 0; }
      room := end - (offset + 1) - skipped;
    }

    /** Copies the content up to the closing quote, undoing the escapes. The memory for it has been measured
        by the first pass. */
    method CopyContent(end: nat, output: array<Byte>) returns (ok: bool, n: nat, stop: nat)
      requires Valid() && offset < end < |content| - 1
      requires output.Length == Room(Source(), offset + 1, end) + 2
      modifies output
      ensures ok <==> Unescape(Source(), offset + 1, end).Content?
      ensures ok ==> n < output.Length && output[..n] == Unescape(Source(), offset + 1, end).bytes
      ensures stop < |content|
    {
      hide NulFree, Written, Utf16Literal, G.Utf8, Unescape, Room, Unescaped, Prefixed;
      var t := Source();
      ghost var before, done, whole := output[..], [], Unescape(t, offset + 1, end);
      WrittenNothing(before);
      n := 0;
      var p := offset + 1;
      PrefixedNothing(whole);
      while p < end
        invariant offset < p <= |t| && n == |done| && n + Room(t, p, end) < output.Length - 1
        invariant Written(output[..], before, done) && whole == Prefixed(done, Unescape(t, p, end))
        decreases end - p
      {
        stop := p;
        UnescapeStep(t, p, end, done);
        if content[p] != BACKSLASH {
          n := PutByte(output, n, content[p], before, done);
          done := done + [content[p]];
          p := p + 1;
        } else if content[p + 1] == LETTER_U {
          var u := Utf16Literal(t, p, end);
          if u.1 == 0 { return false, 0, p; }
          n := PutUtf8(output, n, u.0, before, done);
          done := done + G.Utf8(u.0);
          p := p + u.1;
        } else {
          var c := Unescaped(content[p + 1]);
          if c == 0 { return false, 0, p; }
          n := PutByte(output, n, c, before, done);
          done := done + [c];
          p := p + 2;
        }
      }
      UnescapeEnd(t, p, end, done);
      WrittenPart(output[..], before, done);
      n := PutByte(output, n, 0, before, done);
      n := n - 1;
      WrittenPart(output[..], before, done + [0]);
      assert output[..n + 1][..n] == output[..n] == done;
      return true, n, p;
    }

    /** On failure the offset is only a position to report. */
    method ParseString() returns (ok: bool, s: seq<Byte>)
      requires Valid()
      modifies this`offset
      ensures ok <==> StringAt(Source(), old(offset)).Parsed?
      ensures ok ==> Valid() && Parsed(s, offset) == StringAt(Source(), old(offset))
    {
      hide NulFree, StringClose, Unescape, Room;
      s := [];
      if content[offset] != QUOTE {
        offset := offset + 1;
        return false, s;
      }
      var end, room := FindClose();
      if end >= |content| - 1 {
        offset := offset + 1;
        return false, s;
      }
      var output := new Byte[room + 2];
      var n, stop;
      ok, n, stop := CopyContent(end, output);
      if !ok {
        offset := stop;
        return false, s;
      }
      s := output[..n];
      offset := end + 1;
    }

    method ParseNumber() returns (ok: bool, v: Json)
      requires Valid()
      modifies this`offset
      ensures ok <==> NumberAt(Source(), old(offset)).Parsed?
      ensures ok ==> Valid() && Parsed(v, offset) == NumberAt(Source(), old(offset))
      ensures !ok ==> offset == old(offset)
    {
      hide NulFree, StrtodLength;
      v := Null;
      ghost var t := Source();
      var i := 0;
      while i < NUMBER_STRING - 1 && offset + i < |content| && IsNumberChar(content[offset + i])
        invariant 0 <= i <= NUMBER_STRING - 1 && offset + i <= |t|
        invariant NumberRun(t, offset, NUMBER_STRING - 1) == NumberRun(t, offset + i, NUMBER_STRING - 1 - i)
      {
        i := i + 1;
      }
      var numberString := content[offset..offset + i];
      SameSlice(content, offset, offset + i, |content| - 1);
      var length := StrtodLength(numberString);
      if length == 0 { return false, v; }
      ok, v := true, Number(numberString[..length]);
      offset := offset + length;
    }

    method CanRead(literal: seq<Byte>) returns (yes: bool)
      requires Valid() && NulFree(literal)
      ensures yes <==> LiteralEnd(Source(), offset, literal) > offset || literal == []
    {
      yes := offset + |literal| <= |content| && content[offset..offset + |literal|] == literal;
      if yes && literal != [] {
        assert literal[|literal| - 1] in literal;
        assert content[offset..offset + |literal|][|literal| - 1] == content[offset + |literal| - 1];
      }
      if offset + |literal| <= |content| - 1 {
        assert content[offset..offset + |literal|] == Source()[offset..offset + |literal|];
      }
    }

    method ParseValue() returns (ok: bool, v: Json)
      requires Valid()
      modifies this
      ensures ok <==> ValueAt(Source(), old(offset), old(depth)).Parsed?
      ensures ok ==> Valid() && Parsed(v, offset) == ValueAt(Source(), old(offset), old(depth)) && depth == old(depth)
      decreases |content| - offset, 1
    {
      hide NulFree, LiteralEnd, StringAt, NumberAt, ContainerAt;
      v := Null;
      Literals();
      var yes := CanRead(NULL);
      if yes { offset := offset + 4; return true, Null; }
      yes := CanRead(FALSE);
      if yes { offset := offset + 5; return true, False; }
      yes := CanRead(TRUE);
      if yes { offset := offset + 4; return true, True; }
      ZeroEnds();
      if content[offset] == QUOTE {
        var s;
        ok, s := ParseString();
        v := Text(s);
      } else if content[offset] == MINUS || IsDigit(content[offset]) {
        ok, v := ParseNumber();
      } else if content[offset] == SQUARE_OPEN {
        ok, v := ParseContainer(false);
      } else if content[offset] == CURLY_OPEN {
        ok, v := ParseContainer(true);
      } else {
        ok := false;
      }
    }

    lemma {:induction false} ZeroEnds()
      requires Valid()
      ensures offset == |Source()| ==> content[offset] == 0
    {}

    /** Behind the name and the colon in an object; behind the white space in an array. */
    method ParseName(isObject: bool) returns (ok: bool, name: seq<Byte>)
      requires Valid()
      modifies this`offset
      ensures ok <==> NameAt(Source(), old(offset), isObject).Parsed?
      ensures ok ==> Valid() && offset >= old(offset) && Parsed(name, offset) == NameAt(Source(), old(offset), isObject)
    {
      hide NulFree, StringAt, SkipWhitespace;
      name := [];
      SkipSpace();
      if isObject {
        ok, name := ParseString();
        if !ok { return; }
        SkipSpace();
        ZeroEnds();
        if content[offset] != COLON { return false, name; }
        offset := offset + 1;
        SkipSpace();
      }
      ok := true;
    }

    /** One item, and the white space behind its value. */
    method ParseItem(isObject: bool) returns (ok: bool, name: seq<Byte>, value: Json)
      requires Valid()
      modifies this
      ensures ok <==>
                && NameAt(Source(), old(offset), isObject).Parsed?
                && ValueAt(Source(), NameAt(Source(), old(offset), isObject).end, old(depth)).Parsed?
      ensures ok ==>
                var n := NameAt(Source(), old(offset), isObject);
                var r := ValueAt(Source(), n.end, old(depth));
                && Valid() && depth == old(depth) && offset > old(offset)
                && name == n.value && value == r.value && offset == SkipWhitespace(Source(), r.end)
                && (offset == |Source()| ==> content[offset] == 0)
      decreases |content| - offset, 2
    {
      hide NulFree, NameAt, ValueAt, SkipWhitespace;
      value := Null;
      ok, name := ParseName(isObject);
      if !ok { return; }
      ok, value := ParseValue();
      if !ok { return; }
      SkipSpace();
      ZeroEnds();
    }

    /** An array or an object: the two loops of the library differ in the brackets and the names only. */
    method ParseContainer(isObject: bool) returns (ok: bool, v: Json)
      requires Valid() && content[offset] == OpenOf(isObject)
      modifies this
      ensures ok <==> ContainerAt(Source(), old(offset), old(depth), isObject).Parsed?
      ensures ok ==>
                && Valid() && depth == old(depth)
                && Parsed(v, offset) == ContainerAt(Source(), old(offset), old(depth), isObject)
      decreases |content| - offset, 0
    {
      hide NulFree, NameAt, ValueAt, ChildrenAt, SkipWhitespace;
      v := Null;
      if depth >= NESTING_LIMIT { return false, v; }
      depth := depth + 1;
      ghost var t, start, d := Source(), offset, depth;
      offset := offset + 1;
      SkipSpace();
      ZeroEnds();
      if content[offset] == CloseOf(isObject) {
        depth := depth - 1;
        offset := offset + 1;
        return true, Container(isObject, NoChild);
      }
      ghost var first := offset;
      offset := offset - 1;
      var items := [];
      var more := true;
      AttachNothing(ChildrenAt(t, first, d, isObject));
      while more
        invariant Valid() && start <= offset && (more ==> offset < |t|) && depth == d
        invariant more ==> ChildrenAt(t, first, d, isObject) == Attach(items, ChildrenAt(t, offset + 1, d, isObject))
        invariant !more ==>
                    ChildrenAt(t, first, d, isObject)
                    == if content[offset] == CloseOf(isObject) then Parsed(Chain(items, NoChild), offset + 1) else Failed
        decreases more, |content| - offset
      {
        ghost var q := offset + 1;
        offset := offset + 1;
        var name, value;
        ok, name, value := ParseItem(isObject);
        ItemStep(t, q, d, isObject, items);
        if !ok { return false, v; }
        items := items + [(name, value)];
        more := content[offset] == COMMA;
      }
      if content[offset] != CloseOf(isObject) { return false, v; }
      depth := depth - 1;
      offset := offset + 1;
      return true, Container(isObject, Chain(items, NoChild));
    }
  }

  /** The list of the items read so far, with more behind it. */
  function Chain(items: seq<(seq<Byte>, Json)>, c: Children): Children {
    if items == [] then c else Child(items[0].0, items[0].1, Chain(items[1..], c))
  }

  function Attach(items: seq<(seq<Byte>, Json)>, r: Parsed<Children>): Parsed<Children> {
    if r.Failed? then Failed else Parsed(Chain(items, r.value), r.end)
  }

  lemma {:induction false} AttachNothing(r: Parsed<Children>)
    ensures Attach([], r) == r
  {}

  lemma {:induction false} ChainMore(items: seq<(seq<Byte>, Json)>, item: (seq<Byte>, Json), c: Children)
    ensures Chain(items + [item], c) == Chain(items, Child(item.0, item.1, c))
    decreases |items|
  {
    if items != [] {
      assert (items + [item])[1..] == items[1..] + [item];
      ChainMore(items[1..], item, c);
    }
  }

  /** One turn of the loop over the items. */
  lemma {:induction false} ItemStep(t: seq<Byte>, q: nat, d: nat, isObject: bool, items: seq<(seq<Byte>, Json)>)
    requires q <= |t|
    ensures var r, n := ChildrenAt(t, q, d, isObject), NameAt(t, q, isObject);
            && (n.Failed? ==> Attach(items, r).Failed?)
            && (n.Parsed? ==>
                  var v := ValueAt(t, n.end, d);
                  && (v.Failed? ==> Attach(items, r).Failed?)
                  && (v.Parsed? ==>
                        var k, more := SkipWhitespace(t, v.end), items + [(n.value, v.value)];
                        Attach(items, r)
                        == if k == |t| then Failed
                           else if t[k] == COMMA then Attach(more, ChildrenAt(t, k + 1, d, isObject))
                           else if t[k] == CloseOf(isObject) then Parsed(Chain(more, NoChild), k + 1)
                           else Failed))
  {
    hide NameAt, ValueAt, SkipWhitespace;
    var r, n := ChildrenAt(t, q, d, isObject), NameAt(t, q, isObject);
    if n.Parsed? {
      var v := ValueAt(t, n.end, d);
      if v.Parsed? {
        var k := SkipWhitespace(t, v.end);
        ChainMore(items, (n.value, v.value), NoChild);
        if k < |t| && t[k] == COMMA {
          var rest := ChildrenAt(t, k + 1, d, isObject);
          if rest.Parsed? { ChainMore(items, (n.value, v.value), rest.value); }
        }
      }
    }
  }

  lemma {:induction false} SameSlice(s: seq<Byte>, i: nat, j: nat, n: nat)
    requires i <= j <= n <= |s|
    ensures s[i..j] == s[..n][i..j]
  {}

  lemma {:induction false} Literals()
    ensures NulFree(NULL) && NulFree(FALSE) && NulFree(TRUE)
  {}

  lemma {:induction false} WrittenPart(now: seq<Byte>, before: seq<Byte>, done: seq<Byte>)
    requires Written(now, before, done)
    ensures |done| <= |now| && now[..|done|] == done
  {}

  lemma {:induction false} PrefixedNothing(r: Content)
    ensures r == Prefixed([], r)
  {}

  lemma {:induction false} PrefixedTwice(s: seq<Byte>, u: seq<Byte>, r: Content)
    ensures Prefixed(s, Prefixed(u, r)) == Prefixed(s + u, r)
  {}

  lemma {:induction false} UnescapeEnd(t: seq<Byte>, p: nat, e: nat, done: seq<Byte>)
    requires p >= e && e < |t|
    ensures Prefixed(done, Unescape(t, p, e)) == Content(done) && Room(t, p, e) == 0
  {}

  /** One turn of the copying loop: what is left, and that there is room for it. */
  lemma {:induction false} UnescapeStep(t: seq<Byte>, p: nat, e: nat, done: seq<Byte>)
    requires p < e < |t|
    ensures t[p] != BACKSLASH ==>
              && Prefixed(done, Unescape(t, p, e)) == Prefixed(done + [t[p]], Unescape(t, p + 1, e))
              && Room(t, p, e) == 1 + Room(t, p + 1, e)
    ensures t[p] == BACKSLASH && t[p + 1] == LETTER_U ==>
              var u := Utf16Literal(t, p, e);
              && (u.1 == 0 ==> Prefixed(done, Unescape(t, p, e)).Refused?)
              && (u.1 != 0 ==>
                    && Prefixed(done, Unescape(t, p, e)) == Prefixed(done + G.Utf8(u.0), Unescape(t, p + u.1, e))
                    && |G.Utf8(u.0)| + Room(t, p + u.1, e) <= Room(t, p, e))
    ensures t[p] == BACKSLASH && t[p + 1] != LETTER_U ==>
              var c := Unescaped(t[p + 1]);
              && (c == 0 ==> Prefixed(done, Unescape(t, p, e)).Refused?)
              && (c != 0 ==>
                    && Prefixed(done, Unescape(t, p, e)) == Prefixed(done + [c], Unescape(t, p + 2, e))
                    && Room(t, p, e) == 1 + Room(t, p + 2, e))
  {
    hide Utf16Literal, G.Utf8, Unescaped;
    if t[p] != BACKSLASH {
      PrefixedTwice(done, [t[p]], Unescape(t, p + 1, e));
    } else if t[p + 1] == LETTER_U {
      var u := Utf16Literal(t, p, e);
      if u.1 != 0 {
        PrefixedTwice(done, G.Utf8(u.0), Unescape(t, p + u.1, e));
        LiteralFits(t, p, e);
      }
    } else {
      PrefixedTwice(done, [Unescaped(t[p + 1])], Unescape(t, p + 2, e));
    }
  }

  /** The whole text; with requireEnd nothing but white space may follow the value. */
  method ParseWithOpts(t: seq<Byte>, requireEnd: bool) returns (ok: bool, v: Json)
    requires NulFree(t)
    ensures ok <==> Document(t).Parsed? && (requireEnd ==> SkipWhitespace(t, Document(t).end) == |t|)
    ensures ok ==> v == Document(t).value
  {
    hide NulFree, ValueAt, SkipWhitespace;
    var p := new ParseBuffer(t);
    BomBytes(t);
    if p.offset + 4 < |p.content| && p.content[..3] == BOM { p.offset := p.offset + 3; }
    p.SkipSpace();
    ok, v := p.ParseValue();
    if ok && requireEnd {
      p.SkipSpace();
      ok := p.content[p.offset] == 0;
      ZeroOnlyAtEnd(p, t);
    }
  }

  lemma {:induction false} BomBytes(t: seq<Byte>)
    ensures |t| >= 3 ==> (t + [0])[..3] == t[..3]
  {}

  lemma {:induction false} ZeroOnlyAtEnd(p: ParseBuffer, t: seq<Byte>)
    requires p.Valid() && p.Source() == t
    ensures p.content[p.offset] == 0 <==> p.offset == |t|
  {
    if p.offset < |t| { assert p.content[p.offset] == t[p.offset] && t[p.offset] in t; }
  }
}
