/** Which buffers are reported as incomplete: those that closing brackets alone make a document. */
module JsonIncomplete {
  import opened Bytes
  import opened JsonScan
  import opened JsonCollection
  import opened JsonGrammar
  import opened JsonDocument

  predicate AllClose(c: seq<Byte>) { forall k :: 0 <= k < |c| ==> IsClose(c[k]) }

  /** The buffer b with closing brackets behind it. */
  predicate Extends(t: seq<Byte>, b: seq<Byte>) {
    |b| < |t| && (forall k :: 0 <= k < |b| ==> t[k] == b[k]) && forall k :: |b| <= k < |t| ==> IsClose(t[k])
  }

  // ----- every scanner stops where it stopped without the brackets

  lemma {:induction false} SpaceSame(t: seq<Byte>, b: seq<Byte>, i: nat)
    requires Extends(t, b) && i <= |b|
    ensures SpaceEnd(t, i) == SpaceEnd(b, i)
    decreases |b| - i
  {
    if i < |b| && IsSpace(b[i]) { SpaceSame(t, b, i + 1); }
  }

  lemma {:induction false} DigitsSame(t: seq<Byte>, b: seq<Byte>, i: nat)
    requires Extends(t, b) && i <= |b|
    ensures DigitsEnd(t, i) == DigitsEnd(b, i)
    decreases |b| - i
  {
    if i < |b| && IsDigit(b[i]) { DigitsSame(t, b, i + 1); }
  }

  lemma {:induction false} ExponentSame(t: seq<Byte>, b: seq<Byte>, i: nat)
    requires Extends(t, b) && i <= |b|
    ensures ExponentEnd(t, i) == ExponentEnd(b, i)
  {
    if i < |b| {
      DigitsSame(t, b, i + 1);
      if i + 1 < |b| { DigitsSame(t, b, i + 2); }
    }
  }

  lemma {:induction false} NumberSame(t: seq<Byte>, b: seq<Byte>, i: nat)
    requires Extends(t, b) && i <= |b|
    ensures NumberEnd(t, i) == NumberEnd(b, i)
  {
    hide ExponentEnd, DigitsEnd;
    var k := if i < |b| && b[i] == MINUS then i + 1 else i;
    var m := if k < |b| && b[k] == ZERO then k + 1 else DigitsEnd(b, k);
    DigitsSame(t, b, k);
    if m < |b| { DigitsSame(t, b, m + 1); }
    ExponentSame(t, b, DecimalsEnd(b, m));
  }

  lemma {:induction false} LiteralSame(t: seq<Byte>, b: seq<Byte>, i: nat, literal: seq<Byte>)
    requires Extends(t, b) && i <= |b| && forall c <- literal :: !IsClose(c)
    ensures LiteralEnd(t, i, literal) == LiteralEnd(b, i, literal)
  {
    var e := i + |literal|;
    if e <= |b| {
      assert t[i..e] == b[i..e];
    } else if e <= |t| {
      assert t[i..e][|b| - i] == t[|b|] && t[i..e][|b| - i] in t[i..e];
    }
  }

  lemma {:induction false} TrailingSame(t: seq<Byte>, b: seq<Byte>, j: nat, k: nat, value: int)
    requires Extends(t, b) && j <= |b|
    ensures Trailing(t, j, k, value) == Trailing(b, j, k, value)
    ensures value >= 0 && Trailing(b, j, k, value) != -1 ==> j + k <= |b|
    decreases k
  {
    if k > 0 && j < |b| { TrailingSame(t, b, j + 1, k - 1, value * 64 + b[j] % 64); }
  }

  lemma {:induction false} Utf8Same(t: seq<Byte>, b: seq<Byte>, i: nat)
    requires Extends(t, b) && i < |b|
    ensures Utf8End(t, i) == Utf8End(b, i)
  {
    if 0xC1 < b[i] < 0xF5 {
      var n := HighBits(b[i]);
      TrailingSame(t, b, i + 1, n - 1, LeadValue(b[i], n));
    }
  }

  lemma {:induction false} HexDigitsSame(t: seq<Byte>, b: seq<Byte>, i: nat, n: nat, value: nat)
    requires Extends(t, b) && i <= |b| && i + n <= |t|
    ensures i + n <= |b| ==> HexDigits(t, i, n, value) == HexDigits(b, i, n, value)
    ensures i + n > |b| ==> HexDigits(t, i, n, value) == -1
    decreases n
  {
    if n > 0 && i < |b| { HexDigitsSame(t, b, i + 1, n - 1, value * 16 + HexValue(b[i])); }
  }

  /** An escape needs one byte behind it, which a bracket may be. */
  lemma {:induction false} HexEscapeSame(t: seq<Byte>, b: seq<Byte>, i: nat)
    requires Extends(t, b) && i <= |b|
    ensures HexEscapeValue(t, i) == HexEscapeValue(b, i) || (HexEscapeValue(b, i) == 0 && i + 6 == |b|)
  {
    hide HexDigits, HexValue;
    if i + 6 < |t| && i + 1 < |b| && b[i] == BACKSLASH && b[i + 1] == LETTER_U {
      HexDigitsSame(t, b, i + 2, 4, 0);
    }
  }

  lemma {:induction false} NoEscapeBehind(t: seq<Byte>, b: seq<Byte>, i: nat)
    requires Extends(t, b) && |b| <= i <= |t|
    ensures HexEscapeValue(t, i) == 0 && StringRest(t, i) == 0
    decreases |t| - i
  {
    if i < |t| {
      NoEscapeBehind(t, b, i + 1);
    }
  }

  lemma {:induction false} HexEndSame(t: seq<Byte>, b: seq<Byte>, i: nat)
    requires Extends(t, b) && i <= |b|
    ensures HexEscapeEnd(t, i) == HexEscapeEnd(b, i) || (HexEscapeEnd(b, i) == i && HexEscapeEnd(t, i) >= |b|)
  {
    hide HexEscapeValue;
    HexEscapeSame(t, b, i);
    if i + 6 <= |b| { HexEscapeSame(t, b, i + 6); }
    if i + 6 == |b| { NoEscapeBehind(t, b, |b|); }
    assert HexEscapeValue(b, i) > 0 ==> i + 6 < |b|;
  }

  lemma {:induction false} ItemSame(t: seq<Byte>, b: seq<Byte>, i: nat)
    requires Extends(t, b) && i < |b|
    ensures ItemEnd(t, i) == ItemEnd(b, i) || (ItemEnd(b, i) == i && ItemEnd(t, i) >= |b|)
  {
    hide HexEscapeEnd, Utf8End;
    Utf8Same(t, b, i);
    HexEndSame(t, b, i);
  }

  lemma {:induction false} RestSame(t: seq<Byte>, b: seq<Byte>, i: nat)
    requires Extends(t, b) && i <= |b|
    ensures StringRest(t, i) == StringRest(b, i)
    decreases |b| - i
  {
    hide ItemEnd;
    if i == |b| {
      NoEscapeBehind(t, b, i);
    } else if b[i] != QUOTE {
      ItemSame(t, b, i);
      if ItemEnd(t, i) != ItemEnd(b, i) {
        NoEscapeBehind(t, b, ItemEnd(t, i));
      } else if ItemEnd(b, i) > i {
        RestSame(t, b, ItemEnd(b, i));
      }
    }
  }

  lemma {:induction false} StringSame(t: seq<Byte>, b: seq<Byte>, i: nat)
    requires Extends(t, b) && i <= |b|
    ensures StringEnd(t, i) == StringEnd(b, i)
  {
    hide StringRest;
    if i < |b| { RestSame(t, b, i + 1); }
  }

  lemma {:induction false} ScalarSame(t: seq<Byte>, b: seq<Byte>, i: nat)
    requires Extends(t, b) && i <= |b|
    ensures ScalarEnd(t, i) == ScalarEnd(b, i)
  {
    hide StringEnd, LiteralEnd, NumberEnd, Extends;
    StringSame(t, b, i);
    LiteralSame(t, b, i, TRUE);
    LiteralSame(t, b, i, FALSE);
    LiteralSame(t, b, i, NULL);
    NumberSame(t, b, i);
  }

  lemma {:induction false} CommaSame(t: seq<Byte>, b: seq<Byte>, i: nat)
    requires Extends(t, b) && i <= |b|
    ensures SpaceAndComma(t, i) == SpaceAndComma(b, i)
  {
    hide SpaceEnd;
    SpaceSame(t, b, i);
    var j := SpaceEnd(b, i);
    if j < |b| { SpaceSame(t, b, j + 1); }
  }

  lemma {:induction false} ArraySame(t: seq<Byte>, b: seq<Byte>, i: nat)
    requires Extends(t, b) && i <= |b|
    ensures ArrayScalarsEnd(t, i) == ArrayScalarsEnd(b, i)
    decreases |b| - i
  {
    hide ScalarEnd, SpaceAndComma, Extends;
    ScalarSame(t, b, i);
    var s := ScalarEnd(b, i);
    if s > i {
      CommaSame(t, b, s);
      var r := SpaceAndComma(b, s);
      if r.0 { ArraySame(t, b, r.1); }
    }
  }

  lemma {:induction false} KeySame(t: seq<Byte>, b: seq<Byte>, i: nat)
    requires Extends(t, b) && i <= |b|
    ensures KeyEnd(t, i) == KeyEnd(b, i)
  {
    hide StringEnd, SpaceEnd;
    StringSame(t, b, i);
    var s := StringEnd(b, i);
    SpaceSame(t, b, s);
    if SpaceEnd(b, s) < |b| { SpaceSame(t, b, SpaceEnd(b, s) + 1); }
  }

  lemma {:induction false} ObjectSame(t: seq<Byte>, b: seq<Byte>, i: nat)
    requires Extends(t, b) && i <= |b|
    ensures ObjectScalarsEnd(t, i) == ObjectScalarsEnd(b, i)
    decreases |b| - i
  {
    hide KeyEnd, ScalarEnd, SpaceAndComma;
    KeySame(t, b, i);
    var q := KeyEnd(b, i);
    if q > i {
      ScalarSame(t, b, q);
      var v := ScalarEnd(b, q);
      CommaSame(t, b, v);
      var r := SpaceAndComma(b, v);
      if r.0 { ObjectSame(t, b, r.1); }
    }
  }

  lemma {:induction false} ScalarsSame(t: seq<Byte>, b: seq<Byte>, i: nat, mode: Byte)
    requires Extends(t, b) && i <= |b|
    ensures ScalarsEnd(t, i, mode) == ScalarsEnd(b, i, mode)
  {
    hide SpaceEnd, ArrayScalarsEnd, ObjectScalarsEnd, Extends;
    SpaceSame(t, b, i);
    ArraySame(t, b, SpaceEnd(b, i));
    ObjectSame(t, b, SpaceEnd(b, i));
  }

  lemma {:induction false} AfterSame(t: seq<Byte>, b: seq<Byte>, k: nat, open: Byte)
    requires Extends(t, b) && k <= |b|
    ensures AfterNested(t, k, open) == AfterNested(b, k, open)
  {
    hide ScalarsEnd, SpaceAndComma, Extends;
    CommaSame(t, b, k);
    var r := SpaceAndComma(b, k);
    if r.0 { ScalarsSame(t, b, r.1, open); }
  }

  /** A collection that is settled before the end of the buffer is settled in the same way with more brackets. */
  lemma {:induction false} InsideSame(t: seq<Byte>, b: seq<Byte>, i: nat, open: Byte, depth: nat)
    requires Extends(t, b) && i <= |b| && depth < MAX_DEPTH && !Inside(b, i, open, depth).Partial?
    ensures Inside(t, i, open, depth) == Inside(b, i, open, depth)
    decreases |b| - i
  {
    hide ScalarsEnd, AfterNested;
    assert i < |b| && t[i] == b[i];
    if IsOpen(b[i]) && depth + 1 < MAX_DEPTH {
      ScalarsSame(t, b, i + 1, b[i]);
      InsideSame(t, b, ScalarsEnd(b, i + 1, b[i]), b[i], depth + 1);
      var r := Inside(b, ScalarsEnd(b, i + 1, b[i]), b[i], depth + 1);
      if r.Closed? {
        AfterSame(t, b, r.end, open);
        InsideSame(t, b, AfterNested(b, r.end, open), open, depth);
      }
    }
  }

  // ----- closing what is open

  function Closing(open: Byte): Byte { if open == SQUARE_OPEN then SQUARE_CLOSE else CURLY_CLOSE }

  lemma {:induction false} ClosingPairs(open: Byte)
    requires IsOpen(open)
    ensures IsClose(Closing(open)) && IsPair(open, Closing(open))
  {}

  lemma {:induction false} ExtendsConcat(b: seq<Byte>, c: seq<Byte>)
    requires AllClose(c) && c != []
    ensures Extends(b + c, b)
  {}

  lemma {:induction false} AtBracket(t: seq<Byte>, k: nat, open: Byte)
    requires k < |t| && IsClose(t[k])
    ensures AfterNested(t, k, open) == k
  {}

  /** Brackets that close what is open from i on, inside a collection at nesting level `depth`. */
  predicate Closes(b: seq<Byte>, i: nat, open: Byte, depth: nat, c: seq<Byte>)
    requires i <= |b| && depth < MAX_DEPTH
  {
    c != [] && AllClose(c) && Inside(b + c, i, open, depth) == Closed(|b| + |c|)
  }

  /** Behind a nested collection that is closed. */
  lemma {:induction false} ClosesBehind(b: seq<Byte>, i: nat, open: Byte, depth: nat, c: seq<Byte>)
    requires i < |b| && depth + 1 < MAX_DEPTH && IsOpen(b[i])
    requires var r := Inside(b, ScalarsEnd(b, i + 1, b[i]), b[i], depth + 1);
             r.Closed? && Closes(b, AfterNested(b, r.end, open), open, depth, c)
    ensures Closes(b, i, open, depth, c)
  {
    hide ScalarsEnd, AfterNested, Extends, AllClose;
    var t, j := b + c, ScalarsEnd(b, i + 1, b[i]);
    ExtendsConcat(b, c);
    ScalarsSame(t, b, i + 1, b[i]);
    InsideSame(t, b, j, b[i], depth + 1);
    AfterSame(t, b, Inside(b, j, b[i], depth + 1).end, open);
    assert t[i] == b[i];
  }

  /** Behind a nested collection that brackets close. */
  lemma {:induction false} ClosesNested(b: seq<Byte>, i: nat, open: Byte, depth: nat, inner: seq<Byte>)
    requires i < |b| && depth + 1 < MAX_DEPTH && IsOpen(b[i]) && IsOpen(open)
    requires Closes(b, ScalarsEnd(b, i + 1, b[i]), b[i], depth + 1, inner)
    ensures Closes(b, i, open, depth, inner + [Closing(open)])
  {
    hide ScalarsEnd, AfterNested, Extends, AllClose, IsPair, Closing;
    ClosingPairs(open);
    OneClose(Closing(open));
    BothClose(inner, Closing(open));
    var t, u, j := b + inner, b + (inner + [Closing(open)]), ScalarsEnd(b, i + 1, b[i]);
    assert u == t + [Closing(open)];
    ExtendsConcat(t, [Closing(open)]);
    ExtendsConcat(b, inner + [Closing(open)]);
    ScalarsSame(u, b, i + 1, b[i]);
    InsideSame(u, t, j, b[i], depth + 1);
    AtBracket(u, |t|, open);
    EndsAt(u, |t|, open, depth);
    assert u[i] == b[i];
  }

  lemma {:induction false} EndsAt(u: seq<Byte>, k: nat, open: Byte, depth: nat)
    requires k < |u| && depth < MAX_DEPTH && IsClose(u[k]) && IsPair(open, u[k])
    ensures Inside(u, k, open, depth) == Closed(k + 1)
  {}

  /** What is open at the end of the buffer can be closed. */
  lemma {:induction false} Closable(b: seq<Byte>, i: nat, open: Byte, depth: nat) returns (c: seq<Byte>)
    requires i <= |b| && depth < MAX_DEPTH && IsOpen(open) && Inside(b, i, open, depth).Partial?
    ensures Closes(b, i, open, depth, c)
    decreases |b| - i
  {
    hide ScalarsEnd, AfterNested, AllClose, IsPair;
    if i == |b| {
      c := [Closing(open)];
      ClosingPairs(open);
      OneClose(Closing(open));
      EndsAt(b + c, i, open, depth);
    } else {
      var j := ScalarsEnd(b, i + 1, b[i]);
      var r := Inside(b, j, b[i], depth + 1);
      if r.Closed? {
        c := Closable(b, AfterNested(b, r.end, open), open, depth);
        ClosesBehind(b, i, open, depth, c);
      } else {
        var inner := Closable(b, j, b[i], depth + 1);
        ClosesNested(b, i, open, depth, inner);
        c := inner + [Closing(open)];
      }
    }
  }

  lemma {:induction false} OneClose(x: Byte)
    requires IsClose(x)
    ensures AllClose([x])
  {}

  lemma {:induction false} BothClose(c: seq<Byte>, x: Byte)
    requires AllClose(c) && IsClose(x)
    ensures AllClose(c + [x])
  {}

  // ----- documents

  lemma {:induction false} IncompleteClosable(b: seq<Byte>) returns (c: seq<Byte>)
    requires ValidationStatus(b) == Incomplete && SpaceEnd(b, 0) < |b|
    ensures c != [] && AllClose(c) && ValidationStatus(b + c) == Success
  {
    hide SpaceEnd, ScalarEnd, ScalarsEnd, Inside, Extends, AllClose;
    var i := SpaceEnd(b, 0);
    c := Closable(b, ScalarsEnd(b, i + 1, b[i]), b[i], 0);
    var t := b + c;
    ExtendsConcat(b, c);
    SpaceSame(t, b, 0);
    ScalarSame(t, b, i);
    ScalarsSame(t, b, i + 1, b[i]);
    assert t[i] == b[i];
    SpaceAtEnd(t);
  }

  lemma {:induction false} SpaceAtEnd(t: seq<Byte>)
    ensures SpaceEnd(t, |t|) == |t|
  {}

  lemma {:induction false} OnlySpace(b: seq<Byte>)
    ensures SpaceEnd(b, 0) == |b| <==> forall k :: 0 <= k < |b| ==> IsSpace(b[k])
  {
    SpaceUpTo(b, 0);
  }

  lemma {:induction false} SpaceUpTo(b: seq<Byte>, i: nat)
    requires i <= |b|
    ensures forall k :: i <= k < SpaceEnd(b, i) ==> IsSpace(b[k])
    decreases |b| - i
  {
    if i < |b| && IsSpace(b[i]) { SpaceUpTo(b, i + 1); }
  }

  /** Nothing that is settled becomes a document by more brackets, and neither do nothing and white space. */
  lemma {:induction false} SettledStays(b: seq<Byte>, c: seq<Byte>)
    requires c != [] && AllClose(c) && !(ValidationStatus(b) == Incomplete && SpaceEnd(b, 0) < |b|)
    ensures ValidationStatus(b + c) != Success
  {
    hide SpaceEnd, ScalarEnd, ScalarsEnd, Inside;
    var t, i := b + c, SpaceEnd(b, 0);
    ExtendsConcat(b, c);
    SpaceSame(t, b, 0);
    ScalarSame(t, b, i);
    if i == |b| {
      EndOfScalars(b);
      assert IsClose(t[i]);
    } else {
      assert t[i] == b[i];
      SpaceSame(t, b, ScalarEnd(b, i));
      if IsOpen(b[i]) && ScalarEnd(b, i) == i {
        var j := ScalarsEnd(b, i + 1, b[i]);
        ScalarsSame(t, b, i + 1, b[i]);
        InsideSame(t, b, j, b[i], 0);
        var r := Inside(b, j, b[i], 0);
        if r.Closed? { SpaceSame(t, b, r.end); }
      }
    }
  }

  lemma {:induction false} EndOfScalars(b: seq<Byte>)
    ensures ScalarEnd(b, |b|) == |b|
  {}

  /** A buffer is reported as incomplete exactly when it is white space and not empty, or when some closing
      brackets, and nothing else, make a document of it. */
  lemma {:induction false} IncompleteExactly(b: seq<Byte>)
    ensures ValidationStatus(b) == Incomplete <==>
            || (b != [] && forall k :: 0 <= k < |b| ==> IsSpace(b[k]))
            || exists c :: c != [] && AllClose(c) && ValidationStatus(b + c) == Success
  {
    hide ValidationStatus, SpaceEnd, AllClose;
    OnlySpace(b);
    if SpaceEnd(b, 0) == |b| {
      BlankIncomplete(b);
    } else if ValidationStatus(b) == Incomplete {
      var c := IncompleteClosable(b);
    }
    if !(ValidationStatus(b) == Incomplete && SpaceEnd(b, 0) < |b|) {
      forall c | c != [] && AllClose(c) ensures ValidationStatus(b + c) != Success { SettledStays(b, c); }
    }
  }

  lemma {:induction false} BlankIncomplete(b: seq<Byte>)
    requires SpaceEnd(b, 0) == |b|
    ensures ValidationStatus(b) == if b == [] then BadParameter else Incomplete
  {
    EndOfScalars(b);
  }

  /** So a document that is cut off inside a string is reported as illegal, although its beginning is right. */
  lemma {:induction false} CutOffIllegal()
    ensures ValidationStatus(Ascii("[\"a")) == IllegalDocument
    ensures ValidationStatus(Ascii("[\"a") + Ascii("\"]")) == Success
  {
    var text := Text([Char(97)]);
    var v := Nest(SQUARE_OPEN, Last(Member([], Unnamed, Leaf(text), [])), SQUARE_CLOSE);
    var b := Ascii("[\"a");
    assert b == [SQUARE_OPEN, QUOTE, 97] && Ascii("\"]") == [QUOTE, SQUARE_CLOSE];
    assert ItemsText([Char(97)]) == [97] + ItemsText([]);
    assert ValueText(v, 1) == b + Ascii("\"]");
    assert [] + (ValueText(v, 1) + []) == ValueText(v, 1);
    DocumentAccepted([], v, [], 1);
    OpenString(b);
  }

  lemma {:induction false} OpenString(b: seq<Byte>)
    requires b == [SQUARE_OPEN, QUOTE, 97]
    ensures ValidationStatus(b) == IllegalDocument
  {
    assert StringRest(b, 3) == 0 && StringRest(b, 2) == 0;
    assert StringEnd(b, 1) == 1 && ScalarEnd(b, 1) == 1 && SpaceEnd(b, 1) == 1;
    assert ScalarsEnd(b, 1, SQUARE_OPEN) == 1;
  }
}
