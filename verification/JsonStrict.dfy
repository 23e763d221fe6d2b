/** When an accepted buffer is JSON: strictness is a property of the text, whichever tree it is read as. */
module JsonStrict {
  import opened Bytes
  import opened JsonScan
  import opened JsonCollection
  import opened JsonGrammar
  import opened JsonDocument
  import opened JsonAccepted

  // ----- two trees for the same text

  lemma {:induction false} ScalarsAgree(b: seq<Byte>, i: nat, s: Scalar, t: Scalar)
    requires ValidScalar(s) && At(b, i, ScalarText(s)) && Delimited(b, i + |ScalarText(s)|)
    requires ValidScalar(t) && At(b, i, ScalarText(t)) && Delimited(b, i + |ScalarText(t)|)
    ensures |ScalarText(s)| == |ScalarText(t)| && (StrictScalar(s) <==> StrictScalar(t))
  {
    hide ScalarEnd, StrictItems;
    ScalarScan(b, i, s);
    ScalarScan(b, i, t);
    TextAtQuote(b, i, s);
    TextAtQuote(b, i, t);
  }

  /** A scalar is a string exactly when it starts with a quote, and its strictness is that of the buffer. */
  lemma {:induction false} TextAtQuote(b: seq<Byte>, i: nat, s: Scalar)
    requires ValidScalar(s) && At(b, i, ScalarText(s))
    ensures i < |b| && (s.Text? <==> b[i] == QUOTE)
    ensures StrictScalar(s) <==> (b[i] == QUOTE ==> Clean(b, i + 1))
  {
    hide StrictItems, Clean, ValidItems, ItemsText;
    AtByte(b, i, ScalarText(s), 0);
    if s.Text? {
      AtConcat(b, i, [QUOTE], ItemsText(s.items) + [QUOTE]);
      CleanItems(b, i + 1, s.items);
    } else if s.Number? {
      assert s.whole[0] in s.whole;
    }
  }

  /** The name of a member in front of a value that starts at k. */
  lemma {:induction false} NameStrict(b: seq<Byte>, j: nat, name: Name, open: Byte)
    requires name.Named? ==> ValidItems(name.key) && AllSpace(name.beforeColon) && AllSpace(name.afterColon)
    requires At(b, j, NameText(name)) && StartsValue(b, j + |NameText(name)|)
    requires name.Named? ==> open == CURLY_OPEN
    requires name.Unnamed? && open == CURLY_OPEN ==> IsOpen(b[j])
    ensures j < |b| && (name.Named? <==> open == CURLY_OPEN && b[j] == QUOTE)
    ensures j + |NameText(name)| == if open == CURLY_OPEN && b[j] == QUOTE then KeyEnd(b, j) else j
    ensures name.Named? ==> (StrictItems(name.key) <==> Clean(b, j + 1))
  {
    hide StrictItems, Clean, ValidItems, ItemsText, KeyEnd, AllSpace;
    if name.Named? {
      NameScan(b, j, name);
      AtConcat(b, j, StringText(name.key), name.beforeColon + ([COLON] + name.afterColon));
      AtConcat(b, j, [QUOTE], ItemsText(name.key) + [QUOTE]);
      AtByte(b, j, [QUOTE], 0);
      CleanItems(b, j + 1, name.key);
    }
  }

  /** Where the value of a member starts, and what its name contributes, as facts about the buffer. */
  lemma {:induction false} MemberStrict(b: seq<Byte>, i: nat, m: Member, open: Byte, levels: nat)
    requires ValidMember(m, open, levels) && At(b, i, MemberText(m, open, levels)) && IsOpen(open)
    ensures i <= |b| && SpaceEnd(b, i) < |b|
    ensures var j := SpaceEnd(b, i);
            var named := open == CURLY_OPEN && b[j] == QUOTE;
            var k := if named then KeyEnd(b, j) else j;
            && k == i + |m.before| + |NameText(m.name)| && At(b, k, ValueText(m.value, levels))
            && (StrictMember(m, open) <==> StrictValue(m.value) && if named then Clean(b, j + 1) else open == SQUARE_OPEN)
  {
    hide At, MemberText, ValueText, NameText, KeyEnd, StrictItems, Clean, ValidItems, SpaceEnd, StrictValue;
    MemberParts(b, i, m, open, levels);
    var j := i + |m.before|;
    ValueStart(b, j + |NameText(m.name)|, m.value, levels);
    NameStrict(b, j, m.name, open);
  }

  lemma {:induction false} ValuesAgree(b: seq<Byte>, i: nat, v: Value, w: Value, levels: nat)
    requires ValidValue(v, levels) && At(b, i, ValueText(v, levels)) && Delimited(b, i + |ValueText(v, levels)|)
    requires ValidValue(w, levels) && At(b, i, ValueText(w, levels)) && Delimited(b, i + |ValueText(w, levels)|)
    requires levels <= MAX_DEPTH
    ensures |ValueText(v, levels)| == |ValueText(w, levels)| && (StrictValue(v) <==> StrictValue(w))
    decreases v, 1
  {
    hide At, Delimited, BodyText, ValidBody, StrictBody, StrictScalar, ScalarText, ValidScalar, CollectionFrom;
    ValueStart(b, i, v, levels);
    ValueStart(b, i, w, levels);
    if v.Leaf? {
      ScalarsAgree(b, i, v.scalar, w.scalar);
    } else {
      DepthWithin(v, levels);
      DepthWithin(w, levels);
      CollectionSkipped(b, i, v, levels);
      CollectionSkipped(b, i, w, levels);
      NestParts(b, i, v, levels);
      NestParts(b, i, w, levels);
      SameClose(b, i, v, w, levels);
      BodiesAgree(b, i + 1, v.body, w.body, v.open, v.close, levels - 1);
    }
  }

  lemma {:induction false} SameClose(b: seq<Byte>, i: nat, v: Value, w: Value, levels: nat)
    requires v.Nest? && ValidValue(v, levels) && At(b, i, ValueText(v, levels))
    requires w.Nest? && ValidValue(w, levels) && At(b, i, ValueText(w, levels))
    requires |ValueText(v, levels)| == |ValueText(w, levels)|
    ensures v.open == w.open && v.close == w.close
  {
    hide BodyText, ValidBody;
    var n := |ValueText(v, levels)|;
    AtByte(b, i, ValueText(v, levels), 0);
    AtByte(b, i, ValueText(w, levels), 0);
    AtByte(b, i, ValueText(v, levels), n - 1);
    AtByte(b, i, ValueText(w, levels), n - 1);
  }

  /** The shape of a body, as facts about the buffer: blank or not, and what stands behind its first value. */
  lemma {:induction false} BodyShape(b: seq<Byte>, i: nat, x: Body, open: Byte, close: Byte, levels: nat)
    requires IsOpen(open) && IsClose(close) && ValidBody(x, open, levels) && At(b, i, BodyText(x, open, levels) + [close])
    ensures i <= |b| && SpaceEnd(b, i) < |b| && (x.Blank? <==> IsClose(b[SpaceEnd(b, i)]))
    ensures !x.Blank? ==>
              var e := i + Core(x.member, open, levels);
              && At(b, i, MemberText(x.member, open, levels)) && e <= |b| && Delimited(b, e)
              && SpaceEnd(b, e) == i + |MemberText(x.member, open, levels)| < |b|
              && (x.Last? <==> IsClose(b[SpaceEnd(b, e)]))
              && (x.More? ==>
                    && (x.comma <==> b[SpaceEnd(b, e)] == COMMA)
                    && At(b, SpaceEnd(b, e) + (if x.comma then 1 else 0), BodyText(x.rest, open, levels) + [close]))
  {
    hide At, MemberText, ValueText, ValidMember, AllSpace, SpaceEnd, Core;
    if x.Blank? {
      BlankShape(b, i, x.space, close);
    } else {
      BehindValue(b, i, x, open, close, levels);
      AtConcat(b, i, BodyText(x, open, levels), [close]);
      BodyStart(b, i, x, open, levels);
      BehindShape(b, i, x, open, close, levels);
    }
  }

  lemma {:induction false} BlankShape(b: seq<Byte>, i: nat, space: seq<Byte>, close: Byte)
    requires AllSpace(space) && At(b, i, space + [close]) && IsClose(close)
    ensures i <= |b| && SpaceEnd(b, i) < |b| && IsClose(b[SpaceEnd(b, i)])
  {
    AtConcat(b, i, space, [close]);
    AtByte(b, i + |space|, [close], 0);
    SpaceText(b, i, space);
  }

  lemma {:induction false} BehindShape(b: seq<Byte>, i: nat, x: Body, open: Byte, close: Byte, levels: nat)
    requires IsOpen(open) && IsClose(close) && ValidBody(x, open, levels) && !x.Blank?
    requires At(b, i, BodyText(x, open, levels) + [close])
    ensures var e := i + Core(x.member, open, levels);
            && e <= |b| && SpaceEnd(b, e) == i + |MemberText(x.member, open, levels)| < |b|
            && (x.Last? ==> b[SpaceEnd(b, e)] == close)
            && (x.More? && x.comma ==> b[SpaceEnd(b, e)] == COMMA)
            && (x.More? && !x.comma ==> IsOpen(b[SpaceEnd(b, e)]))
  {
    hide At, MemberText, ValueText, ValidMember, AllSpace, SpaceEnd, Core, BodyText;
    var m := x.member;
    var t := MemberText(m, open, levels);
    var next := i + |t|;
    BehindValue(b, i, x, open, close, levels);
    MemberCore(b, i, m, open, levels);
    SpaceText(b, i + Core(m, open, levels), m.after);
    if x.More? {
      BodyParts(b, i, x, open, close, levels);
      if x.comma {
        AtByte(b, next, [COMMA], 0);
      } else {
        FirstMember(b, next, x.rest, open, levels);
        BareStart(b, next, x.rest.member, open, levels);
      }
    }
  }

  lemma {:induction false} BodyParts(b: seq<Byte>, i: nat, x: Body, open: Byte, close: Byte, levels: nat)
    requires x.More? && ValidBody(x, open, levels) && At(b, i, BodyText(x, open, levels) + [close])
    ensures ValidMember(x.member, open, levels) && ValidBody(x.rest, open, levels) && !x.rest.Blank?
    ensures x.comma || (IsBare(x.rest.member) && ValidMember(x.rest.member, open, levels))
    ensures var next := i + |MemberText(x.member, open, levels)|;
            && At(b, next, CommaText(x.comma)) && At(b, next + |CommaText(x.comma)|, BodyText(x.rest, open, levels))
  {
    hide At, MemberText, ValidMember;
    AtConcat(b, i, BodyText(x, open, levels), [close]);
    AtConcat(b, i, MemberText(x.member, open, levels), CommaText(x.comma) + BodyText(x.rest, open, levels));
    AtConcat(b, i + |MemberText(x.member, open, levels)|, CommaText(x.comma), BodyText(x.rest, open, levels));
  }

  lemma {:induction false} BareStart(b: seq<Byte>, i: nat, m: Member, open: Byte, levels: nat)
    requires ValidMember(m, open, levels) && IsBare(m) && At(b, i, MemberText(m, open, levels))
    ensures i < |b| && IsOpen(b[i])
  {
    hide MemberText, ValueText;
    MemberParts(b, i, m, open, levels);
    ValueStart(b, i, m.value, levels);
  }

  lemma {:induction false} BodiesAgree(b: seq<Byte>, i: nat, x: Body, y: Body, open: Byte, close: Byte, levels: nat)
    requires IsOpen(open) && IsClose(close) && levels <= MAX_DEPTH
    requires ValidBody(x, open, levels) && At(b, i, BodyText(x, open, levels) + [close])
    requires ValidBody(y, open, levels) && At(b, i, BodyText(y, open, levels) + [close])
    ensures StrictBody(x, open) <==> StrictBody(y, open)
    decreases x, 0
  {
    hide At, Delimited, BodyText, MemberText, ValueText, SpaceEnd, StrictMember, StrictValue, Core, KeyEnd, NameText, Clean;
    BodyShape(b, i, x, open, close, levels);
    BodyShape(b, i, y, open, close, levels);
    if !x.Blank? {
      MemberStrict(b, i, x.member, open, levels);
      MemberStrict(b, i, y.member, open, levels);
      CoreParts(i, x.member, open, levels);
      CoreParts(i, y.member, open, levels);
      var j := SpaceEnd(b, i);
      var k := if open == CURLY_OPEN && b[j] == QUOTE then KeyEnd(b, j) else j;
      ValuesAgree(b, k, x.member.value, y.member.value, levels);
      if x.More? {
        var next := SpaceEnd(b, i + Core(x.member, open, levels)) + if x.comma then 1 else 0;
        BodiesAgree(b, next, x.rest, y.rest, open, close, levels);
      }
    }
  }

  lemma {:induction false} CoreParts(i: nat, m: Member, open: Byte, levels: nat)
    requires ValidMember(m, open, levels)
    ensures i + Core(m, open, levels) == i + |m.before| + |NameText(m.name)| + |ValueText(m.value, levels)|
  {}

  // ----- when an accepted buffer is JSON

  /** The number of levels a value is allowed to have makes no difference to its text. */
  lemma {:induction false} Releveled(v: Value, l: nat, m: nat)
    requires ValidValue(v, l) && ValueDepth(v) <= m
    ensures ValidValue(v, m) && ValueText(v, m) == ValueText(v, l)
    decreases v, 1
  {
    if v.Nest? { BodyReleveled(v.body, v.open, l - 1, m - 1); }
  }

  lemma {:induction false} BodyReleveled(body: Body, open: Byte, l: nat, m: nat)
    requires ValidBody(body, open, l) && BodyDepth(body) <= m
    ensures ValidBody(body, open, m) && BodyText(body, open, m) == BodyText(body, open, l)
    decreases body, 0
  {
    hide ValidItems, AllSpace;
    if !body.Blank? { Releveled(body.member.value, l, m); }
    if body.More? { BodyReleveled(body.rest, open, l, m); }
  }

  /** The buffer is a JSON document, of whatever depth. */
  ghost predicate IsJson(b: seq<Byte>) {
    exists before, v, after, levels :: IsText(b, before, v, after, levels) && StrictValue(v)
  }

  lemma {:induction false} TextStart(b: seq<Byte>, before: seq<Byte>, v: Value, after: seq<Byte>, levels: nat)
    requires IsText(b, before, v, after, levels)
    ensures SpaceEnd(b, 0) == |before| && At(b, |before|, ValueText(v, levels))
    ensures Delimited(b, |before| + |ValueText(v, levels)|)
    ensures ValidationStatus(b) == if ValueDepth(v) <= MAX_DEPTH then Success else MaxDepthExceeded
  {
    hide ValidValue, ValueText, ValidationStatus, AllSpace;
    var i, t := |before|, ValueText(v, levels);
    AtWhole(b);
    AtConcat(b, 0, before, t + after);
    AtConcat(b, i, t, after);
    ValueStart(b, i, v, levels);
    SpaceText(b, 0, before);
    BehindDocument(b, i + |t|, after);
    DocumentAccepted(before, v, after, levels);
  }

  /** A text of the loose grammar is JSON exactly when its tree is strict: the brackets of every collection
      match, there is a comma between all members, all members of an object have a key, and no string has a
      backslash in front of a control byte. */
  lemma {:induction false} JsonExactly(b: seq<Byte>, before: seq<Byte>, v: Value, after: seq<Byte>)
    requires IsText(b, before, v, after, MAX_DEPTH)
    ensures IsJson(b) <==> StrictValue(v)
  {
    hide ValidValue, ValueText, ValidationStatus, AllSpace, StrictValue, At, Delimited, SpaceEnd;
    if IsJson(b) {
      var before1, w, after1, levels :| IsText(b, before1, w, after1, levels) && StrictValue(w);
      DepthWithin(v, MAX_DEPTH);
      TextStart(b, before, v, after, MAX_DEPTH);
      TextStart(b, before1, w, after1, levels);
      Releveled(w, levels, MAX_DEPTH);
      ValuesAgree(b, |before|, v, w, MAX_DEPTH);
    }
  }

  /** Whatever the validator accepts is the text of a tree, and it is JSON exactly when that tree is strict. */
  lemma {:induction false} AcceptedIsJson(b: seq<Byte>) returns (before: seq<Byte>, v: Value, after: seq<Byte>)
    requires ValidationStatus(b) == Success
    ensures IsText(b, before, v, after, MAX_DEPTH) && (IsJson(b) <==> StrictValue(v))
  {
    hide *;
    before, v, after := DocumentFound(b);
    JsonExactly(b, before, v, after);
  }

  lemma {:induction false} LooseTree(b: seq<Byte>, v: Value)
    requires ValidValue(v, MAX_DEPTH) && ValueText(v, MAX_DEPTH) == b && !StrictValue(v)
    ensures ValidationStatus(b) == Success && !IsJson(b)
  {
    hide ValidValue, ValueText, StrictValue, ValidationStatus, IsJson;
    assert b == [] + (b + []);
    assert IsText(b, [], v, [], MAX_DEPTH);
    DepthWithin(v, MAX_DEPTH);
    TextStart(b, [], v, [], MAX_DEPTH);
    JsonExactly(b, [], v, []);
  }

  /** Each of the four conditions can fail alone: an outermost pair that does not match, a missing comma in front
      of a collection, a collection without a key, and a backslash in front of a raw tab are accepted. */
  lemma {:induction false} LooseAcceptance()
    ensures var b := [SQUARE_OPEN, CURLY_CLOSE]; ValidationStatus(b) == Success && !IsJson(b)
    ensures var b := [SQUARE_OPEN, SQUARE_OPEN, SQUARE_CLOSE, SQUARE_OPEN, SQUARE_CLOSE, SQUARE_CLOSE];
            ValidationStatus(b) == Success && !IsJson(b)
    ensures var b := [CURLY_OPEN, SQUARE_OPEN, SQUARE_CLOSE, CURLY_CLOSE]; ValidationStatus(b) == Success && !IsJson(b)
    ensures var b := [QUOTE, BACKSLASH, TAB, QUOTE]; ValidationStatus(b) == Success && !IsJson(b)
  {
    hide ValidationStatus, IsJson;
    var blank := Nest(SQUARE_OPEN, Blank([]), SQUARE_CLOSE);
    var m := Member([], Unnamed, blank, []);
    LooseTree([SQUARE_OPEN, CURLY_CLOSE], Nest(SQUARE_OPEN, Blank([]), CURLY_CLOSE));
    MemberBrackets(m, blank, SQUARE_OPEN, MAX_DEPTH - 1);
    MemberBrackets(m, blank, CURLY_OPEN, MAX_DEPTH - 1);
    LooseTree([SQUARE_OPEN, SQUARE_OPEN, SQUARE_CLOSE, SQUARE_OPEN, SQUARE_CLOSE, SQUARE_CLOSE],
              Nest(SQUARE_OPEN, More(m, false, Last(m)), SQUARE_CLOSE));
    LooseTree([CURLY_OPEN, SQUARE_OPEN, SQUARE_CLOSE, CURLY_CLOSE], Nest(CURLY_OPEN, Last(m), CURLY_CLOSE));
    var items := [Control(TAB)];
    assert ItemsText(items) == [BACKSLASH, TAB] by { assert items[1..] == []; }
    assert items[0].Control?;
    LooseTree([QUOTE, BACKSLASH, TAB, QUOTE], Leaf(Text(items)));
  }

  lemma {:induction false} MemberBrackets(m: Member, blank: Value, open: Byte, levels: nat)
    requires blank == Nest(SQUARE_OPEN, Blank([]), SQUARE_CLOSE) && m == Member([], Unnamed, blank, [])
    requires IsOpen(open) && levels > 0
    ensures ValidMember(m, open, levels) && MemberText(m, open, levels) == [SQUARE_OPEN, SQUARE_CLOSE]
  {
    assert BodyText(Blank([]), SQUARE_OPEN, levels - 1) == [];
    assert ValueText(blank, levels) == [SQUARE_OPEN] + ([] + [SQUARE_CLOSE]);
  }
}
