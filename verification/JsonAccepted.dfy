/** What acceptance by the validator means, exactly: a buffer is accepted when it is the text of a document of
    the loose grammar nested at most 32 deep, and it is JSON when that document is strict. */
module JsonAccepted {
  import opened Bytes
  import opened JsonScan
  import opened JsonCollection
  import opened JsonGrammar
  import opened JsonDocument
  import opened JsonFound

  // ----- from an accepted body to its tree

  /** The levels that are left inside a collection at a nesting depth. */
  function Levels(depth: nat): nat
    requires depth < MAX_DEPTH
  {
    MAX_DEPTH - 1 - depth
  }

  predicate RightClose(open: Byte, close: Byte, depth: nat) { IsClose(close) && (depth > 0 ==> IsPair(open, close)) }

  /** The body and the closing bracket stand in the buffer from p up to e. */
  predicate BodyAt(b: seq<Byte>, p: nat, e: nat, open: Byte, depth: nat, body: Body, close: Byte)
    requires depth < MAX_DEPTH
  {
    && RightClose(open, close, depth) && ValidBody(body, open, Levels(depth))
    && p < e <= |b| && BodyText(body, open, Levels(depth)) + [close] == b[p..e]
    && (body.Blank? <==> SpaceEnd(b, p) < |b| && IsClose(b[SpaceEnd(b, p)]))
    && (IsOpen(b[p]) ==> !body.Blank? && IsBare(body.member))
  }

  /** What is left of a body behind the value of a member. */
  datatype Tail = Stop | Go(comma: bool, rest: Body)

  /** The white space behind a value that ends at s, the tail and the closing bracket, up to e. */
  predicate TailAt(b: seq<Byte>, s: nat, e: nat, open: Byte, depth: nat, tail: Tail, close: Byte)
    requires depth < MAX_DEPTH && s <= |b|
  {
    var x := SpaceEnd(b, s);
    && RightClose(open, close, depth) && x < e <= |b|
    && match tail
       case Stop => [close] == b[x..e]
       case Go(comma, rest) =>
         && !rest.Blank? && ValidBody(rest, open, Levels(depth)) && (comma || IsBare(rest.member))
         && CommaText(comma) + (BodyText(rest, open, Levels(depth)) + [close]) == b[x..e]
  }

  lemma {:induction false} SpaceFound(b: seq<Byte>, i: nat)
    requires i <= |b|
    ensures AllSpace(b[i..SpaceEnd(b, i)])
    decreases |b| - i
  {
    var j := SpaceEnd(b, i);
    if j > i {
      SpaceFound(b, i + 1);
      assert b[i..j] == [b[i]] + b[i + 1..j];
    }
  }

  lemma {:induction false} KeyFound(b: seq<Byte>, q: nat) returns (name: Name)
    requires q <= |b| && KeyEnd(b, q) > q
    ensures name.Named? && ValidItems(name.key) && AllSpace(name.beforeColon) && AllSpace(name.afterColon)
    ensures NameText(name) == b[q..KeyEnd(b, q)]
  {
    hide StringEnd, SpaceEnd, ValidItems, StringText, AllSpace;
    var s, k := StringEnd(b, q), KeyEnd(b, q);
    var p := SpaceEnd(b, s);
    var items := StringFound(b, q);
    SpaceFound(b, s);
    SpaceFound(b, p + 1);
    name := Named(items, b[s..p], b[p + 1..k]);
    assert b[p..k] == [COLON] + b[p + 1..k];
    assert b[s..k] == b[s..p] + b[p..k];
    assert b[q..k] == b[q..s] + b[s..k];
  }

  /** The name of a member stands in the buffer from q up to k. */
  predicate NameAt(b: seq<Byte>, q: nat, k: nat, name: Name, open: Byte) {
    && q <= k <= |b| && (name.Unnamed? <==> k == q)
    && (name.Named? ==>
          open == CURLY_OPEN && ValidItems(name.key) && AllSpace(name.beforeColon) && AllSpace(name.afterColon))
    && NameText(name) == b[q..k]
  }

  /** The key at q, if there is one, and where the value starts. */
  lemma {:induction false} NameFound(b: seq<Byte>, q: nat, open: Byte) returns (name: Name, k: nat)
    requires q <= |b| && IsOpen(open)
    ensures k == (if open == CURLY_OPEN then KeyEnd(b, q) else q) && NameAt(b, q, k, name, open)
  {
    hide KeyEnd, StringText;
    k := if open == CURLY_OPEN then KeyEnd(b, q) else q;
    if k > q { name := KeyFound(b, q); } else { name := Unnamed; }
  }

  /** Where the run of scalars gets in front of an entry whose value could start at k. */
  lemma {:induction false} EntryTurn(b: seq<Byte>, p: nat, q: nat, k: nat, open: Byte)
    requires p <= |b| && IsOpen(open) && q == SpaceEnd(b, p) && k == if open == CURLY_OPEN then KeyEnd(b, q) else q
    ensures (open == SQUARE_OPEN || k > q) && ScalarEnd(b, k) > k ==>
              ScalarsEnd(b, p, open) == AfterNested(b, ScalarEnd(b, k), open) && !IsOpen(b[k])
    ensures k < |b| && IsOpen(b[k]) ==> ScalarsEnd(b, p, open) == k && ScalarEnd(b, k) == k
    ensures !((open == SQUARE_OPEN || k > q) && ScalarEnd(b, k) > k) && !(k < |b| && IsOpen(b[k])) ==>
              ScalarsEnd(b, p, open) == q && (k > q ==> b[q] == QUOTE)
  {
    hide KeyEnd, ScalarEnd, SpaceEnd, ScalarsEnd;
    SettledScalars(b, p, open);
    SettledStart(b, p);
    if k < |b| && IsOpen(b[k]) {
      NoScalarAtBracket(b, k);
      NestedTurn(b, q, k, open);
    } else if (open == SQUARE_OPEN || k > q) && ScalarEnd(b, k) > k {
      ScalarTurn(b, q, k, ScalarEnd(b, k), open);
    } else {
      NoTurn(b, q, k, open);
    }
  }

  lemma {:induction false} NoTurn(b: seq<Byte>, q: nat, k: nat, open: Byte)
    requires q <= |b| && IsOpen(open) && SpaceEnd(b, q) == q && k == if open == CURLY_OPEN then KeyEnd(b, q) else q
    requires (open == SQUARE_OPEN || k > q) ==> ScalarEnd(b, k) == k
    requires k < |b| ==> !IsOpen(b[k])
    ensures ScalarsEnd(b, q, open) == q && (k > q ==> b[q] == QUOTE)
  {
    hide ScalarEnd, SpaceEnd;
  }

  /** A member put together from its parts in the buffer. */
  lemma {:induction false} MemberFound(b: seq<Byte>, p: nat, q: nat, k: nat, s: nat, x: nat, name: Name, v: Value, open: Byte, levels: nat)
    returns (m: Member)
    requires p <= q <= k <= s <= x <= |b| && q == SpaceEnd(b, p) && x == SpaceEnd(b, s)
    requires NameAt(b, q, k, name, open) && ValidValue(v, levels) && ValueText(v, levels) == b[k..s]
    requires (name.Unnamed? ==> open == SQUARE_OPEN || v.Nest?) && (v.Nest? ==> IsPair(v.open, v.close))
    ensures m.name == name && m.value == v && m.before == b[p..q]
    ensures ValidMember(m, open, levels) && MemberText(m, open, levels) == b[p..x]
  {
    hide AllSpace, ValidItems, ValidValue, ValueText, NameText, SpaceEnd;
    SpaceFound(b, p);
    SpaceFound(b, s);
    m := Member(b[p..q], name, v, b[s..x]);
    assert b[k..x] == b[k..s] + b[s..x];
    assert b[q..x] == b[q..k] + b[k..x];
    assert b[p..x] == b[p..q] + b[q..x];
  }

  /** A body put together from its first member and its tail. */
  lemma {:induction false} BodyJoined(b: seq<Byte>, p: nat, s: nat, e: nat, m: Member, open: Byte, depth: nat, tail: Tail, close: Byte)
    returns (body: Body)
    requires depth < MAX_DEPTH && p <= s <= |b| && TailAt(b, s, e, open, depth, tail, close)
    requires ValidMember(m, open, Levels(depth)) && MemberText(m, open, Levels(depth)) == b[p..SpaceEnd(b, s)]
    ensures !body.Blank? && body.member == m && RightClose(open, close, depth) && ValidBody(body, open, Levels(depth))
    ensures p <= SpaceEnd(b, s) < e <= |b| && BodyText(body, open, Levels(depth)) + [close] == b[p..e]
  {
    hide ValidMember, MemberText, SpaceEnd, IsBare;
    var x, levels := SpaceEnd(b, s), Levels(depth);
    assert b[p..e] == b[p..x] + b[x..e];
    match tail
    case Stop => body := Last(m);
    case Go(comma, rest) =>
      body := More(m, comma, rest);
      var t, c, r := MemberText(m, open, levels), CommaText(comma), BodyText(rest, open, levels);
      assert t + (c + r) + [close] == t + (c + (r + [close]));
  }

  lemma {:induction false} BodyFound(b: seq<Byte>, p: nat, e: nat, open: Byte, depth: nat) returns (body: Body, close: Byte)
    requires p <= |b| && IsOpen(open) && depth < MAX_DEPTH && Inside(b, ScalarsEnd(b, p, open), open, depth) == Closed(e)
    ensures BodyAt(b, p, e, open, depth, body, close)
    decreases |b| - p, 1
  {
    var q := SpaceEnd(b, p);
    var name, k := NameFound(b, q, open);
    EntryTurn(b, p, q, k, open);
    hide ScalarsEnd, AfterNested, SpaceEnd, ScalarEnd, KeyEnd, BodyAt, NameAt;
    if (open == SQUARE_OPEN || k > q) && ScalarEnd(b, k) > k {
      body, close := LeafBodyFound(b, p, q, k, e, name, open, depth);
    } else if k < |b| && IsOpen(b[k]) {
      body, close := NestBodyFound(b, p, q, k, e, name, open, depth);
    } else {
      assert IsClose(b[q]) && e == q + 1;
      body, close := Blank(b[p..q]), b[q];
      BlankFound(b, p, open, depth);
    }
  }

  lemma {:induction false} BlankFound(b: seq<Byte>, p: nat, open: Byte, depth: nat)
    requires p <= |b| && depth < MAX_DEPTH && SpaceEnd(b, p) < |b| && RightClose(open, b[SpaceEnd(b, p)], depth)
    ensures BodyAt(b, p, SpaceEnd(b, p) + 1, open, depth, Blank(b[p..SpaceEnd(b, p)]), b[SpaceEnd(b, p)])
  {
    hide AllSpace;
    SpaceFound(b, p);
  }

  lemma {:induction false} LeafBodyFound(b: seq<Byte>, p: nat, q: nat, k: nat, e: nat, name: Name, open: Byte, depth: nat)
    returns (body: Body, close: Byte)
    requires p <= |b| && IsOpen(open) && depth < MAX_DEPTH && NameAt(b, q, k, name, open) && q == SpaceEnd(b, p)
    requires ScalarEnd(b, k) > k && (open == SQUARE_OPEN || k > q)
    requires Inside(b, AfterNested(b, ScalarEnd(b, k), open), open, depth) == Closed(e)
    ensures BodyAt(b, p, e, open, depth, body, close)
    decreases |b| - p, 0
  {
    var s := ScalarEnd(b, k);
    var scalar := ScalarFound(b, k);
    LeafText(scalar, Levels(depth));
    assert name.Unnamed? ==> open == SQUARE_OPEN;
    hide *;
    var tail;
    tail, close := RestFound(b, s, e, open, depth);
    var m := MemberFound(b, p, q, k, s, SpaceEnd(b, s), name, Leaf(scalar), open, Levels(depth));
    body := BodyJoined(b, p, s, e, m, open, depth, tail, close);
    JoinedAt(b, p, e, open, depth, body, close);
  }

  lemma {:induction false} LeafText(s: Scalar, levels: nat)
    requires ValidScalar(s)
    ensures ValidValue(Leaf(s), levels) && ValueText(Leaf(s), levels) == ScalarText(s)
  {}

  /** What is known of the first byte of a body that is not blank. */
  lemma {:induction false} JoinedAt(b: seq<Byte>, p: nat, e: nat, open: Byte, depth: nat, body: Body, close: Byte)
    requires depth < MAX_DEPTH && !body.Blank? && RightClose(open, close, depth) && ValidBody(body, open, Levels(depth))
    requires p < e <= |b| && BodyText(body, open, Levels(depth)) + [close] == b[p..e]
    ensures BodyAt(b, p, e, open, depth, body, close)
  {
    hide ValidMember, MemberText, SpaceEnd, BodyText, ValidBody;
    var levels := Levels(depth);
    assert At(b, p, BodyText(body, open, levels) + [close]);
    AtConcat(b, p, BodyText(body, open, levels), [close]);
    BodyStart(b, p, body, open, levels);
    FirstMember(b, p, body, open, levels);
    BareFirst(b, p, body.member, open, levels) by { assert ValidMember(body.member, open, levels) by { FirstValid(body, open, levels); } }
  }

  lemma {:induction false} FirstValid(body: Body, open: Byte, levels: nat)
    requires !body.Blank? && ValidBody(body, open, levels)
    ensures ValidMember(body.member, open, levels)
  {}

  lemma {:induction false} BareFirst(b: seq<Byte>, p: nat, m: Member, open: Byte, levels: nat)
    requires ValidMember(m, open, levels) && At(b, p, MemberText(m, open, levels))
    ensures p < |b| && IsOpen(b[p]) ==> IsBare(m)
  {
    hide MemberText, ValueText, AllSpace, ValidItems;
    MemberParts(b, p, m, open, levels);
    if p < |b| && IsOpen(b[p]) {
      assert SpaceEnd(b, p) == p;
      if m.name.Named? { AtByte(b, p, NameText(m.name), 0); }
      ValueStart(b, p + |NameText(m.name)|, m.value, levels);
    }
  }

  /** Going into a nested collection, which ends at e. */
  lemma {:induction false} InsideNest(b: seq<Byte>, k: nat, open: Byte, depth: nat) returns (e: nat)
    requires k < |b| && IsOpen(b[k]) && depth < MAX_DEPTH && Inside(b, k, open, depth).Closed?
    ensures depth + 1 < MAX_DEPTH && Inside(b, ScalarsEnd(b, k + 1, b[k]), b[k], depth + 1) == Closed(e) && k + 1 < e <= |b|
    ensures Inside(b, k, open, depth) == Inside(b, AfterNested(b, e, open), open, depth)
  {
    hide ScalarsEnd, AfterNested;
    e := Inside(b, ScalarsEnd(b, k + 1, b[k]), b[k], depth + 1).end;
  }

  lemma {:induction false} NestFound(b: seq<Byte>, k: nat, e: nat, depth: nat) returns (v: Value)
    requires k < |b| && IsOpen(b[k]) && depth + 1 < MAX_DEPTH && k + 1 < e <= |b|
    requires Inside(b, ScalarsEnd(b, k + 1, b[k]), b[k], depth + 1) == Closed(e)
    ensures v.Nest? && IsPair(v.open, v.close) && ValidValue(v, Levels(depth)) && ValueText(v, Levels(depth)) == b[k..e]
    decreases |b| - k - 1, 2
  {
    hide ScalarsEnd, Inside, BodyText, ValidBody;
    var inner, close := BodyFound(b, k + 1, e, b[k], depth + 1);
    v := Nest(b[k], inner, close);
    assert b[k..e] == [b[k]] + b[k + 1..e];
  }

  lemma {:induction false} NestBodyFound(b: seq<Byte>, p: nat, q: nat, k: nat, e: nat, name: Name, open: Byte, depth: nat)
    returns (body: Body, close: Byte)
    requires p <= |b| && IsOpen(open) && depth < MAX_DEPTH && NameAt(b, q, k, name, open) && q == SpaceEnd(b, p)
    requires k < |b| && IsOpen(b[k]) && Inside(b, k, open, depth) == Closed(e)
    ensures BodyAt(b, p, e, open, depth, body, close)
    decreases |b| - p, 0
  {
    var s := InsideNest(b, k, open, depth);
    assert p <= q <= k by { assert q <= k; }
    hide *;
    var v := NestFound(b, k, s, depth);
    var tail;
    tail, close := RestFound(b, s, e, open, depth);
    var m := MemberFound(b, p, q, k, s, SpaceEnd(b, s), name, v, open, Levels(depth));
    body := BodyJoined(b, p, s, e, m, open, depth, tail, close);
    JoinedAt(b, p, e, open, depth, body, close);
  }

  lemma {:induction false} RestBehindComma(b: seq<Byte>, s: nat, e: nat, open: Byte, depth: nat) returns (tail: Tail, close: Byte)
    requires s <= |b| && IsOpen(open) && depth < MAX_DEPTH && Inside(b, AfterNested(b, s, open), open, depth) == Closed(e)
    requires SpaceAndComma(b, s).0
    ensures TailAt(b, s, e, open, depth, tail, close)
    decreases |b| - s, 3
  {
    CommaTurn(b, s, open);
    hide *;
    var rest;
    rest, close := BodyFound(b, SpaceEnd(b, s) + 1, e, open, depth);
    tail := Go(true, rest);
    CommaTail(b, s, e, open, depth, rest, close);
  }

  lemma {:induction false} RestAtBracket(b: seq<Byte>, s: nat, e: nat, open: Byte, depth: nat) returns (tail: Tail, close: Byte)
    requires s <= |b| && IsOpen(open) && depth < MAX_DEPTH && Inside(b, AfterNested(b, s, open), open, depth) == Closed(e)
    requires !SpaceAndComma(b, s).0 && SpaceEnd(b, s) < |b| && IsOpen(b[SpaceEnd(b, s)])
    ensures TailAt(b, s, e, open, depth, tail, close)
    decreases |b| - s, 3
  {
    CommaTurn(b, s, open);
    hide *;
    var rest;
    rest, close := BodyFound(b, SpaceEnd(b, s), e, open, depth);
    tail := Go(false, rest);
    BareTail(b, s, e, open, depth, rest, close);
  }

  /** Behind the value of a member that ends at s. */
  lemma {:induction false} RestFound(b: seq<Byte>, s: nat, e: nat, open: Byte, depth: nat) returns (tail: Tail, close: Byte)
    requires s <= |b| && IsOpen(open) && depth < MAX_DEPTH && Inside(b, AfterNested(b, s, open), open, depth) == Closed(e)
    ensures TailAt(b, s, e, open, depth, tail, close)
    decreases |b| - s, 4
  {
    hide *;
    var x := SpaceEnd(b, s);
    if SpaceAndComma(b, s).0 {
      tail, close := RestBehindComma(b, s, e, open, depth);
    } else if x < |b| && IsOpen(b[x]) {
      tail, close := RestAtBracket(b, s, e, open, depth);
    } else {
      CommaTurn(b, s, open);
      InsideStops(b, x, e, open, depth);
      tail, close := Stop, b[x];
      StopTail(b, s, open, depth);
    }
  }

  lemma {:induction false} InsideStops(b: seq<Byte>, x: nat, e: nat, open: Byte, depth: nat)
    requires x <= |b| && depth < MAX_DEPTH && Inside(b, x, open, depth) == Closed(e) && (x < |b| ==> !IsOpen(b[x]))
    ensures x < |b| && e == x + 1 && RightClose(open, b[x], depth)
  {}

  lemma {:induction false} CommaTail(b: seq<Byte>, s: nat, e: nat, open: Byte, depth: nat, rest: Body, close: Byte)
    requires s <= |b| && depth < MAX_DEPTH && SpaceEnd(b, s) < |b| && b[SpaceEnd(b, s)] == COMMA
    requires var y := SpaceEnd(b, SpaceEnd(b, s) + 1); y < |b| && !IsClose(b[y])
    requires BodyAt(b, SpaceEnd(b, s) + 1, e, open, depth, rest, close)
    ensures TailAt(b, s, e, open, depth, Go(true, rest), close)
  {
    hide SpaceEnd, ValidBody, BodyText, IsBare;
    var x := SpaceEnd(b, s);
    assert b[x..e] == [COMMA] + b[x + 1..e];
  }

  lemma {:induction false} BareTail(b: seq<Byte>, s: nat, e: nat, open: Byte, depth: nat, rest: Body, close: Byte)
    requires s <= |b| && depth < MAX_DEPTH && SpaceEnd(b, s) < |b| && IsOpen(b[SpaceEnd(b, s)])
    requires BodyAt(b, SpaceEnd(b, s), e, open, depth, rest, close)
    ensures TailAt(b, s, e, open, depth, Go(false, rest), close)
  {
    hide SpaceEnd, ValidBody, BodyText, IsBare;
    var t := BodyText(rest, open, Levels(depth)) + [close];
    assert CommaText(false) + t == t;
  }

  lemma {:induction false} StopTail(b: seq<Byte>, s: nat, open: Byte, depth: nat)
    requires s <= |b| && depth < MAX_DEPTH && SpaceEnd(b, s) < |b| && RightClose(open, b[SpaceEnd(b, s)], depth)
    ensures TailAt(b, s, SpaceEnd(b, s) + 1, open, depth, Stop, b[SpaceEnd(b, s)])
  {
    hide SpaceEnd;
    var x := SpaceEnd(b, s);
    assert b[x..x + 1] == [b[x]];
  }

  /** Where reading goes on behind a value, with and without a comma. */
  lemma {:induction false} CommaTurn(b: seq<Byte>, s: nat, open: Byte)
    requires s <= |b| && IsOpen(open)
    ensures var x := SpaceEnd(b, s);
            && (SpaceAndComma(b, s).0 ==>
                  && x < |b| && b[x] == COMMA && AfterNested(b, s, open) == ScalarsEnd(b, x + 1, open)
                  && SpaceEnd(b, x + 1) < |b| && !IsClose(b[SpaceEnd(b, x + 1)]))
            && (!SpaceAndComma(b, s).0 ==> AfterNested(b, s, open) == x)
            && (!SpaceAndComma(b, s).0 && x < |b| && IsOpen(b[x]) ==> ScalarsEnd(b, x, open) == x)
            && (x < |b| && IsOpen(b[x]) ==> SpaceEnd(b, x) == x)
  {
    hide ScalarsEnd;
    var x := SpaceEnd(b, s);
    if x < |b| && b[x] == COMMA { SettledScalars(b, x + 1, open); }
    if x < |b| && IsOpen(b[x]) {
      NoScalarAtBracket(b, x);
      NestedTurn(b, x, x, open);
    }
  }

  // ----- documents

  /** The buffer holds this value with white space around it. */
  predicate IsText(b: seq<Byte>, before: seq<Byte>, v: Value, after: seq<Byte>, levels: nat) {
    && AllSpace(before) && AllSpace(after) && ValidValue(v, levels)
    && b == before + (ValueText(v, levels) + after)
  }

  lemma {:induction false} DepthWithin(v: Value, levels: nat)
    requires ValidValue(v, levels)
    ensures ValueDepth(v) <= levels
    decreases v, 1
  {
    if v.Nest? { BodyWithin(v.body, v.open, levels - 1); }
  }

  lemma {:induction false} BodyWithin(body: Body, open: Byte, levels: nat)
    requires ValidBody(body, open, levels)
    ensures BodyDepth(body) <= levels
    decreases body, 0
  {
    if !body.Blank? { DepthWithin(body.member.value, levels); }
    if body.More? { BodyWithin(body.rest, open, levels); }
  }

  lemma {:induction false} CollectionFound(b: seq<Byte>, i: nat, e: nat) returns (v: Value)
    requires i <= |b| && CollectionFrom(b, i) == Closed(e)
    ensures ValidValue(v, MAX_DEPTH) && i < e <= |b| && ValueText(v, MAX_DEPTH) == b[i..e]
  {
    hide ScalarsEnd, Inside, BodyText, ValidBody;
    var body, close := BodyFound(b, i + 1, e, b[i], 0);
    v := Nest(b[i], body, close);
    assert b[i..e] == [b[i]] + b[i + 1..e];
  }

  /** Whatever is accepted is the text of a document nested at most 32 deep. */
  lemma {:induction false} DocumentFound(b: seq<Byte>) returns (before: seq<Byte>, v: Value, after: seq<Byte>)
    requires ValidationStatus(b) == Success
    ensures IsText(b, before, v, after, MAX_DEPTH)
  {
    hide SpaceEnd, ScalarEnd, CollectionFrom, AllSpace, ValidScalar, ScalarText;
    var i := SpaceEnd(b, 0);
    var s := ScalarEnd(b, i);
    if s > i {
      var scalar := ScalarFound(b, i);
      v := Leaf(scalar);
    } else {
      s := CollectionFrom(b, i).end;
      v := CollectionFound(b, i, s);
      hide ValidValue, ValueText;
    }
    SpaceFound(b, 0);
    SpaceFound(b, s);
    before, after := b[..i], b[s..];
    assert before == b[0..i] && after == b[s..|b|];
    assert b[i..] == b[i..s] + b[s..];
    assert b == b[..i] + b[i..];
  }

  ghost predicate IsLoose(b: seq<Byte>) { exists before, v, after :: IsText(b, before, v, after, 32) }

  /** A buffer is accepted exactly when it is the text of a document of the loose grammar nested at most 32
      deep. */
  lemma {:induction false} AcceptedExactly(b: seq<Byte>)
    ensures ValidationStatus(b) == Success <==> IsLoose(b)
  {
    hide ValidationStatus, ValidValue, ValueText;
    if ValidationStatus(b) == Success {
      var before, v, after := DocumentFound(b);
    }
    if IsLoose(b) {
      var before, v, after :| IsText(b, before, v, after, MAX_DEPTH);
      DepthWithin(v, MAX_DEPTH);
      DocumentAccepted(before, v, after, MAX_DEPTH);
    }
  }
}
