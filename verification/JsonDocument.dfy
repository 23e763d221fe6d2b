/** JSON documents as trees, the strict ones of ECMA-404 and the looser ones the validator takes as well: every
    such document within the depth limit is skipped exactly, so it is accepted. */
module JsonDocument {
  import opened Bytes
  import opened JsonScan
  import opened JsonCollection
  import opened JsonGrammar

  datatype Value =
    | Leaf(scalar: Scalar)
    | Nest(open: Byte, body: Body, close: Byte)       // an array or an object, by its brackets

  /** Between a member and the next one there is a comma or not. */
  datatype Body =
    | Blank(space: seq<Byte>)
    | Last(member: Member)
    | More(member: Member, comma: bool, rest: Body)

  /** A value with the white space around it, and in an object with its key in front. */
  datatype Member = Member(before: seq<Byte>, name: Name, value: Value, after: seq<Byte>)

  datatype Name = Unnamed | Named(key: seq<StringItem>, beforeColon: seq<Byte>, afterColon: seq<Byte>)

  /** How deep collections are nested. */
  function ValueDepth(v: Value): nat {
    match v
    case Leaf(_) => 0
    case Nest(_, body, _) => 1 + BodyDepth(body)
  }

  function BodyDepth(body: Body): nat {
    match body
    case Blank(_) => 0
    case Last(m) => ValueDepth(m.value)
    case More(m, _, rest) => Max(ValueDepth(m.value), BodyDepth(rest))
  }

  // ----- what the validator takes

  /** A value whose collections are nested at most `levels` deep. Any closing bracket ends a collection here;
      inside another one it must be the right one. */
  predicate ValidValue(v: Value, levels: nat) {
    match v
    case Leaf(s) => ValidScalar(s)
    case Nest(open, body, close) => IsOpen(open) && IsClose(close) && levels > 0 && ValidBody(body, open, levels - 1)
  }

  predicate ValidBody(body: Body, open: Byte, levels: nat) {
    match body
    case Blank(space) => AllSpace(space)
    case Last(m) => ValidMember(m, open, levels)
    case More(m, comma, rest) =>
      && !rest.Blank? && ValidMember(m, open, levels) && ValidBody(rest, open, levels)
      && (comma || IsBare(rest.member))
  }

  /** A collection without a key; only such a member can do without a comma in front. */
  predicate IsBare(m: Member) { m.before == [] && m.name.Unnamed? && m.value.Nest? }

  predicate ValidMember(m: Member, open: Byte, levels: nat) {
    && AllSpace(m.before) && AllSpace(m.after) && ValidValue(m.value, levels)
    && (m.value.Nest? ==> IsPair(m.value.open, m.value.close))
    && match m.name
       case Unnamed => open == SQUARE_OPEN || m.value.Nest?
       case Named(key, gap1, gap2) => open == CURLY_OPEN && ValidItems(key) && AllSpace(gap1) && AllSpace(gap2)
  }

  // ----- what ECMA-404 takes

  /** The brackets of every collection match, there is a comma between all members, all members of an object
      have a key, and no string has a backslash in front of a control byte. */
  predicate StrictValue(v: Value) {
    match v
    case Leaf(s) => StrictScalar(s)
    case Nest(open, body, close) => IsPair(open, close) && StrictBody(body, open)
  }

  predicate StrictBody(body: Body, open: Byte) {
    match body
    case Blank(_) => true
    case Last(m) => StrictMember(m, open)
    case More(m, comma, rest) => comma && StrictMember(m, open) && StrictBody(rest, open)
  }

  predicate StrictMember(m: Member, open: Byte) {
    StrictValue(m.value) && if m.name.Named? then StrictItems(m.name.key) else open == SQUARE_OPEN
  }

  // ----- texts

  function ValueText(v: Value, levels: nat): (t: seq<Byte>)
    requires ValidValue(v, levels)
    ensures t != []
    decreases v
  {
    match v
    case Leaf(s) => ScalarText(s)
    case Nest(open, body, close) => [open] + (BodyText(body, open, levels - 1) + [close])
  }

  function CommaText(comma: bool): seq<Byte> { if comma then [COMMA] else [] }

  function BodyText(body: Body, open: Byte, levels: nat): seq<Byte>
    requires ValidBody(body, open, levels)
    decreases body
  {
    match body
    case Blank(space) => space
    case Last(m) => MemberText(m, open, levels)
    case More(m, comma, rest) => MemberText(m, open, levels) + (CommaText(comma) + BodyText(rest, open, levels))
  }

  function NameText(name: Name): seq<Byte>
    requires name.Named? ==> ValidItems(name.key)
  {
    match name
    case Unnamed => []
    case Named(key, gap1, gap2) => StringText(key) + (gap1 + ([COLON] + gap2))
  }

  function MemberText(m: Member, open: Byte, levels: nat): seq<Byte>
    requires ValidMember(m, open, levels)
    decreases m
  {
    m.before + (NameText(m.name) + (ValueText(m.value, levels) + m.after))
  }

  // ----- first bytes

  /** A value starts with no space, comma or closing bracket. */
  predicate StartsValue(b: seq<Byte>, i: nat) {
    i < |b| && !IsSpace(b[i]) && !IsClose(b[i]) && b[i] != COMMA
  }

  lemma {:induction false} ScalarStart(b: seq<Byte>, i: nat, s: Scalar)
    requires ValidScalar(s) && At(b, i, ScalarText(s))
    ensures StartsValue(b, i) && !IsOpen(b[i])
  {
    AtByte(b, i, ScalarText(s), 0);
    if s.Number? { assert s.whole[0] in s.whole; }
  }

  lemma {:induction false} ValueStart(b: seq<Byte>, i: nat, v: Value, levels: nat)
    requires ValidValue(v, levels) && At(b, i, ValueText(v, levels))
    ensures StartsValue(b, i) && (IsOpen(b[i]) <==> v.Nest?) && (v.Nest? ==> b[i] == v.open)
  {
    match v
    case Leaf(s) => ScalarStart(b, i, s);
    case Nest(_, _, _) => AtByte(b, i, ValueText(v, levels), 0);
  }

  lemma {:induction false} NameStart(b: seq<Byte>, i: nat, name: Name)
    requires (name.Named? ==> ValidItems(name.key)) && At(b, i, NameText(name))
    ensures name.Named? ==> StartsValue(b, i)
    ensures name.Unnamed? <==> NameText(name) == []
  {}

  /** The parts of a member, as indexes. */
  lemma {:induction false} MemberParts(b: seq<Byte>, i: nat, m: Member, open: Byte, levels: nat)
    requires ValidMember(m, open, levels) && At(b, i, MemberText(m, open, levels))
    ensures var j := i + |m.before|;
            var k := j + |NameText(m.name)|;
            && At(b, i, m.before) && At(b, j, NameText(m.name))
            && At(b, k, ValueText(m.value, levels)) && At(b, k + |ValueText(m.value, levels)|, m.after)
            && i + |MemberText(m, open, levels)| == k + |ValueText(m.value, levels)| + |m.after|
            && StartsValue(b, j) && SpaceEnd(b, i) == j && StartsValue(b, k)
            && (m.name.Unnamed? <==> j == k)
  {
    hide At, ValueText, NameText, SpaceEnd, ValidValue, AllSpace, ValidItems;
    var t := ValueText(m.value, levels);
    AtConcat(b, i, m.before, NameText(m.name) + (t + m.after));
    var j := i + |m.before|;
    AtConcat(b, j, NameText(m.name), t + m.after);
    var k := j + |NameText(m.name)|;
    AtConcat(b, k, t, m.after);
    ValueStart(b, k, m.value, levels);
    NameStart(b, j, m.name);
    SpaceText(b, i, m.before);
  }

  lemma {:induction false} NameScan(b: seq<Byte>, i: nat, name: Name)
    requires name.Named? && ValidItems(name.key) && AllSpace(name.beforeColon) && AllSpace(name.afterColon)
    requires At(b, i, NameText(name))
    requires StartsValue(b, i + |NameText(name)|)
    ensures KeyEnd(b, i) == i + |NameText(name)|
    ensures StringEnd(b, i) == i + |StringText(name.key)|
    ensures SpaceEnd(b, StringEnd(b, i)) < |b| && b[SpaceEnd(b, StringEnd(b, i))] == COLON
  {
    hide At, StringText, SpaceEnd, StringEnd, AllSpace, ValidItems;
    var t := StringText(name.key);
    AtConcat(b, i, t, name.beforeColon + ([COLON] + name.afterColon));
    StringScan(b, i, name.key);
    var s := i + |t|;
    AtConcat(b, s, name.beforeColon, [COLON] + name.afterColon);
    var p := s + |name.beforeColon|;
    AtConcat(b, p, [COLON], name.afterColon);
    AtByte(b, p, [COLON], 0);
    SpaceText(b, s, name.beforeColon);
    SpaceText(b, p + 1, name.afterColon);
  }

  // ----- what stands behind a value

  lemma {:induction false} AfterLast(b: seq<Byte>, i: nat, after: seq<Byte>, close: Byte)
    requires AllSpace(after) && At(b, i, after + [close]) && IsClose(close)
    ensures SpaceAndComma(b, i) == (false, i + |after|)
    ensures i + |after| < |b| && b[i + |after|] == close && Delimited(b, i)
  {
    AtConcat(b, i, after, [close]);
    AtByte(b, i + |after|, [close], 0);
    SpaceText(b, i, after);
    if after != [] {
      AtByte(b, i, after, 0);
      assert after[0] in after;
    }
  }

  lemma {:induction false} AfterMore(b: seq<Byte>, i: nat, after: seq<Byte>)
    requires AllSpace(after) && At(b, i, after + [COMMA])
    requires StartsValue(b, SpaceEnd(b, i + |after| + 1))
    ensures SpaceAndComma(b, i) == (true, SpaceEnd(b, i + |after| + 1))
    ensures Delimited(b, i)
  {
    AtConcat(b, i, after, [COMMA]);
    AtByte(b, i + |after|, [COMMA], 0);
    SpaceText(b, i, after);
    if after != [] {
      AtByte(b, i, after, 0);
      assert after[0] in after;
    }
  }

  /** Settling is done once: starting behind the white space makes no difference. */
  lemma {:induction false} SettledScalars(b: seq<Byte>, i: nat, open: Byte)
    requires i <= |b|
    ensures ScalarsEnd(b, SpaceEnd(b, i), open) == ScalarsEnd(b, i, open)
  {}

  /** The length of a member's text without the white space behind it. */
  function Core(m: Member, open: Byte, levels: nat): nat
    requires ValidMember(m, open, levels)
  {
    |m.before| + |NameText(m.name)| + |ValueText(m.value, levels)|
  }

  /** One turn of the run of scalars, from the start of an entry whose value ends at e. */
  lemma {:induction false} ScalarTurn(b: seq<Byte>, j: nat, k: nat, e: nat, open: Byte)
    requires j <= k < e <= |b| && IsOpen(open) && ScalarEnd(b, k) == e && !IsOpen(b[k]) && SpaceEnd(b, j) == j
    requires if open == SQUARE_OPEN then j == k else KeyEnd(b, j) == k > j
    ensures ScalarsEnd(b, j, open) == AfterNested(b, e, open)
  {}

  /** A scalar member is consumed by the run of scalars, up to what stands behind it. */
  lemma {:induction false} ScalarMember(b: seq<Byte>, i: nat, m: Member, open: Byte, levels: nat)
    requires ValidMember(m, open, levels) && m.value.Leaf? && At(b, i, MemberText(m, open, levels)) && IsOpen(open)
    requires var e := i + Core(m, open, levels); Delimited(b, e)
    ensures var e := i + Core(m, open, levels);
            e <= |b| && ScalarsEnd(b, i, open) == AfterNested(b, e, open)
  {
    hide At, MemberText, NameText, ScalarText, ScalarsEnd, AfterNested, ScalarEnd, KeyEnd, ValidItems, AllSpace, SpaceEnd;
    MemberParts(b, i, m, open, levels);
    var j := i + |m.before|;
    var k := j + |NameText(m.name)|;
    var e := k + |ValueText(m.value, levels)|;
    ScalarScan(b, k, m.value.scalar);
    if m.name.Named? { NameScan(b, j, m.name); }
    SettledScalars(b, i, open);
    SettledStart(b, i);
    ScalarTurn(b, j, k, e, open);
  }

  lemma {:induction false} SettledStart(b: seq<Byte>, i: nat)
    requires i <= |b|
    ensures SpaceEnd(b, SpaceEnd(b, i)) == SpaceEnd(b, i)
  {}

  /** The run of scalars stops at an opening bracket, also behind a key. */
  lemma {:induction false} NestedTurn(b: seq<Byte>, j: nat, k: nat, open: Byte)
    requires j <= k < |b| && IsOpen(open) && IsOpen(b[k]) && SpaceEnd(b, j) == j
    requires if open == SQUARE_OPEN then j == k else KeyEnd(b, j) == k
    ensures ScalarsEnd(b, j, open) == k
  {
    NoScalarAtBracket(b, k);
    hide KeyEnd, ScalarEnd, SpaceEnd;
  }

  /** In front of a nested member the run of scalars stops at its bracket. */
  lemma {:induction false} NestedMember(b: seq<Byte>, i: nat, m: Member, open: Byte, levels: nat)
    requires ValidMember(m, open, levels) && m.value.Nest? && At(b, i, MemberText(m, open, levels)) && IsOpen(open)
    ensures ScalarsEnd(b, i, open) == i + |m.before| + |NameText(m.name)|
  {
    hide At, MemberText, NameText, ValueText, ScalarEnd, KeyEnd, ValidItems, AllSpace, ScalarsEnd, SpaceEnd;
    MemberParts(b, i, m, open, levels);
    var j := i + |m.before|;
    var k := j + |NameText(m.name)|;
    ValueStart(b, k, m.value, levels);
    if m.name.Named? {
      NameScan(b, j, m.name);
    } else {
      NoScalarAtBracket(b, k);
    }
    SettledScalars(b, i, open);
    SettledStart(b, i);
    NestedTurn(b, j, k, open);
  }

  // ----- the main lemmas

  lemma {:induction false} BodyStart(b: seq<Byte>, i: nat, body: Body, open: Byte, levels: nat)
    requires ValidBody(body, open, levels) && !body.Blank? && At(b, i, BodyText(body, open, levels))
    ensures StartsValue(b, SpaceEnd(b, i))
  {
    hide At, MemberText, ValidMember, SpaceEnd;
    var m := body.member;
    if body.More? {
      AtConcat(b, i, MemberText(m, open, levels), CommaText(body.comma) + BodyText(body.rest, open, levels));
    }
    MemberParts(b, i, m, open, levels);
  }

  /** Behind a member without a comma: the bracket of the next one. */
  lemma {:induction false} AfterBare(b: seq<Byte>, i: nat, after: seq<Byte>, m: Member, open: Byte, levels: nat)
    requires AllSpace(after) && At(b, i, after) && IsBare(m) && IsOpen(open)
    requires ValidMember(m, open, levels) && At(b, i + |after|, MemberText(m, open, levels))
    ensures SpaceAndComma(b, i) == (false, i + |after|) && Delimited(b, i)
    ensures ScalarsEnd(b, i + |after|, open) == i + |after|
  {
    hide At, MemberText, ValueText, AllSpace, SpaceEnd, ScalarsEnd;
    var next := i + |after|;
    MemberParts(b, next, m, open, levels);
    ValueStart(b, next, m.value, levels);
    SpaceText(b, i, after);
    NestedMember(b, next, m, open, levels);
    DelimitedBySpace(b, i, after);
  }

  lemma {:induction false} DelimitedBySpace(b: seq<Byte>, i: nat, after: seq<Byte>)
    requires AllSpace(after) && At(b, i, after) && Delimited(b, i + |after|)
    ensures Delimited(b, i)
  {
    if after != [] {
      AtByte(b, i, after, 0);
      assert after[0] in after;
    }
  }

  /** Where the rest of a body starts behind its first member. */
  function Next(i: nat, body: Body, open: Byte, levels: nat): nat
    requires body.More? && ValidBody(body, open, levels)
  {
    i + |MemberText(body.member, open, levels)| + |CommaText(body.comma)|
  }

  /** What stands behind the value of the first member: the end of the body, a comma and the rest, or only the
      rest. */
  lemma {:induction false} BehindValue(b: seq<Byte>, i: nat, body: Body, open: Byte, close: Byte, levels: nat)
    requires ValidBody(body, open, levels) && !body.Blank? && IsOpen(open) && IsClose(close)
    requires At(b, i, BodyText(body, open, levels) + [close])
    ensures var m := body.member;
            var e := i + Core(m, open, levels);
            && At(b, i, MemberText(m, open, levels)) && e <= |b| && Delimited(b, e)
            && (body.Last? ==>
                  && SpaceAndComma(b, e) == (false, i + |MemberText(m, open, levels)|)
                  && i + |MemberText(m, open, levels)| < |b|
                  && b[i + |MemberText(m, open, levels)|] == close)
            && (body.More? ==>
                  var next := Next(i, body, open, levels);
                  && next <= |b| && SpaceAndComma(b, e) == (body.comma, if body.comma then SpaceEnd(b, next) else next)
                  && (!body.comma ==> ScalarsEnd(b, next, open) == next)
                  && At(b, next, BodyText(body.rest, open, levels) + [close])
                  && next + |BodyText(body.rest, open, levels)| == i + |BodyText(body, open, levels)|)
  {
    hide At, MemberText, ValueText, NameText, ValidMember, SpaceAndComma, AllSpace, SpaceEnd, ScalarsEnd, IsBare;
    var m := body.member;
    var t := MemberText(m, open, levels);
    AtConcat(b, i, BodyText(body, open, levels), [close]);
    if body.Last? {
      MemberCore(b, i, m, open, levels);
      var e := i + Core(m, open, levels);
      AtConcat(b, e, m.after, [close]);
      AfterLast(b, e, m.after, close);
    } else {
      var rest, comma := BodyText(body.rest, open, levels), CommaText(body.comma);
      AtConcat(b, i, t, comma + rest);
      AtConcat(b, i + |t|, comma, rest);
      AtConcat(b, i + |t| + |comma|, rest, [close]);
      MemberCore(b, i, m, open, levels);
      var e := i + Core(m, open, levels);
      if body.comma {
        AtConcat(b, e, m.after, [COMMA]);
        BodyStart(b, i + |t| + 1, body.rest, open, levels);
        AfterMore(b, e, m.after);
      } else {
        FirstMember(b, i + |t|, body.rest, open, levels);
        AfterBare(b, e, m.after, body.rest.member, open, levels);
      }
    }
  }

  lemma {:induction false} FirstMember(b: seq<Byte>, i: nat, body: Body, open: Byte, levels: nat)
    requires ValidBody(body, open, levels) && !body.Blank? && At(b, i, BodyText(body, open, levels))
    ensures At(b, i, MemberText(body.member, open, levels))
  {
    hide At, MemberText, ValidMember;
    if body.More? {
      AtConcat(b, i, MemberText(body.member, open, levels), CommaText(body.comma) + BodyText(body.rest, open, levels));
    }
  }

  lemma {:induction false} MemberCore(b: seq<Byte>, i: nat, m: Member, open: Byte, levels: nat)
    requires ValidMember(m, open, levels) && At(b, i, MemberText(m, open, levels))
    ensures |MemberText(m, open, levels)| == Core(m, open, levels) + |m.after|
    ensures At(b, i + Core(m, open, levels), m.after) && AllSpace(m.after)
  {
    hide At, MemberText, ValueText, NameText, AllSpace, SpaceEnd;
    MemberParts(b, i, m, open, levels);
  }

  /** A collection is closed where its text ends, or refused when it is nested too deep. */
  function Expected(depth: nat, end: nat): Outcome {
    if depth <= MAX_DEPTH then Closed(end) else TooDeep
  }

  /** Inside an open collection, every rest of a body leads to its closing bracket, unless
      the nesting is too deep. */
  lemma {:induction false} BodyInside(b: seq<Byte>, i: nat, body: Body, open: Byte, close: Byte, levels: nat, depth: nat)
    requires IsOpen(open) && ValidBody(body, open, levels) && depth < MAX_DEPTH
    requires IsClose(close) && (depth > 0 ==> IsPair(open, close)) && At(b, i, BodyText(body, open, levels) + [close])
    ensures i <= |b|
    ensures Inside(b, ScalarsEnd(b, i, open), open, depth)
            == Expected(depth + 1 + BodyDepth(body), i + |BodyText(body, open, levels)| + 1)
    decreases body, 1
  {
    hide At, MemberText, NameText, ValueText, ScalarsEnd, SpaceAndComma, AfterNested, AllSpace, ValidMember, Core;
    if body.Blank? {
      BlankInside(b, i, body.space, open, close, depth);
    } else {
      var m := body.member;
      BehindValue(b, i, body, open, close, levels);
      BehindInside(b, i, body, open, close, levels, depth);
      if m.value.Leaf? {
        ScalarMember(b, i, m, open, levels);
      } else {
        NestedInside(b, i, m, open, levels, depth);
      }
    }
  }

  lemma {:induction false} NestParts(b: seq<Byte>, i: nat, v: Value, levels: nat)
    requires v.Nest? && ValidValue(v, levels) && At(b, i, ValueText(v, levels))
    ensures At(b, i + 1, BodyText(v.body, v.open, levels - 1) + [v.close])
    ensures |ValueText(v, levels)| == |BodyText(v.body, v.open, levels - 1)| + 2
  {
    AtConcat(b, i, [v.open], BodyText(v.body, v.open, levels - 1) + [v.close]);
  }

  /** Reading a nested member inside an open collection ends exactly behind its value. */
  lemma {:induction false} NestedInside(b: seq<Byte>, i: nat, m: Member, open: Byte, levels: nat, depth: nat)
    requires IsOpen(open) && ValidMember(m, open, levels) && m.value.Nest? && depth < MAX_DEPTH
    requires At(b, i, MemberText(m, open, levels))
    ensures var e := i + Core(m, open, levels);
            e <= |b| && i <= |b| &&
            Inside(b, ScalarsEnd(b, i, open), open, depth)
            == if depth + 1 + ValueDepth(m.value) <= MAX_DEPTH then Inside(b, AfterNested(b, e, open), open, depth)
               else TooDeep
    decreases m, 0
  {
    hide At, MemberText, NameText, ValueText, ScalarsEnd, SpaceAndComma, AfterNested, AllSpace, BodyText, BodyDepth;
    hide SpaceEnd;
    NestedMember(b, i, m, open, levels);
    MemberParts(b, i, m, open, levels);
    var k, v := i + |m.before| + |NameText(m.name)|, m.value;
    ValueStart(b, k, v, levels);
    NestParts(b, k, v, levels);
    if depth + 1 < MAX_DEPTH {
      BodyInside(b, k + 1, v.body, v.open, v.close, levels - 1, depth + 1);
    }
  }

  lemma {:induction false} BlankInside(b: seq<Byte>, i: nat, space: seq<Byte>, open: Byte, close: Byte, depth: nat)
    requires IsOpen(open) && AllSpace(space) && At(b, i, space + [close]) && depth < MAX_DEPTH
    requires IsClose(close) && (depth > 0 ==> IsPair(open, close))
    ensures i <= |b| && Inside(b, ScalarsEnd(b, i, open), open, depth) == Closed(i + |space| + 1)
  {
    AtConcat(b, i, space, [close]);
    AtByte(b, i + |space|, [close], 0);
    SpaceText(b, i, space);
    NoScalarAtBracket(b, i + |space|);
  }

  /** Behind the first value of a body the rest of it leads to the closing bracket. */
  lemma {:induction false} BehindInside(b: seq<Byte>, i: nat, body: Body, open: Byte, close: Byte, levels: nat, depth: nat)
    requires IsOpen(open) && ValidBody(body, open, levels) && !body.Blank? && depth < MAX_DEPTH
    requires IsClose(close) && (depth > 0 ==> IsPair(open, close)) && At(b, i, BodyText(body, open, levels) + [close])
    ensures var e := i + Core(body.member, open, levels);
            e <= |b| &&
            Inside(b, AfterNested(b, e, open), open, depth)
            == Expected(depth + 1 + if body.More? then BodyDepth(body.rest) else 0, i + |BodyText(body, open, levels)| + 1)
    decreases body, 0
  {
    hide At, MemberText, ScalarsEnd, SpaceAndComma, ValidMember, AllSpace, Core, SpaceEnd;
    BehindValue(b, i, body, open, close, levels);
    if body.More? {
      var next := Next(i, body, open, levels);
      SettledScalars(b, next, open);
      BodyInside(b, next, body.rest, open, close, levels, depth);
    }
  }

  /** Every collection is skipped exactly, whatever follows it, when it is nested at most
      32 deep; a deeper one is refused as such. */
  lemma {:induction false} CollectionSkipped(b: seq<Byte>, i: nat, v: Value, levels: nat)
    requires v.Nest? && ValidValue(v, levels) && At(b, i, ValueText(v, levels))
    ensures CollectionFrom(b, i) == Expected(ValueDepth(v), i + |ValueText(v, levels)|)
  {
    hide At, ValueText, BodyText, ScalarsEnd;
    ValueStart(b, i, v, levels);
    NestParts(b, i, v, levels);
    BodyInside(b, i + 1, v.body, v.open, v.close, levels - 1, 0);
  }

  // ----- validation

  datatype Status = Success | Incomplete | IllegalDocument | MaxDepthExceeded | NotFound | BadParameter

  function ValidationStatus(b: seq<Byte>): Status {
    var i := SpaceEnd(b, 0);
    var s := ScalarEnd(b, i);
    if |b| == 0 then BadParameter
    else
      match if s > i then Closed(s) else CollectionFrom(b, i)
      case Closed(j) => if SpaceEnd(b, j) == |b| then Success else IllegalDocument
      case Illegal => IllegalDocument
      case TooDeep => MaxDepthExceeded
      case Partial => Incomplete
  }

  method Validate(b: seq<Byte>) returns (status: Status)
    ensures status == ValidationStatus(b)
  {
    hide SpaceEnd, ScalarEnd, CollectionFrom;
    if |b| == 0 {
      return BadParameter;
    }
    var i := SkipSpace(b, 0);
    var s := ScalarEnd(b, i);
    var r := Closed(s);
    if s == i {
      r := SkipCollection(b, i);
    }
    match r
    case Closed(j) =>
      i := SkipSpace(b, j);
      status := if i == |b| then Success else IllegalDocument;
    case Illegal => status := IllegalDocument;
    case TooDeep => status := MaxDepthExceeded;
    case Partial => status := Incomplete;
  }

  /** The validator accepts a document exactly when it is nested at most 32 deep. */
  lemma {:induction false} DocumentAccepted(before: seq<Byte>, v: Value, after: seq<Byte>, levels: nat)
    requires AllSpace(before) && AllSpace(after) && ValidValue(v, levels)
    ensures ValidationStatus(before + (ValueText(v, levels) + after))
            == if ValueDepth(v) <= 32 then Success else MaxDepthExceeded
  {
    hide At, ValueText, SpaceEnd, ScalarEnd, CollectionFrom, AllSpace;
    var t := ValueText(v, levels);
    var b, i := before + (t + after), |before|;
    AtWhole(b);
    AtConcat(b, 0, before, t + after);
    AtConcat(b, i, t, after);
    ValueStart(b, i, v, levels);
    SpaceText(b, 0, before);
    SpaceText(b, i + |t|, after);
    BehindDocument(b, i + |t|, after);
    match v
    case Leaf(s) => LeafScan(b, i, s, levels);
    case Nest(_, _, _) =>
      NoScalarAtBracket(b, i);
      CollectionSkipped(b, i, v, levels);
  }

  lemma {:induction false} AtWhole(b: seq<Byte>)
    ensures At(b, 0, b)
  {}

  lemma {:induction false} BehindDocument(b: seq<Byte>, i: nat, after: seq<Byte>)
    requires At(b, i, after) && AllSpace(after) && i + |after| == |b|
    ensures Delimited(b, i)
  {}

  lemma {:induction false} LeafScan(b: seq<Byte>, i: nat, s: Scalar, levels: nat)
    requires ValidScalar(s) && At(b, i, ValueText(Leaf(s), levels))
    requires Delimited(b, i + |ValueText(Leaf(s), levels)|)
    ensures ScalarEnd(b, i) == i + |ValueText(Leaf(s), levels)| > i
  {
    ScalarScan(b, i, s);
  }
}
