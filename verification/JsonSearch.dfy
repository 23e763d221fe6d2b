/** Searching a JSON text for a path of keys and indexes, against a recursive lookup in the tree. */
module JsonSearch {
  import opened Bytes
  import opened JsonScan
  import opened JsonCollection
  import opened JsonGrammar
  import opened JsonDocument

  /** One part of a query: an object key, or an array index. */
  datatype Selector = ByKey(key: seq<Byte>) | ByIndex(index: nat)

  datatype Span = Missing | Span(from: nat, to: nat)

  datatype Query = Done | Malformed | Step(part: Selector, rest: Query)

  datatype Reply = Hit(from: nat, to: nat) | Fail(status: Status)

  /** A part of b that is not empty, and at least two bytes long if it starts with a quote. */
  predicate IsPart(b: seq<Byte>, from: nat, to: nat) {
    from < to <= |b| && (b[from] == QUOTE ==> from + 2 <= to)
  }

  // ----- one collection

  lemma {:induction false} ValueAtQuote(b: seq<Byte>, i: nat)
    requires i < |b| && b[i] == QUOTE
    ensures ScalarEnd(b, i) == StringEnd(b, i) && !CollectionFrom(b, i).Closed?
  {
    hide StringEnd;
    forall l | |l| <= |b| - i && b[i..i + |l|] == l && l != [] ensures l[0] == QUOTE { AtByte(b, i, l, 0); }
  }

  /** Where the value ends that starts at i; i itself when there is none. */
  function ValueEnd(b: seq<Byte>, i: nat): (j: nat)
    requires i <= |b|
    ensures i <= j <= |b|
    ensures i < j ==> IsPart(b, i, j)
  {
    if i < |b| && b[i] == QUOTE then
      ValueAtQuote(b, i);
      ScalarEnd(b, i)
    else if ScalarEnd(b, i) > i then ScalarEnd(b, i)
    else
      var r := CollectionFrom(b, i);
      if r.Closed? then r.end else i
  }

  method NextValue(b: seq<Byte>, start: nat) returns (ok: bool, end: nat)
    requires start <= |b|
    ensures end == ValueEnd(b, start) && (ok <==> end > start)
  {
    hide ScalarEnd, CollectionFrom;
    if start < |b| && b[start] == QUOTE { ValueAtQuote(b, start); }
    end := ScalarEnd(b, start);
    ok := end > start;
    if !ok {
      var r := SkipCollection(b, start);
      if r.Closed? { ok, end := true, r.end; }
    }
  }

  /** Where the value of the entry at i starts: behind its key when keys are asked for. */
  function EntryValue(b: seq<Byte>, i: nat, part: Selector): (j: nat)
    requires i <= |b|
    ensures i <= j <= |b|
  {
    if part.ByKey? then KeyEnd(b, i) else i
  }

  /** The entry at i is the one asked for. */
  predicate IsHit(b: seq<Byte>, i: nat, part: Selector)
    requires i <= |b|
  {
    match part
    case ByKey(key) => var s := StringEnd(b, i); s > i && b[i + 1..s - 1] == key
    case ByIndex(n) => n == 0
  }

  function Later(part: Selector): Selector {
    if part.ByIndex? && part.index > 0 then ByIndex(part.index - 1) else part
  }

  function Find(b: seq<Byte>, i: nat, part: Selector): (r: Span)
    requires i <= |b|
    ensures r.Span? ==> IsPart(b, r.from, r.to)
    decreases |b| - i
  {
    var v := EntryValue(b, i, part);
    var e := ValueEnd(b, v);
    if (part.ByKey? && v == i) || e == v then Missing
    else if IsHit(b, i, part) then Span(v, e)
    else
      var r := SpaceAndComma(b, e);
      if r.0 then Find(b, r.1, Later(part)) else Missing
  }

  function FindIn(b: seq<Byte>, part: Selector): (r: Span)
    ensures r.Span? ==> IsPart(b, r.from, r.to)
  {
    var i := SpaceEnd(b, 0);
    if i < |b| && b[i] == (if part.ByKey? then CURLY_OPEN else SQUARE_OPEN) then Find(b, SpaceEnd(b, i + 1), part)
    else Missing
  }

  method NextKeyValuePair(b: seq<Byte>, start: nat)
    returns (ok: bool, key: nat, keyLength: nat, value: nat, end: nat)
    requires start <= |b|
    ensures ok <==> KeyEnd(b, start) > start && ValueEnd(b, KeyEnd(b, start)) > KeyEnd(b, start)
    ensures ok ==> key == start + 1 && key + keyLength == StringEnd(b, start) - 1
    ensures ok ==> value == KeyEnd(b, start) && end == ValueEnd(b, value)
  {
    hide StringEnd, SpaceEnd, ValueEnd;
    key, keyLength, value, end := 0, 0, 0, start;
    var i := SkipString(b, start);
    ok := i > start;
    if ok {
      key, keyLength := start + 1, i - start - 2;
      i := SkipSpace(b, i);
      if i < |b| && b[i] == COLON {
        value := SkipSpace(b, i + 1);
        ok, end := NextValue(b, value);
      } else {
        ok := false;
      }
    }
  }

  method ObjectSearch(b: seq<Byte>, key: seq<Byte>) returns (r: Span)
    ensures r == FindIn(b, ByKey(key))
  {
    hide StringEnd, SpaceEnd, ValueEnd, KeyEnd, SpaceAndComma, IsPart;
    r := Missing;
    var i := SkipSpace(b, 0);
    if i < |b| && b[i] == CURLY_OPEN {
      i := SkipSpace(b, i + 1);
      while i < |b|
        invariant i <= |b| && r == Missing && Find(b, i, ByKey(key)) == FindIn(b, ByKey(key))
        decreases |b| - i
      {
        var ok, at, length, value, end := NextKeyValuePair(b, i);
        if !ok { break; }
        if |key| == length {
          var eq := StrnEq(key, b[at..], length);
          assert b[at..][..length] == b[at..at + length] && key[..length] == key;
          if eq { r := Span(value, end); break; }
        }
        var c := SpaceAndComma(b, end);
        if !c.0 { break; }
        i := c.1;
      }
    }
  }

  /** The running index is 32 bits wide; it never passes the one asked for. */
  method ArraySearch(b: seq<Byte>, index: nat) returns (r: Span)
    requires index < 0x8000_0000
    ensures r == FindIn(b, ByIndex(index))
  {
    hide SpaceEnd, ValueEnd, SpaceAndComma;
    r := Missing;
    var current := 0;
    var i := SkipSpace(b, 0);
    if i < |b| && b[i] == SQUARE_OPEN {
      i := SkipSpace(b, i + 1);
      while i < |b|
        invariant i <= |b| && r == Missing && 0 <= current <= index
        invariant Find(b, i, ByIndex(index - current)) == FindIn(b, ByIndex(index))
        decreases |b| - i
      {
        var ok, end := NextValue(b, i);
        if !ok { break; }
        if current == index { r := Span(i, end); break; }
        var c := SpaceAndComma(b, end);
        if !c.0 { break; }
        i := c.1;
        current := (current + 1) % 0x1_0000_0000;
      }
    }
  }

  // ----- queries

  function KeyPartEnd(q: seq<Byte>, i: nat): (j: nat)
    requires i <= |q|
    ensures i <= j <= |q|
    ensures j < |q| ==> q[j] == DOT || q[j] == SQUARE_OPEN
    decreases |q| - i
  {
    if i < |q| && q[i] != DOT && q[i] != SQUARE_OPEN then KeyPartEnd(q, i + 1) else i
  }

  /** Behind the separator at i, if there is one. */
  function PastDot(q: seq<Byte>, i: nat): (j: nat)
    requires i <= |q|
    ensures i <= j <= |q|
  {
    if i < |q| && q[i] == DOT then i + 1 else i
  }

  /** The parts of a query from i on. */
  function Parse(q: seq<Byte>, i: nat): Query
    requires i <= |q|
    decreases |q| - i
  {
    if i == |q| then Done
    else if q[i] == SQUARE_OPEN then
      var d := DigitsEnd(q, i + 1);
      var n := DigitsValue(q, i + 1, 0);
      if d == i + 1 || n < 0 || d == |q| || q[d] != SQUARE_CLOSE then Malformed
      else Step(ByIndex(n), Parse(q, PastDot(q, d + 1)))
    else
      var k := KeyPartEnd(q, i);
      if k == i || k == |q| - 1 then Malformed
      else Step(ByKey(q[i..k]), Parse(q, PastDot(q, k)))
  }

  lemma {:induction false} DigitsBound(b: seq<Byte>, i: nat, value: int)
    requires i <= |b| && -1 <= value < 0x8000_0000
    ensures -1 <= DigitsValue(b, i, value) < 0x8000_0000
    decreases |b| - i
  {
    if i < |b| && IsDigit(b[i]) {
      DigitsBound(b, i + 1, if 0 <= value <= MAX_FACTOR then value * 10 + (b[i] - ZERO) else -1);
    }
  }

  method SkipQueryPart(q: seq<Byte>, start: nat) returns (end: nat)
    requires start <= |q|
    ensures end == KeyPartEnd(q, start)
  {
    end := start;
    while end < |q| && q[end] != DOT && q[end] != SQUARE_OPEN
      invariant start <= end <= |q| && KeyPartEnd(q, end) == KeyPartEnd(q, start)
    {
      end := end + 1;
    }
  }

  /** Follows the parts of a query inside b[from..to]. */
  function Follow(b: seq<Byte>, from: nat, to: nat, query: Query): (r: Reply)
    requires from < to <= |b|
    ensures r.Hit? ==> from <= r.from < r.to <= to
    decreases query
  {
    match query
    case Done => Hit(from, to)
    case Malformed => Fail(BadParameter)
    case Step(part, rest) =>
      var s := FindIn(b[from..to], part);
      if s.Missing? then Fail(NotFound) else Follow(b, from + s.from, from + s.to, rest)
  }

  lemma {:induction false} PartOfPart(b: seq<Byte>, from: nat, to: nat, s: nat, e: nat)
    requires from < to <= |b| && IsPart(b[from..to], s, e)
    ensures IsPart(b, from + s, from + e)
  {}

  lemma {:induction false} FollowPart(b: seq<Byte>, from: nat, to: nat, query: Query)
    requires from < to <= |b| && (query.Done? ==> IsPart(b, from, to))
    ensures var r := Follow(b, from, to, query); r.Hit? ==> IsPart(b, r.from, r.to)
    decreases query
  {
    hide FindIn, IsPart;
    if query.Step? {
      var s := FindIn(b[from..to], query.part);
      if s.Span? {
        PartOfPart(b, from, to, s.from, s.to);
        var f, t := from + s.from, from + s.to;
        assert f < t <= |b| by { IsPartBounds(b, f, t); }
        FollowPart(b, f, t, query.rest);
      }
    }
  }

  lemma {:induction false} IsPartBounds(b: seq<Byte>, f: nat, t: nat)
    requires IsPart(b, f, t)
    ensures f < t <= |b|
  {}

  lemma {:induction false} FollowStep(b: seq<Byte>, from: nat, to: nat, query: Query, r: Span)
    requires from < to <= |b| && (query.Step? ==> r == FindIn(b[from..to], query.part))
    ensures query.Done? ==> Follow(b, from, to, query) == Hit(from, to)
    ensures query.Malformed? ==> Follow(b, from, to, query) == Fail(BadParameter)
    ensures query.Step? && r.Missing? ==> Follow(b, from, to, query) == Fail(NotFound)
    ensures query.Step? && r.Span? ==>
              && from + r.from < from + r.to <= |b|
              && Follow(b, from, to, query) == Follow(b, from + r.from, from + r.to, query.rest)
  {
    hide FindIn, IsPart;
    if query.Step? && r.Span? { IsPartBounds(b[from..to], r.from, r.to); }
  }

  method MultiSearch(b: seq<Byte>, q: seq<Byte>) returns (r: Reply)
    requires |b| > 0 && |q| > 0
    ensures r == Follow(b, 0, |b|, Parse(q, 0))
  {
    hide Follow, FindIn, DigitsEnd, DigitsValue, KeyPartEnd, IsDigit, IsPart, MAX_FACTOR;
    var i: nat, from: nat, to: nat := 0, 0, |b|;
    while i < |q|
      invariant i <= |q| && from < to <= |b|
      invariant Follow(b, from, to, Parse(q, i)) == Follow(b, 0, |b|, Parse(q, 0))
      decreases |q| - i
    {
      var found;
      ghost var query := Parse(q, i);
      if q[i] == SQUARE_OPEN {
        DigitsBound(q, i + 1, 0);
        var d, n := SkipDigits(q, i + 1);
        if d == i + 1 || n < 0 || d >= |q| || q[d] != SQUARE_CLOSE {
          FollowStep(b, from, to, Malformed, Missing);
          return Fail(BadParameter);
        }
        i := d + 1;
        found := ArraySearch(b[from..to], n);
      } else {
        var start := i;
        i := SkipQueryPart(q, i);
        if i == start || i == |q| - 1 {
          FollowStep(b, from, to, Malformed, Missing);
          return Fail(BadParameter);
        }
        found := ObjectSearch(b[from..to], q[start..i]);
      }
      FollowStep(b, from, to, query, found);
      if found.Missing? {
        return Fail(NotFound);
      }
      from, to := from + found.from, from + found.to;
      if i < |q| && q[i] == DOT { i := i + 1; }
    }
    FollowStep(b, from, to, Done, Missing);
    return Hit(from, to);
  }

  /** The quotes of a string are left out. */
  function Unquoted(b: seq<Byte>, r: Reply): Reply
    requires r.Hit? ==> IsPart(b, r.from, r.to)
  {
    if r.Hit? && b[r.from] == QUOTE then Hit(r.from + 1, r.to - 1) else r
  }

  function SearchReply(b: seq<Byte>, q: seq<Byte>): Reply {
    if |b| == 0 || |q| == 0 then Fail(BadParameter)
    else
      FollowPart(b, 0, |b|, Parse(q, 0));
      Unquoted(b, Follow(b, 0, |b|, Parse(q, 0)))
  }

  method Search(b: seq<Byte>, q: seq<Byte>) returns (r: Reply)
    ensures r == SearchReply(b, q)
  {
    if |b| == 0 || |q| == 0 {
      return Fail(BadParameter);
    }
    r := MultiSearch(b, q);
    FollowPart(b, 0, |b|, Parse(q, 0));
    if r.Hit? && b[r.from] == QUOTE {
      r := Hit(r.from + 1, r.to - 1);
    }
  }

  // ----- lookup in the tree

  /** A value and where its text starts. */
  datatype Place = Nowhere | Place(value: Value, levels: nat, from: nat)

  function PlaceSpan(p: Place): Span
    requires p.Place? ==> ValidValue(p.value, p.levels)
  {
    if p.Place? then Span(p.from, p.from + |ValueText(p.value, p.levels)|) else Missing
  }

  predicate IsWanted(m: Member, open: Byte, levels: nat, part: Selector)
    requires ValidMember(m, open, levels)
  {
    match part
    case ByKey(key) => m.name.Named? && ItemsText(m.name.key) == key
    case ByIndex(n) => n == 0
  }

  function Chosen(m: Member, open: Byte, levels: nat, from: nat): Place
    requires ValidMember(m, open, levels)
  {
    Place(m.value, levels, from + |m.before| + |NameText(m.name)|)
  }

  /** A key can only be looked for among members that have one. */
  predicate IsEntry(m: Member, part: Selector) { part.ByKey? ==> m.name.Named? }

  /** The first member of a body with the key, or the one with the index. In a loose document the members
      behind a missing comma or a missing key are not looked at. */
  function Select(body: Body, open: Byte, levels: nat, from: nat, part: Selector): (p: Place)
    requires ValidBody(body, open, levels)
    ensures p.Place? ==> ValidValue(p.value, p.levels) && ValueDepth(p.value) <= BodyDepth(body)
    decreases body
  {
    match body
    case Blank(_) => Nowhere
    case Last(m) => if IsWanted(m, open, levels, part) then Chosen(m, open, levels, from) else Nowhere
    case More(m, comma, rest) =>
      if IsWanted(m, open, levels, part) then Chosen(m, open, levels, from)
      else if comma && IsEntry(m, part) then Select(rest, open, levels, Next(from, body, open, levels), Later(part))
      else Nowhere
  }

  function SelectIn(p: Place, part: Selector): (r: Place)
    requires p.Place? && ValidValue(p.value, p.levels)
    ensures r.Place? ==> ValidValue(r.value, r.levels) && ValueDepth(r.value) < ValueDepth(p.value)
  {
    if p.value.Nest? && p.value.open == (if part.ByKey? then CURLY_OPEN else SQUARE_OPEN) then
      Select(p.value.body, p.value.open, p.levels - 1, p.from + 1, part)
    else Nowhere
  }

  datatype Answer = Answer(place: Place) | NoAnswer(status: Status)

  /** The recursive lookup. */
  function Lookup(p: Place, query: Query): (r: Answer)
    requires p.Place? && ValidValue(p.value, p.levels)
    ensures r.Answer? ==> r.place.Place? && ValidValue(r.place.value, r.place.levels)
    decreases query
  {
    match query
    case Done => Answer(p)
    case Malformed => NoAnswer(BadParameter)
    case Step(part, rest) =>
      var r := SelectIn(p, part);
      if r.Nowhere? then NoAnswer(NotFound) else Lookup(r, rest)
  }

  /** What a caller gets of a value: the content of a string, the whole text of anything else. */
  function Content(p: Place): Reply
    requires p.Place? && ValidValue(p.value, p.levels)
  {
    match p.value
    case Leaf(Text(items)) => Hit(p.from + 1, p.from + 1 + |ItemsText(items)|)
    case _ => Hit(p.from, p.from + |ValueText(p.value, p.levels)|)
  }

  // ----- the search agrees with the lookup

  lemma {:induction false} ValueScan(b: seq<Byte>, i: nat, v: Value, levels: nat)
    requires ValidValue(v, levels) && At(b, i, ValueText(v, levels)) && Delimited(b, i + |ValueText(v, levels)|)
    requires ValueDepth(v) <= MAX_DEPTH
    ensures ValueEnd(b, i) == i + |ValueText(v, levels)|
  {
    hide At, ScalarEnd, CollectionFrom, IsPart;
    ValueStart(b, i, v, levels);
    match v
    case Leaf(s) =>
      ScalarScan(b, i, s);
      if b[i] == QUOTE { ValueAtQuote(b, i); }
    case Nest(_, _, _) =>
      NoScalarAtBracket(b, i);
      CollectionSkipped(b, i, v, levels);
  }

  lemma {:induction false} NoEntryAtClose(b: seq<Byte>, i: nat, part: Selector)
    requires i < |b| && IsClose(b[i])
    ensures Find(b, i, part) == Missing
  {
    hide StringEnd, ScalarEnd;
    NoScalarAtBracket(b, i);
  }

  lemma {:induction false} KeyOf(b: seq<Byte>, i: nat, name: Name)
    requires name.Named? && ValidItems(name.key) && At(b, i, NameText(name))
    ensures i + 2 <= StringEnd(b, i)
    ensures b[i + 1..StringEnd(b, i) - 1] == ItemsText(name.key)
  {
    hide StringEnd, ItemsText, ValidItems;
    AtConcat(b, i, StringText(name.key), name.beforeColon + ([COLON] + name.afterColon));
    StringScan(b, i, name.key);
    AtConcat(b, i, [QUOTE], ItemsText(name.key) + [QUOTE]);
    AtConcat(b, i + 1, ItemsText(name.key), [QUOTE]);
  }

  /** One entry: its value, and whether it is the one asked for. */
  lemma {:induction false} EntryScan(b: seq<Byte>, i: nat, m: Member, open: Byte, levels: nat, part: Selector)
    requires ValidMember(m, open, levels) && At(b, i, MemberText(m, open, levels))
    requires ValueDepth(m.value) <= MAX_DEPTH && Delimited(b, i + Core(m, open, levels))
    requires part.ByKey? <==> open == CURLY_OPEN
    ensures var j := SpaceEnd(b, i);
            var k := i + |m.before| + |NameText(m.name)|;
            && j <= k && EntryValue(b, j, part) == k && (IsEntry(m, part) <==> !(part.ByKey? && j == k))
            && ValueEnd(b, k) == k + |ValueText(m.value, levels)| == i + Core(m, open, levels) > k
            && (IsEntry(m, part) ==> (IsHit(b, j, part) <==> IsWanted(m, open, levels, part)))
            && (IsWanted(m, open, levels, part) ==> IsEntry(m, part))
            && At(b, k, ValueText(m.value, levels))
  {
    hide At, MemberText, ValueText, NameText, KeyEnd, StringEnd, SpaceEnd, ValueEnd, AllSpace, ValidItems, IsPart;
    MemberParts(b, i, m, open, levels);
    var j := i + |m.before|;
    var k := j + |NameText(m.name)|;
    ValueScan(b, k, m.value, levels);
    if m.name.Named? {
      NameScan(b, j, m.name);
      KeyOf(b, j, m.name);
    } else if m.value.Nest? {
      ValueStart(b, k, m.value, levels);
      NoScalarAtBracket(b, k);
    }
  }

  /** Among the entries of a collection the scan finds what the lookup selects. */
  lemma {:induction false} SelectFound(b: seq<Byte>, i: nat, body: Body, open: Byte, close: Byte, levels: nat, part: Selector)
    requires IsOpen(open) && IsClose(close) && ValidBody(body, open, levels) && BodyDepth(body) <= MAX_DEPTH
    requires At(b, i, BodyText(body, open, levels) + [close]) && (part.ByKey? <==> open == CURLY_OPEN)
    ensures i <= |b|
    ensures var p := Select(body, open, levels, i, part);
            && Find(b, SpaceEnd(b, i), part) == PlaceSpan(p)
            && (p.Place? ==> At(b, p.from, ValueText(p.value, p.levels)))
    decreases body
  {
    hide At, MemberText, NameText, ValueText, BodyText, ValueEnd, EntryValue, IsHit, IsWanted, SpaceAndComma, SpaceEnd;
    hide AllSpace, ValidMember, Core, IsPart, Delimited;
    if body.Blank? {
      BlankStart(b, i, body, open, close, levels);
      NoEntryAtClose(b, SpaceEnd(b, i), part);
    } else {
      BehindValue(b, i, body, open, close, levels);
      EntryScan(b, i, body.member, open, levels, part);
      if body.More? {
        SelectFound(b, Next(i, body, open, levels), body.rest, open, close, levels, Later(part));
      }
    }
  }

  lemma {:induction false} BlankStart(b: seq<Byte>, i: nat, body: Body, open: Byte, close: Byte, levels: nat)
    requires body.Blank? && ValidBody(body, open, levels) && IsClose(close)
    requires At(b, i, BodyText(body, open, levels) + [close])
    ensures i <= |b| && SpaceEnd(b, i) < |b| && IsClose(b[SpaceEnd(b, i)])
  {
    AtConcat(b, i, body.space, [close]);
    AtByte(b, i + |body.space|, [close], 0);
    SpaceText(b, i, body.space);
  }

  function Moved(p: Place, d: nat): Place {
    if p.Place? then Place(p.value, p.levels, p.from + d) else Nowhere
  }

  lemma {:induction false} SelectMoved(body: Body, open: Byte, levels: nat, from: nat, part: Selector, d: nat)
    requires ValidBody(body, open, levels)
    ensures Select(body, open, levels, from + d, part) == Moved(Select(body, open, levels, from, part), d)
    decreases body
  {
    hide IsWanted, MemberText, NameText, ValidMember, Later;
    if body.More? {
      SelectMoved(body.rest, open, levels, Next(from, body, open, levels), Later(part), d);
    }
  }

  /** One step of a search, in a text with white space around its value. */
  lemma {:induction false} StepFound(b: seq<Byte>, before: seq<Byte>, v: Value, levels: nat, after: seq<Byte>, part: Selector)
    requires AllSpace(before) && ValidValue(v, levels) && ValueDepth(v) <= MAX_DEPTH + 1
    requires b == before + (ValueText(v, levels) + after)
    ensures var p := SelectIn(Place(v, levels, |before|), part);
            && FindIn(b, part) == PlaceSpan(p)
            && (p.Place? ==> At(b, p.from, ValueText(p.value, p.levels)))
  {
    hide At, ValueText, BodyText, Find, SpaceEnd, AllSpace, IsPart, Select;
    var i := |before|;
    AtWhole(b);
    AtConcat(b, 0, before, ValueText(v, levels) + after);
    AtConcat(b, i, ValueText(v, levels), after);
    ValueStart(b, i, v, levels);
    SpaceText(b, 0, before);
    if v.Nest? && v.open == (if part.ByKey? then CURLY_OPEN else SQUARE_OPEN) {
      NestParts(b, i, v, levels);
      SelectFound(b, i + 1, v.body, v.open, v.close, levels - 1, part);
    }
  }

  lemma {:induction false} SelectInMoved(p: Place, part: Selector, d: nat)
    requires p.Place? && ValidValue(p.value, p.levels)
    ensures SelectIn(Moved(p, d), part) == Moved(SelectIn(p, part), d)
  {
    hide Select;
    if p.value.Nest? {
      SelectMoved(p.value.body, p.value.open, p.levels - 1, p.from + 1, part, d);
    }
  }

  lemma {:induction false} AtPart(b: seq<Byte>, from: nat, to: nat, i: nat, t: seq<Byte>)
    requires from <= to <= |b| && At(b[from..to], i, t)
    ensures At(b, from + i, t) && t + [] == t == [] + (t + [])
  {
    var w := b[from..to];
    var x, y := w[i..i + |t|], b[from + i..from + i + |t|];
    assert forall k :: 0 <= k < |t| ==> x[k] == y[k];
  }

  /** Following a query through slices of the buffer is the lookup in the tree. */
  lemma {:induction false} FollowLookup(b: seq<Byte>, from: nat, to: nat, before: seq<Byte>, v: Value, levels: nat,
                                        after: seq<Byte>, query: Query)
    requires from < to <= |b| && ValidValue(v, levels) && b[from..to] == before + (ValueText(v, levels) + after)
    requires AllSpace(before) && ValueDepth(v) <= MAX_DEPTH + 1
    requires query.Done? ==> before == [] == after
    ensures var r := Lookup(Place(v, levels, from + |before|), query);
            && (r.NoAnswer? ==> Follow(b, from, to, query) == Fail(r.status))
            && (r.Answer? ==>
                  && At(b, r.place.from, ValueText(r.place.value, r.place.levels))
                  && Follow(b, from, to, query)
                     == Hit(r.place.from, r.place.from + |ValueText(r.place.value, r.place.levels)|))
    decreases query
  {
    hide At, ValueText, FindIn, SelectIn, IsPart, ValidValue;
    if query.Step? {
      StepFound(b[from..to], before, v, levels, after, query.part);
      var p := SelectIn(Place(v, levels, |before|), query.part);
      SelectInMoved(Place(v, levels, |before|), query.part, from);
      FollowStep(b, from, to, query, PlaceSpan(p));
      if p.Place? {
        var t := ValueText(p.value, p.levels);
        AtPart(b, from, to, p.from, t);
        AtSlice(b, from + p.from, t);
        FollowLookup(b, from + p.from, from + p.from + |t|, [], p.value, p.levels, [], query.rest);
      }
    } else if query.Done? {
      WholeAt(b, from, to, ValueText(v, levels));
    }
  }

  lemma {:induction false} AtSlice(b: seq<Byte>, i: nat, t: seq<Byte>)
    requires At(b, i, t)
    ensures i + |t| <= |b| && b[i..i + |t|] == t
  {}

  lemma {:induction false} WholeAt(b: seq<Byte>, from: nat, to: nat, t: seq<Byte>)
    requires from <= to <= |b| && b[from..to] == [] + (t + [])
    ensures At(b, from, t) && to == from + |t|
  {}

  /** On every document, also the loose ones, whose members are nested at most 32 deep, and for every query,
      the search answers what the lookup in the tree answers. */
  lemma {:induction false} SearchAgrees(before: seq<Byte>, v: Value, levels: nat, after: seq<Byte>, q: seq<Byte>)
    requires AllSpace(before) && ValidValue(v, levels) && ValueDepth(v) <= MAX_DEPTH + 1 && q != []
    ensures SearchReply(before + (ValueText(v, levels) + after), q)
            == match Lookup(Place(v, levels, |before|), Parse(q, 0))
               case Answer(p) => Content(p)
               case NoAnswer(status) => Fail(status)
  {
    hide ValueText, Parse, Lookup, Follow, IsPart, At;
    var b := before + (ValueText(v, levels) + after);
    assert b[0..|b|] == b;
    ParseNotDone(q);
    FollowLookup(b, 0, |b|, before, v, levels, after, Parse(q, 0));
    var r := Lookup(Place(v, levels, |before|), Parse(q, 0));
    FollowPart(b, 0, |b|, Parse(q, 0));
    if r.Answer? { QuotedContent(b, r.place); }
  }

  lemma {:induction false} ParseNotDone(q: seq<Byte>)
    requires q != []
    ensures !Parse(q, 0).Done?
  {}

  lemma {:induction false} QuotedContent(b: seq<Byte>, p: Place)
    requires p.Place? && ValidValue(p.value, p.levels) && At(b, p.from, ValueText(p.value, p.levels))
    ensures var to := p.from + |ValueText(p.value, p.levels)|;
            && p.from < |b|
            && (b[p.from] == QUOTE ==> Content(p) == Hit(p.from + 1, to - 1))
            && (b[p.from] != QUOTE ==> Content(p) == Hit(p.from, to))
  {
    AtByte(b, p.from, ValueText(p.value, p.levels), 0);
    if p.value.Leaf? && p.value.scalar.Number? { assert p.value.scalar.whole[0] in p.value.scalar.whole; }
  }

  // ----- rendered paths

  datatype PathStep = Name(key: seq<Byte>) | Element(digits: seq<Byte>)

  predicate ValidStep(s: PathStep) {
    match s
    case Name(key) => key != [] && forall c <- key :: c != DOT && c != SQUARE_OPEN
    case Element(digits) => digits != [] && AllDigits(digits)
  }

  predicate ValidPath(path: seq<PathStep>) { forall s <- path :: ValidStep(s) }

  /** Keys are set off by dots, indexes stand in square brackets: a.b[3].c */
  function Render(path: seq<PathStep>): seq<Byte> {
    if path == [] then [] else StepText(path[0]) + (Separator(path[1..]) + Render(path[1..]))
  }

  function StepText(s: PathStep): seq<Byte> {
    match s
    case Name(key) => key
    case Element(digits) => [SQUARE_OPEN] + (digits + [SQUARE_CLOSE])
  }

  function Separator(path: seq<PathStep>): seq<Byte> {
    if path != [] && path[0].Name? then [DOT] else []
  }

  function Decimal(digits: seq<Byte>, value: nat): nat
    requires AllDigits(digits)
  {
    if digits == [] then value else
      assert digits[0] in digits;
      Decimal(digits[1..], value * 10 + (digits[0] - ZERO))
  }

  const MAX_INDEX: nat := 0x7FFF_FFF7

  /** What a path asks for; an index above the limit makes the query malformed. */
  function QueryOf(path: seq<PathStep>): Query
    requires ValidPath(path)
  {
    if path == [] then Done
    else match path[0]
         case Name(key) => Step(ByKey(key), QueryOf(path[1..]))
         case Element(digits) =>
           assert ValidStep(path[0]);
           if Decimal(digits, 0) <= MAX_INDEX then Step(ByIndex(Decimal(digits, 0)), QueryOf(path[1..])) else Malformed
  }

  lemma {:induction false} DecimalGrows(d: seq<Byte>, value: nat)
    requires AllDigits(d)
    ensures value <= Decimal(d, value)
    decreases |d|
  {
    if d != [] {
      assert d[0] in d;
      DecimalGrows(d[1..], value * 10 + (d[0] - ZERO));
    }
  }

  lemma {:induction false} DigitsHead(d: seq<Byte>)
    requires d != [] && AllDigits(d)
    ensures d == [d[0]] + d[1..] && IsDigit(d[0]) && AllDigits(d[1..])
  {}

  lemma {:induction false} DigitsParsed(q: seq<Byte>, i: nat, d: seq<Byte>, value: int)
    requires AllDigits(d) && At(q, i, d) && (i + |d| < |q| ==> !IsDigit(q[i + |d|])) && -1 <= value <= MAX_INDEX
    ensures DigitsValue(q, i, value)
            == if value >= 0 && Decimal(d, value) <= MAX_INDEX then Decimal(d, value) else -1
    decreases |d|
  {
    hide At, AllDigits;
    if d != [] {
      DigitsHead(d);
      AtConcat(q, i, [d[0]], d[1..]);
      AtByte(q, i, d, 0);
      if 0 <= value {
        if value > MAX_FACTOR { DecimalGrows(d[1..], value * 10 + (d[0] - ZERO)); }
      }
      DigitsParsed(q, i + 1, d[1..], if 0 <= value <= MAX_FACTOR then value * 10 + (d[0] - ZERO) else -1);
    }
  }

  lemma {:induction false} KeyParsed(q: seq<Byte>, i: nat, key: seq<Byte>)
    requires At(q, i, key) && forall c <- key :: c != DOT && c != SQUARE_OPEN
    requires i + |key| < |q| ==> q[i + |key|] == DOT || q[i + |key|] == SQUARE_OPEN
    ensures KeyPartEnd(q, i) == i + |key|
    decreases |key|
  {
    if key != [] {
      assert key == [key[0]] + key[1..] && key[0] in key;
      AtConcat(q, i, [key[0]], key[1..]);
      AtByte(q, i, key, 0);
      assert forall c <- key[1..] :: c in key;
      KeyParsed(q, i + 1, key[1..]);
    }
  }

  /** What stands behind a step of a rendered path. */
  lemma {:induction false} BehindStep(q: seq<Byte>, i: nat, path: seq<PathStep>)
    requires ValidPath(path) && At(q, i, Separator(path) + Render(path)) && i + |Separator(path) + Render(path)| == |q|
    ensures path == [] <==> i == |q|
    ensures path != [] ==> i + 1 < |q| && (q[i] == DOT || q[i] == SQUARE_OPEN) && (q[i] == DOT <==> path[0].Name?)
    ensures PastDot(q, i) == i + |Separator(path)|
    ensures At(q, PastDot(q, i), Render(path)) && PastDot(q, i) + |Render(path)| == |q|
  {
    AtConcat(q, i, Separator(path), Render(path));
    if path != [] {
      assert ValidStep(path[0]);
      var t := Separator(path) + Render(path);
      AtByte(q, i, t, 0);
    }
  }

  /** Parsing a rendered path gives back its parts. */
  lemma {:induction false} ParseRender(q: seq<Byte>, i: nat, path: seq<PathStep>)
    requires ValidPath(path) && At(q, i, Render(path)) && i + |Render(path)| == |q|
    ensures Parse(q, i) == QueryOf(path)
    decreases |path|
  {
    hide At, Separator, Parse, PastDot, AllDigits, StepText, Decimal, ValidStep;
    if path == [] {
      ParseEnd(q);
    } else if path != [] {
      var s, rest := path[0], path[1..];
      assert ValidStep(s);
      var t := StepText(s);
      AtConcat(q, i, t, Separator(rest) + Render(rest));
      BehindStep(q, i + |t|, rest);
      ParseRender(q, PastDot(q, i + |t|), rest);
      StepTextFacts(s);
      if s.Name? { NameParsed(q, i, s.key); } else { ElementParsed(q, i, s.digits); }
    }
  }

  lemma {:induction false} ParseEnd(q: seq<Byte>)
    ensures Parse(q, |q|) == Done
  {}

  lemma {:induction false} StepTextFacts(s: PathStep)
    ensures s.Name? ==> StepText(s) == s.key
    ensures s.Element? ==> |StepText(s)| == |s.digits| + 2
  {}

  predicate PartFollows(q: seq<Byte>, j: nat) {
    j < |q| ==> j + 1 < |q| && (q[j] == DOT || q[j] == SQUARE_OPEN)
  }

  lemma {:induction false} NameParsed(q: seq<Byte>, i: nat, key: seq<Byte>)
    requires ValidStep(Name(key)) && At(q, i, key) && PartFollows(q, i + |key|)
    ensures Parse(q, i) == Step(ByKey(key), Parse(q, PastDot(q, i + |key|)))
  {
    hide KeyPartEnd, PastDot;
    AtByte(q, i, key, 0);
    assert key[0] in key;
    KeyParsed(q, i, key);
  }

  lemma {:induction false} ElementParsed(q: seq<Byte>, i: nat, d: seq<Byte>)
    requires ValidStep(Element(d)) && At(q, i, StepText(Element(d)))
    ensures Parse(q, i) == if Decimal(d, 0) <= MAX_INDEX then
                             Step(ByIndex(Decimal(d, 0)), Parse(q, PastDot(q, i + |d| + 2)))
                           else Malformed
  {
    hide At, DigitsEnd, DigitsValue, PastDot, AllDigits, Decimal;
    AtConcat(q, i, [SQUARE_OPEN], d + [SQUARE_CLOSE]);
    AtConcat(q, i + 1, d, [SQUARE_CLOSE]);
    AtByte(q, i, [SQUARE_OPEN], 0);
    AtByte(q, i + 1 + |d|, [SQUARE_CLOSE], 0);
    DigitsText(q, i + 1, d);
    DigitsParsed(q, i + 1, d, 0);
  }

  /** Searching for a rendered path is looking the path up. */
  lemma {:induction false} PathSearch(before: seq<Byte>, v: Value, levels: nat, after: seq<Byte>, path: seq<PathStep>)
    requires AllSpace(before) && ValidValue(v, levels) && ValueDepth(v) <= MAX_DEPTH + 1
    requires path != [] && ValidPath(path)
    ensures SearchReply(before + (ValueText(v, levels) + after), Render(path))
            == match Lookup(Place(v, levels, |before|), QueryOf(path))
               case Answer(p) => Content(p)
               case NoAnswer(status) => Fail(status)
  {
    hide ValueText, Parse, Lookup, SearchReply, Render, At, Content;
    AtWhole(Render(path));
    ParseRender(Render(path), 0, path);
    assert Render(path) != [] by { RenderNotEmpty(path); }
    SearchAgrees(before, v, levels, after, Render(path));
  }

  lemma {:induction false} RenderNotEmpty(path: seq<PathStep>)
    requires path != [] && ValidPath(path)
    ensures Render(path) != []
  {
    assert ValidStep(path[0]);
  }
}
