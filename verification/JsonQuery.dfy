/** Which queries the search understands: rendered paths with more or fewer separators, and nothing else. */
module JsonQuery {
  import opened Bytes
  import opened JsonScan
  import opened JsonGrammar
  import opened JsonFound
  import opened JsonSearch

  /** No part of the query is malformed. */
  predicate WellFormed(query: Query) {
    match query
    case Done => true
    case Malformed => false
    case Step(_, rest) => WellFormed(rest)
  }

  function LastPart(query: Query): Query {
    match query
    case Step(_, Step(_, _)) => LastPart(query.rest)
    case _ => query
  }

  predicate EndsWithIndex(query: Query) { LastPart(query).Step? && LastPart(query).part.ByIndex? }

  // ----- a separator at the end

  lemma {:induction false} KeyPartLonger(q: seq<Byte>, i: nat)
    requires i <= |q|
    ensures KeyPartEnd(q + [DOT], i) == KeyPartEnd(q, i)
    decreases |q| - i
  {
    if i < |q| {
      assert (q + [DOT])[i] == q[i];
      KeyPartLonger(q, i + 1);
    }
  }

  lemma {:induction false} DigitsLonger(q: seq<Byte>, i: nat, value: int)
    requires i <= |q|
    ensures DigitsEnd(q + [DOT], i) == DigitsEnd(q, i) && DigitsValue(q + [DOT], i, value) == DigitsValue(q, i, value)
    decreases |q| - i
  {
    if i < |q| {
      assert (q + [DOT])[i] == q[i];
      if IsDigit(q[i]) { DigitsLonger(q, i + 1, if 0 <= value <= MAX_FACTOR then value * 10 + (q[i] - ZERO) else -1); }
    }
  }

  /** The first part of a query, ending at j, and the same with a separator added to the query. */
  predicate SamePart(q: seq<Byte>, i: nat, j: nat)
    requires i < j <= |q|
  {
    var r := q + [DOT];
    && Parse(q, i).Step? && Parse(q, i).rest == Parse(q, PastDot(q, j))
    && (j == |q| ==> q[|q| - 1] != DOT)
    && Parse(r, i) == if j == |q| && Parse(q, i).part.ByKey? then Malformed
                      else Step(Parse(q, i).part, Parse(r, PastDot(r, j)))
  }

  lemma {:induction false} SameIndex(q: seq<Byte>, i: nat) returns (j: nat)
    requires i < |q| && Parse(q, i).Step? && q[i] == SQUARE_OPEN
    ensures i < j <= |q| && SamePart(q, i, j)
  {
    hide DigitsEnd, DigitsValue, PastDot;
    DigitsLonger(q, i + 1, 0);
    j := DigitsEnd(q, i + 1) + 1;
    assert (q + [DOT])[i] == q[i] && (q + [DOT])[j - 1] == q[j - 1];
  }

  lemma {:induction false} SameKey(q: seq<Byte>, i: nat) returns (j: nat)
    requires i < |q| && Parse(q, i).Step? && q[i] != SQUARE_OPEN
    ensures i < j <= |q| && SamePart(q, i, j)
  {
    hide KeyPartEnd, PastDot;
    KeyPartLonger(q, i);
    j := KeyPartEnd(q, i);
    if j == |q| { NoDotInKey(q, i); }
    assert (q + [DOT])[i] == q[i] && (q + [DOT])[i..j] == q[i..j];
  }

  lemma {:induction false} SameFirst(q: seq<Byte>, i: nat) returns (j: nat)
    requires i < |q| && Parse(q, i).Step?
    ensures i < j <= |q| && SamePart(q, i, j)
    ensures j < |q| ==> PastDot(q + [DOT], j) == PastDot(q, j)
    ensures j == |q| ==> PastDot(q + [DOT], j) == |q| + 1 && PastDot(q, j) == |q|
  {
    if q[i] == SQUARE_OPEN { j := SameIndex(q, i); } else { j := SameKey(q, i); }
    assert j < |q| ==> (q + [DOT])[j] == q[j];
  }

  /** One more separator behind a query that has none at its end: behind an index it is ignored, behind a key
      it makes the query malformed. */
  lemma {:induction false} DotBehind(q: seq<Byte>, i: nat)
    requires i < |q| && WellFormed(Parse(q, i)) && q[|q| - 1] != DOT
    ensures EndsWithIndex(Parse(q, i)) ==> Parse(q + [DOT], i) == Parse(q, i)
    ensures !EndsWithIndex(Parse(q, i)) ==> !WellFormed(Parse(q + [DOT], i))
    decreases |q| - i
  {
    assert Parse(q, i).Step?;
    ParseEnd(q);
    ParseEnd(q + [DOT]);
    var j := SameFirst(q, i);
    if j < |q| {
      var k := PastDot(q, j);
      assert k < |q|;
      DotBehind(q, k);
      assert Parse(q, k).Step?;
      hide Parse, PastDot;
    }
  }

  /** And a second separator behind the first one is never accepted. */
  lemma {:induction false} TwoDotsBehind(q: seq<Byte>, i: nat)
    requires i < |q| && WellFormed(Parse(q, i)) && q[|q| - 1] == DOT
    ensures !WellFormed(Parse(q + [DOT], i))
    decreases |q| - i
  {
    assert Parse(q, i).Step?;
    var j := SameFirst(q, i);
    var k := PastDot(q, j);
    if k < |q| { TwoDotsBehind(q, k); } else { OnlyDot(q); }
  }

  lemma {:induction false} OnlyDot(q: seq<Byte>)
    ensures Parse(q + [DOT], |q|) == Malformed
  {
    assert (q + [DOT])[|q|] == DOT;
    assert KeyPartEnd(q + [DOT], |q|) == |q|;
  }

  lemma {:induction false} NoDotInKey(q: seq<Byte>, i: nat)
    requires i < |q| && KeyPartEnd(q, i) == |q|
    ensures q[|q| - 1] != DOT
    decreases |q| - i
  {
    if i + 1 < |q| { NoDotInKey(q, i + 1); }
  }

  /** The documented refusal of a query with nothing behind its last separator: among the queries that are
      understood, adding a separator at the end is refused exactly when the query ends with a key or with a
      separator already. Otherwise the search answers as if it were not there. */
  lemma {:induction false} TrailingSeparator(b: seq<Byte>, q: seq<Byte>)
    requires q != [] && WellFormed(Parse(q, 0))
    ensures WellFormed(Parse(q + [DOT], 0)) <==> EndsWithIndex(Parse(q, 0)) && q[|q| - 1] != DOT
    ensures WellFormed(Parse(q + [DOT], 0)) ==> SearchReply(b, q + [DOT]) == SearchReply(b, q)
  {
    hide Parse, Follow, Unquoted;
    if q[|q| - 1] == DOT { TwoDotsBehind(q, 0); } else { DotBehind(q, 0); }
  }

  // ----- the queries that are understood

  /** A step of a path, and whether a separator stands behind it. */
  datatype Part = Part(step: PathStep, dot: bool)

  /** Between two keys there is exactly one separator, and none behind a key at the end. Next to an index
      separators may be there or not. */
  predicate ValidParts(parts: seq<Part>) {
    parts != [] ==>
      var s := parts[0].step;
      && ValidStep(s) && (s.Element? ==> Decimal(s.digits, 0) <= 0x7FFF_FFF7)
      && (s.Name? && |parts| == 1 ==> !parts[0].dot)
      && (s.Name? && |parts| > 1 && parts[1].step.Name? ==> parts[0].dot)
      && ValidParts(parts[1..])
  }

  function PartText(p: Part): seq<Byte> { StepText(p.step) + if p.dot then [DOT] else [] }

  function PartsText(parts: seq<Part>): seq<Byte> {
    if parts == [] then [] else PartText(parts[0]) + PartsText(parts[1..])
  }

  lemma {:induction false} TextOfParts(parts: seq<Part>)
    ensures PartsText(parts) == if parts == [] then [] else PartText(parts[0]) + PartsText(parts[1..])
  {}

  function Steps(parts: seq<Part>): (path: seq<PathStep>)
    ensures ValidParts(parts) ==> ValidPath(path)
  {
    if parts == [] then [] else [parts[0].step] + Steps(parts[1..])
  }

  lemma {:induction false} FirstByte(q: seq<Byte>, i: nat, parts: seq<Part>)
    requires parts != [] && ValidParts(parts) && At(q, i, PartsText(parts))
    ensures i < |q| && q[i] != DOT && (q[i] == SQUARE_OPEN <==> parts[0].step.Element?)
    ensures parts[0].step.Element? ==> i + 1 < |q|
  {
    var s := parts[0].step;
    AtConcat(q, i, PartText(parts[0]), PartsText(parts[1..]));
    AtConcat(q, i, StepText(s), if parts[0].dot then [DOT] else []);
    AtByte(q, i, StepText(s), 0);
    assert s.Name? ==> s.key[0] in s.key;
  }

  /** What stands behind a step. */
  lemma {:induction false} BehindPart(q: seq<Byte>, i: nat, parts: seq<Part>)
    requires parts != [] && ValidParts(parts) && At(q, i, PartsText(parts)) && i + |PartsText(parts)| == |q|
    ensures var t, rest := StepText(parts[0].step), PartsText(parts[1..]);
            var j := i + |t|;
            && At(q, i, t) && j <= |q| && PastDot(q, j) == j + (if parts[0].dot then 1 else 0)
            && At(q, PastDot(q, j), rest) && PastDot(q, j) + |rest| == |q|
            && (parts[0].step.Name? ==> PartFollows(q, j))
  {
    hide At, ValidStep, StepText, Decimal, PartsText;
    assert PartsText(parts) == PartText(parts[0]) + PartsText(parts[1..]) by { TextOfParts(parts); }
    var p, more := parts[0], parts[1..];
    var t, d := StepText(p.step), if p.dot then [DOT] else [];
    var j := i + |t|;
    AtConcat(q, i, PartText(p), PartsText(more));
    AtConcat(q, i, t, d);
    if p.dot { AtByte(q, j, d, 0); }
    if more != [] { FirstByte(q, j + |d|, more); } else { TextOfParts(more); }
  }

  /** A path with separators is parsed to its steps. */
  lemma {:induction false} PartsParsed(q: seq<Byte>, i: nat, parts: seq<Part>)
    requires ValidParts(parts) && At(q, i, PartsText(parts)) && i + |PartsText(parts)| == |q|
    ensures Parse(q, i) == QueryOf(Steps(parts)) && WellFormed(Parse(q, i))
    decreases |parts|
  {
    hide At, Parse, PastDot, AllDigits, StepText, Decimal, ValidStep, PartFollows, PartText;
    if parts == [] {
      ParseEnd(q);
    } else {
      var s, rest := parts[0].step, parts[1..];
      BehindPart(q, i, parts);
      PartsParsed(q, PastDot(q, i + |StepText(s)|), rest);
      StepTextFacts(s);
      assert Steps(parts)[1..] == Steps(rest);
      if s.Name? { NameParsed(q, i, s.key); } else { ElementParsed(q, i, s.digits); }
    }
  }

  lemma {:induction false} KeyChars(q: seq<Byte>, i: nat)
    requires i <= |q|
    ensures forall c <- q[i..KeyPartEnd(q, i)] :: c != DOT && c != SQUARE_OPEN
    decreases |q| - i
  {
    var k := KeyPartEnd(q, i);
    if k > i {
      KeyChars(q, i + 1);
      assert q[i..k] == [q[i]] + q[i + 1..k];
    }
  }

  /** The first part of a query that is understood, and where the next one starts. */
  predicate IsFirst(q: seq<Byte>, i: nat, p: Part, j: nat)
    requires i < |q|
  {
    && i < j <= |q| && PartText(p) == q[i..j] && Parse(q, i).Step? && Parse(q, i).rest == Parse(q, j)
    && ValidStep(p.step) && (p.step.Element? ==> Decimal(p.step.digits, 0) <= MAX_INDEX)
    && (p.step.Name? <==> q[i] != SQUARE_OPEN)
    && (p.step.Name? ==> (j == |q| ==> !p.dot) && (j < |q| && q[j] != SQUARE_OPEN ==> p.dot))
  }

  lemma {:induction false} OneByte(q: seq<Byte>, i: nat)
    requires i < |q|
    ensures q[i..i + 1] == [q[i]]
  {}

  lemma {:induction false} FirstIndex(q: seq<Byte>, i: nat) returns (p: Part, j: nat)
    requires i < |q| && Parse(q, i).Step? && q[i] == SQUARE_OPEN
    ensures IsFirst(q, i, p, j)
  {
    hide DigitsEnd, DigitsValue, Decimal, AllDigits;
    var d := DigitsEnd(q, i + 1);
    var digits := q[i + 1..d];
    DigitsFound(q, i + 1);
    DigitsParsed(q, i + 1, digits, 0);
    j := PastDot(q, d + 1);
    p := Part(Element(digits), j > d + 1);
    assert q[d] == SQUARE_CLOSE && q[i] == SQUARE_OPEN;
    OneByte(q, i);
    OneByte(q, d);
    assert q[i..d + 1] == q[i..i + 1] + (digits + q[d..d + 1]);
    assert q[i..j] == q[i..d + 1] + if j > d + 1 then [DOT] else [];
  }

  lemma {:induction false} FirstKey(q: seq<Byte>, i: nat) returns (p: Part, j: nat)
    requires i < |q| && Parse(q, i).Step? && q[i] != SQUARE_OPEN
    ensures IsFirst(q, i, p, j)
  {
    hide KeyPartEnd, Decimal;
    var k := KeyPartEnd(q, i);
    KeyChars(q, i);
    j := PastDot(q, k);
    p := Part(Name(q[i..k]), j > k);
    assert q[i..j] == q[i..k] + if j > k then [DOT] else [];
  }

  lemma {:induction false} PartsFound(q: seq<Byte>, i: nat) returns (parts: seq<Part>)
    requires i <= |q| && WellFormed(Parse(q, i))
    ensures ValidParts(parts) && PartsText(parts) == q[i..]
    ensures parts == [] <==> i == |q|
    ensures i < |q| ==> (parts[0].step.Name? <==> q[i] != SQUARE_OPEN)
    decreases |q| - i
  {
    hide At, ValidStep, Decimal, PartText;
    if i == |q| {
      parts := [];
    } else {
      assert Parse(q, i).Step?;
      hide Parse;
      var p, j;
      if q[i] == SQUARE_OPEN { p, j := FirstIndex(q, i); } else { p, j := FirstKey(q, i); }
      var rest := PartsFound(q, j);
      parts := [p] + rest;
      assert parts[1..] == rest;
      assert q[i..] == q[i..j] + q[j..];
    }
  }

  ghost predicate IsPathText(q: seq<Byte>) { exists parts :: ValidParts(parts) && PartsText(parts) == q }

  /** A query is understood exactly when it is the text of a path, with a separator between two keys and
      optional ones next to indexes. */
  lemma {:induction false} QueryUnderstood(q: seq<Byte>)
    ensures WellFormed(Parse(q, 0)) <==> IsPathText(q)
  {
    if WellFormed(Parse(q, 0)) {
      var parts := PartsFound(q, 0);
      assert q[0..] == q;
    }
    if IsPathText(q) {
      var parts :| ValidParts(parts) && PartsText(parts) == q;
      PartsParsed(q, 0, parts) by { assert q[0..0 + |q|] == q; }
    }
  }

  /** An index is understood exactly up to 2147483639: the eight largest that a signed 32-bit integer holds are refused. */
  lemma {:induction false} LargestIndex(digits: seq<Byte>)
    requires digits != [] && AllDigits(digits)
    ensures WellFormed(Parse([SQUARE_OPEN] + (digits + [SQUARE_CLOSE]), 0)) <==> Decimal(digits, 0) <= 2_147_483_639
  {
    hide AllDigits, Decimal, Parse;
    var path, q := [Element(digits)], [SQUARE_OPEN] + (digits + [SQUARE_CLOSE]);
    assert path[1..] == [];
    assert Render(path) == q + ([] + []) == q;
    assert forall s <- path :: s == Element(digits);
    assert q[0..|q|] == q;
    ParseRender(q, 0, path);
  }

  /** Separators that are ignored, behind an index at the end and in front of one, one that is left out, and
      one that is refused. */
  lemma {:induction false} LooseQueries()
    ensures Parse([SQUARE_OPEN, ZERO, SQUARE_CLOSE, DOT], 0) == Step(ByIndex(0), Done)
    ensures Parse([SQUARE_OPEN, ZERO, SQUARE_CLOSE, 97], 0) == Step(ByIndex(0), Step(ByKey([97]), Done))
    ensures Parse([97, DOT, SQUARE_OPEN, ZERO, SQUARE_CLOSE], 0) == Step(ByKey([97]), Step(ByIndex(0), Done))
    ensures Parse([97, DOT], 0) == Malformed
  {
    var q := [SQUARE_OPEN, ZERO, SQUARE_CLOSE, 97];
    assert DigitsEnd(q, 1) == 2 && DigitsValue(q, 2, 0) == 0 && DigitsValue(q, 1, 0) == 0;
    assert KeyPartEnd(q, 4) == 4 && KeyPartEnd(q, 3) == 4 && q[3..4] == [97];
    assert Parse(q, 3) == Step(ByKey([97]), Done);
    var r := [SQUARE_OPEN, ZERO, SQUARE_CLOSE, DOT];
    assert DigitsEnd(r, 1) == 2 && DigitsValue(r, 2, 0) == 0 && DigitsValue(r, 1, 0) == 0;
    var u := [97, DOT, SQUARE_OPEN, ZERO, SQUARE_CLOSE];
    assert KeyPartEnd(u, 1) == 1 && KeyPartEnd(u, 0) == 1 && u[0..1] == [97];
    assert DigitsEnd(u, 3) == 4 && DigitsValue(u, 4, 0) == 0 && DigitsValue(u, 3, 0) == 0;
    assert Parse(u, 2) == Step(ByIndex(0), Done);
    assert KeyPartEnd([97, DOT], 1) == 1 && KeyPartEnd([97, DOT], 0) == 1;
  }
}
