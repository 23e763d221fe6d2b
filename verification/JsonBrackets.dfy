/** What acceptance means for arbitrary input: outside strings, all brackets but the outermost pair are
    properly paired, and no more than 32 are open at once. */
module JsonBrackets {
  import opened Bytes
  import opened JsonScan
  import opened JsonCollection
  import opened JsonGrammar
  import D = JsonDocument

  /** Where the next token behind i starts: a complete string is one token, any other byte is one. */
  function Next(b: seq<Byte>, i: nat): (j: nat)
    requires i < |b|
    ensures i < j <= |b|
  {
    if StringEnd(b, i) > i then StringEnd(b, i) else i + 1
  }

  /** The token walk from i comes by j. */
  predicate Reaches(b: seq<Byte>, i: nat, j: nat)
    requires i <= |b|
    decreases |b| - i
  {
    i == j || (i < j && i < |b| && Reaches(b, Next(b, i), j))
  }

  predicate IsBracket(c: Byte) { IsOpen(c) || IsClose(c) }

  /** The brackets outside strings between i and j. */
  function Skeleton(b: seq<Byte>, i: nat, j: nat): seq<Byte>
    requires i <= |b|
    decreases |b| - i
  {
    if i >= j || i == |b| then []
    else (if IsBracket(b[i]) then [b[i]] else []) + Skeleton(b, Next(b, i), j)
  }

  datatype Stack = Mismatch | Open(brackets: seq<Byte>)

  /** Reads brackets against a stack of open ones. */
  function Read(stack: seq<Byte>, s: seq<Byte>): Stack
    decreases |s|
  {
    if s == [] then Open(stack)
    else if IsOpen(s[0]) then
      if |stack| < MAX_DEPTH then Read(stack + [s[0]], s[1..]) else Mismatch
    else if stack != [] && IsPair(stack[|stack| - 1], s[0]) then Read(stack[..|stack| - 1], s[1..])
    else Mismatch
  }

  /** Properly paired brackets that leave the stack as it was. */
  predicate Paired(stack: seq<Byte>, s: seq<Byte>) { Read(stack, s) == Open(stack) }

  lemma {:induction false} ReadConcat(stack: seq<Byte>, s: seq<Byte>, t: seq<Byte>)
    requires Read(stack, s).Open?
    ensures Read(stack, s + t) == Read(Read(stack, s).brackets, t)
    decreases |s|
  {
    if s == [] {
      assert s + t == t;
    } else {
      assert (s + t)[1..] == s[1..] + t;
      ReadConcat(if IsOpen(s[0]) then stack + [s[0]] else stack[..|stack| - 1], s[1..], t);
    }
  }

  /** A nested pair followed by more. */
  lemma {:induction false} PairedNest(stack: seq<Byte>, open: Byte, inner: seq<Byte>, close: Byte, rest: seq<Byte>)
    requires |stack| < MAX_DEPTH && IsOpen(open) && IsPair(open, close)
    requires Paired(stack + [open], inner) && Paired(stack, rest)
    ensures Paired(stack, [open] + inner + [close] + rest)
  {
    var s := inner + ([close] + rest);
    assert ([open] + inner + [close] + rest)[1..] == s;
    ReadConcat(stack + [open], inner, [close] + rest);
    assert ([close] + rest)[1..] == rest && (stack + [open])[..|stack|] == stack;
  }

  // ----- the walk

  lemma {:induction false} SkeletonSplit(b: seq<Byte>, i: nat, j: nat, k: nat)
    requires i <= j <= k <= |b| && Reaches(b, i, j)
    ensures Skeleton(b, i, k) == Skeleton(b, i, j) + Skeleton(b, j, k)
    ensures Reaches(b, j, k) ==> Reaches(b, i, k)
    decreases |b| - i
  {
    hide Next;
    if i < j {
      ReachesForward(b, Next(b, i), j);
      SkeletonSplit(b, Next(b, i), j, k);
    }
  }

  lemma {:induction false} ReachesForward(b: seq<Byte>, i: nat, j: nat)
    requires i <= |b| && Reaches(b, i, j)
    ensures i <= j <= |b|
    decreases |b| - i
  {
    if i < j {
      ReachesForward(b, Next(b, i), j);
    }
  }

  /** The walk gets from i to j without meeting a bracket. */
  predicate Quiet(b: seq<Byte>, i: nat, j: nat) {
    i <= j <= |b| && Reaches(b, i, j) && Skeleton(b, i, j) == []
  }

  lemma {:induction false} QuietJoin(b: seq<Byte>, i: nat, j: nat, k: nat)
    requires Quiet(b, i, j) && Quiet(b, j, k)
    ensures Quiet(b, i, k)
  {
    SkeletonSplit(b, i, j, k);
  }

  lemma {:induction false} QuietSkip(b: seq<Byte>, i: nat, j: nat, k: nat)
    requires Quiet(b, i, j) && j <= k <= |b|
    ensures Skeleton(b, i, k) == Skeleton(b, j, k)
    ensures Reaches(b, j, k) ==> Reaches(b, i, k)
  {
    SkeletonSplit(b, i, j, k);
  }

  lemma {:induction false} QuietByte(b: seq<Byte>, i: nat)
    requires i < |b| && b[i] != QUOTE && !IsBracket(b[i])
    ensures Quiet(b, i, i + 1)
  {}

  lemma {:induction false} QuietString(b: seq<Byte>, i: nat)
    requires i <= |b|
    ensures Quiet(b, i, StringEnd(b, i))
  {}

  lemma {:induction false} QuietSpace(b: seq<Byte>, i: nat)
    requires i <= |b|
    ensures Quiet(b, i, SpaceEnd(b, i))
    decreases |b| - i
  {
    if i < |b| && IsSpace(b[i]) {
      QuietByte(b, i);
      QuietSpace(b, i + 1);
      QuietJoin(b, i, i + 1, SpaceEnd(b, i));
    }
  }

  lemma {:induction false} QuietDigits(b: seq<Byte>, i: nat)
    requires i <= |b|
    ensures Quiet(b, i, DigitsEnd(b, i))
    decreases |b| - i
  {
    if i < |b| && IsDigit(b[i]) {
      QuietByte(b, i);
      QuietDigits(b, i + 1);
      QuietJoin(b, i, i + 1, DigitsEnd(b, i));
    }
  }

  lemma {:induction false} QuietLetters(b: seq<Byte>, i: nat, j: nat)
    requires i <= j <= |b| && forall k :: i <= k < j ==> b[k] != QUOTE && !IsBracket(b[k])
    ensures Quiet(b, i, j)
    decreases j - i
  {
    if i < j {
      QuietByte(b, i);
      QuietLetters(b, i + 1, j);
      QuietJoin(b, i, i + 1, j);
    }
  }

  lemma {:induction false} QuietLiteral(b: seq<Byte>, i: nat, literal: seq<Byte>)
    requires i <= |b| && (literal == TRUE || literal == FALSE || literal == NULL)
    ensures Quiet(b, i, LiteralEnd(b, i, literal))
  {
    var j := LiteralEnd(b, i, literal);
    assert forall k :: i <= k < j ==> b[k] == b[i..j][k - i];
    QuietLetters(b, i, j);
  }

  lemma {:induction false} QuietExponent(b: seq<Byte>, i: nat)
    requires i <= |b|
    ensures Quiet(b, i, ExponentEnd(b, i))
  {
    var j := ExponentEnd(b, i);
    if j > i {
      var k := if i + 1 < |b| && (b[i + 1] == MINUS || b[i + 1] == PLUS) then i + 2 else i + 1;
      QuietLetters(b, i, k);
      QuietDigits(b, k);
      QuietJoin(b, i, k, j);
    }
  }

  lemma {:induction false} QuietDecimals(b: seq<Byte>, i: nat)
    requires i <= |b|
    ensures Quiet(b, i, DecimalsEnd(b, i))
  {
    var j := DecimalsEnd(b, i);
    if j > i {
      QuietByte(b, i);
      QuietDigits(b, i + 1);
      QuietJoin(b, i, i + 1, j);
    }
  }

  lemma {:induction false} QuietNumber(b: seq<Byte>, i: nat)
    requires i <= |b|
    ensures Quiet(b, i, NumberEnd(b, i))
  {
    hide Quiet, DigitsEnd, DecimalsEnd, ExponentEnd;
    var k := if i < |b| && b[i] == MINUS then i + 1 else i;
    var m := if k < |b| && b[k] == ZERO then k + 1 else DigitsEnd(b, k);
    QuietLetters(b, i, i);
    if k > i { QuietByte(b, i); }
    if k < |b| && b[k] == ZERO { QuietByte(b, k); } else { QuietDigits(b, k); }
    QuietJoin(b, i, k, m);
    QuietDecimals(b, m);
    QuietExponent(b, DecimalsEnd(b, m));
    QuietJoin(b, i, m, DecimalsEnd(b, m));
    QuietJoin(b, i, DecimalsEnd(b, m), ExponentEnd(b, DecimalsEnd(b, m)));
  }

  lemma {:induction false} QuietScalar(b: seq<Byte>, i: nat)
    requires i <= |b|
    ensures Quiet(b, i, ScalarEnd(b, i))
  {
    hide Quiet, LiteralEnd, NumberEnd, StringEnd;
    QuietString(b, i);
    QuietLiteral(b, i, TRUE);
    QuietLiteral(b, i, FALSE);
    QuietLiteral(b, i, NULL);
    QuietNumber(b, i);
  }

  lemma {:induction false} QuietComma(b: seq<Byte>, i: nat)
    requires i <= |b|
    ensures Quiet(b, i, SpaceAndComma(b, i).1)
  {
    hide Quiet, SpaceEnd;
    QuietSpace(b, i);
    var j := SpaceEnd(b, i);
    if j < |b| && b[j] == COMMA {
      QuietByte(b, j);
      QuietSpace(b, j + 1);
      QuietJoin(b, i, j, j + 1);
      QuietJoin(b, i, j + 1, SpaceEnd(b, j + 1));
    }
  }

  lemma {:induction false} QuietArrayScalars(b: seq<Byte>, i: nat)
    requires i <= |b|
    ensures Quiet(b, i, ArrayScalarsEnd(b, i))
    decreases |b| - i
  {
    hide Quiet, ScalarEnd, SpaceAndComma;
    var s := ScalarEnd(b, i);
    QuietScalar(b, i);
    if s > i {
      QuietComma(b, s);
      var r := SpaceAndComma(b, s);
      QuietJoin(b, i, s, r.1);
      if r.0 {
        QuietArrayScalars(b, r.1);
        QuietJoin(b, i, r.1, ArrayScalarsEnd(b, i));
      }
    }
  }

  lemma {:induction false} QuietKey(b: seq<Byte>, i: nat)
    requires i <= |b|
    ensures Quiet(b, i, KeyEnd(b, i))
  {
    hide Quiet, StringEnd, SpaceEnd;
    QuietLetters(b, i, i);
    QuietString(b, i);
    var s := StringEnd(b, i);
    QuietSpace(b, s);
    var p := SpaceEnd(b, s);
    if p < |b| && b[p] == COLON {
      QuietByte(b, p);
      QuietSpace(b, p + 1);
      QuietJoin(b, i, s, p);
      QuietJoin(b, i, p, p + 1);
      QuietJoin(b, i, p + 1, SpaceEnd(b, p + 1));
    }
  }

  lemma {:induction false} QuietObjectScalars(b: seq<Byte>, i: nat)
    requires i <= |b|
    ensures Quiet(b, i, ObjectScalarsEnd(b, i))
    decreases |b| - i
  {
    hide Quiet, ScalarEnd, SpaceAndComma, KeyEnd;
    QuietLetters(b, i, i);
    QuietKey(b, i);
    var q := KeyEnd(b, i);
    if q > i && !(q < |b| && IsOpen(b[q])) {
      var v := ScalarEnd(b, q);
      QuietScalar(b, q);
      QuietComma(b, v);
      var r := SpaceAndComma(b, v);
      QuietJoin(b, i, q, v);
      QuietJoin(b, i, v, r.1);
      if v > q && r.0 {
        QuietObjectScalars(b, r.1);
        QuietJoin(b, i, r.1, ObjectScalarsEnd(b, i));
      }
    }
  }

  lemma {:induction false} QuietScalars(b: seq<Byte>, i: nat, mode: Byte)
    requires i <= |b|
    ensures Quiet(b, i, ScalarsEnd(b, i, mode))
  {
    hide Quiet, ArrayScalarsEnd, ObjectScalarsEnd, SpaceEnd;
    var j := SpaceEnd(b, i);
    QuietSpace(b, i);
    QuietArrayScalars(b, j);
    QuietObjectScalars(b, j);
    QuietJoin(b, i, j, ScalarsEnd(b, i, mode));
  }

  lemma {:induction false} QuietAfterNested(b: seq<Byte>, i: nat, open: Byte)
    requires i <= |b|
    ensures Quiet(b, i, AfterNested(b, i, open))
  {
    hide Quiet, ScalarsEnd, SpaceAndComma;
    QuietComma(b, i);
    var r := SpaceAndComma(b, i);
    if r.0 {
      QuietScalars(b, r.1, open);
      QuietJoin(b, i, r.1, AfterNested(b, i, open));
    }
  }

  // ----- the result

  /** From inside a collection to its end: paired brackets, then the closing one. */
  lemma {:induction false} InsidePaired(b: seq<Byte>, i: nat, stack: seq<Byte>) returns (inner: seq<Byte>, close: Byte)
    requires i <= |b| && 0 < |stack| <= MAX_DEPTH
    requires Inside(b, i, stack[|stack| - 1], |stack| - 1).Closed?
    ensures var e := Inside(b, i, stack[|stack| - 1], |stack| - 1).end;
            && Reaches(b, i, e) && Skeleton(b, i, e) == inner + [close]
            && Paired(stack, inner) && IsClose(close) && (|stack| > 1 ==> IsPair(stack[|stack| - 1], close))
    decreases |b| - i
  {
    hide ScalarsEnd, AfterNested, Next, Paired, Quiet;
    var open, depth := stack[|stack| - 1], |stack| - 1;
    var e := Inside(b, i, open, depth).end;
    assert Next(b, i) == i + 1 by { BracketToken(b, i); }
    if IsOpen(b[i]) {
      var k := ScalarsEnd(b, i + 1, b[i]);
      var inner1, close1 := InsidePaired(b, k, stack + [b[i]]);
      var e1 := Inside(b, k, b[i], depth + 1).end;
      var k2 := AfterNested(b, e1, open);
      var inner2, close2 := InsidePaired(b, k2, stack);
      inner, close := [b[i]] + inner1 + [close1] + inner2, close2;
      PairedNest(stack, b[i], inner1, close1, inner2);
      QuietScalars(b, i + 1, b[i]);
      QuietAfterNested(b, e1, open);
      QuietSkip(b, e1, k2, e);
      SkeletonSplit(b, k, e1, e);
      QuietSkip(b, i + 1, k, e);
    } else {
      inner, close := [], b[i];
      PairedNothing(stack);
      assert Skeleton(b, i + 1, e) == [];
    }
  }

  lemma {:induction false} PairedNothing(stack: seq<Byte>)
    ensures Paired(stack, [])
  {}

  lemma {:induction false} BracketToken(b: seq<Byte>, i: nat)
    requires i < |b| && IsBracket(b[i])
    ensures Next(b, i) == i + 1
  {}

  /** Whatever the buffer holds: a skipped collection starts with an opening bracket, ends with a closing
      one, and in between the brackets outside strings are paired, with at most 32 open at once. */
  lemma {:induction false} AcceptedBrackets(b: seq<Byte>, i: nat)
    requires i <= |b| && CollectionFrom(b, i).Closed?
    ensures var s := Skeleton(b, i, CollectionFrom(b, i).end);
            && |s| >= 2 && IsOpen(s[0]) && IsClose(s[|s| - 1])
            && Paired([s[0]], s[1..|s| - 1])
    ensures Reaches(b, i, CollectionFrom(b, i).end)
  {
    hide ScalarsEnd, Paired;
    var open, e := b[i], CollectionFrom(b, i).end;
    var k := ScalarsEnd(b, i + 1, open);
    var inner, close := InsidePaired(b, k, [open]);
    QuietScalars(b, i + 1, open);
    QuietSkip(b, i + 1, k, e);
    BracketToken(b, i);
    assert Skeleton(b, i, e) == [open] + inner + [close];
  }

  /** Only the outermost pair can be wrong: the brackets are paired throughout exactly when it matches. */
  lemma {:induction false} OutermostPair(open: Byte, inner: seq<Byte>, close: Byte)
    requires IsOpen(open) && IsClose(close) && Paired([open], inner)
    ensures Paired([], [open] + inner + [close]) <==> IsPair(open, close)
  {
    var s := [open] + inner + [close];
    assert s[1..] == inner + [close];
    assert [] + [open] == [open];
    ReadConcat([open], inner, [close]);
    assert Read([], s) == Read([open], [close]);
    assert [close][1..] == [] && [open][..0] == [];
  }

  /** A document that is accepted has no brackets outside its strings, or an outermost pair around paired
      ones; so all of them are paired exactly when the outermost two match. */
  lemma {:induction false} AcceptedDocument(b: seq<Byte>)
    requires D.ValidationStatus(b) == D.Success
    ensures var s := Skeleton(b, 0, |b|);
            || s == []
            || (&& |s| >= 2 && IsOpen(s[0]) && IsClose(s[|s| - 1]) && Paired([s[0]], s[1..|s| - 1])
                && (Paired([], s) <==> IsPair(s[0], s[|s| - 1])))
  {
    hide ScalarEnd, Paired, Quiet, CollectionFrom;
    var i := SpaceEnd(b, 0);
    QuietSpace(b, 0);
    QuietSkip(b, 0, i, |b|);
    if ScalarEnd(b, i) > i {
      var j := ScalarEnd(b, i);
      QuietScalar(b, i);
      QuietSkip(b, i, j, |b|);
      QuietSpace(b, j);
      QuietIsEmpty(b, j);
    } else {
      var j := CollectionFrom(b, i).end;
      var s := Skeleton(b, i, j);
      AcceptedBrackets(b, i);
      QuietSpace(b, j);
      QuietIsEmpty(b, j);
      SkeletonSplit(b, i, j, |b|);
      assert Skeleton(b, 0, |b|) == s;
      OutermostPair(s[0], s[1..|s| - 1], s[|s| - 1]);
      assert s == [s[0]] + s[1..|s| - 1] + [s[|s| - 1]];
    }
  }

  lemma {:induction false} QuietIsEmpty(b: seq<Byte>, j: nat)
    requires Quiet(b, j, |b|)
    ensures Skeleton(b, j, |b|) == []
  {}
}
