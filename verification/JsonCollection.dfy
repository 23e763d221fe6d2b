/** Skipping a JSON collection: the loop with its explicit bracket stack against recursive descent. */
module JsonCollection {
  import opened Bytes
  import opened JsonScan

  const MAX_DEPTH: nat := 32

  datatype Outcome = Closed(end: nat) | Illegal | TooDeep | Partial

  /** Where reading goes on behind a nested collection that ended at k, inside a collection opened by `open`. */
  function AfterNested(b: seq<Byte>, k: nat, open: Byte): (j: nat)
    requires k <= |b|
    ensures k <= j <= |b|
  {
    var r := SpaceAndComma(b, k);
    if r.0 then ScalarsEnd(b, r.1, open) else r.1
  }

  /** Recursive descent from i, inside a collection opened by `open` at nesting level `depth`. The closing
      bracket of the outermost collection is not compared with its opening bracket. */
  function Inside(b: seq<Byte>, i: nat, open: Byte, depth: nat): (r: Outcome)
    requires i <= |b| && depth < MAX_DEPTH
    ensures r.Closed? ==> i < r.end <= |b|
    decreases |b| - i
  {
    if i == |b| then Partial
    else if IsOpen(b[i]) then
      if depth + 1 == MAX_DEPTH then TooDeep
      else
        var r := Inside(b, ScalarsEnd(b, i + 1, b[i]), b[i], depth + 1);
        if r.Closed? then Inside(b, AfterNested(b, r.end, open), open, depth) else r
    else if IsClose(b[i]) && (depth == 0 || IsPair(open, b[i])) then Closed(i + 1)
    else Illegal
  }

  function CollectionFrom(b: seq<Byte>, i: nat): (r: Outcome)
    requires i <= |b|
    ensures r.Closed? ==> i < r.end <= |b|
  {
    if i == |b| then Partial
    else if IsOpen(b[i]) then Inside(b, ScalarsEnd(b, i + 1, b[i]), b[i], 0)
    else Illegal
  }

  /** What is left to do for the enclosing collections once the innermost one has come out as `r`. */
  function Resume(b: seq<Byte>, r: Outcome, stack: seq<Byte>): Outcome
    requires r.Closed? ==> r.end <= |b|
    requires |stack| <= MAX_DEPTH
    decreases |stack|
  {
    if !r.Closed? || stack == [] then r
    else
      var top := stack[|stack| - 1];
      Resume(b, Inside(b, AfterNested(b, r.end, top), top, |stack| - 1), stack[..|stack| - 1])
  }

  lemma {:induction false} ResumePush(b: seq<Byte>, i: nat, stack: seq<Byte>)
    requires i < |b| && IsOpen(b[i]) && 0 < |stack| < MAX_DEPTH
    ensures var d := |stack| - 1;
            Resume(b, Inside(b, i, stack[d], d), stack[..d])
            == Resume(b, Inside(b, ScalarsEnd(b, i + 1, b[i]), b[i], d + 1), stack)
  {}

  lemma {:induction false} ResumePop(b: seq<Byte>, i: nat, stack: seq<Byte>)
    requires i < |b| && 1 < |stack| <= MAX_DEPTH && IsClose(b[i]) && IsPair(stack[|stack| - 1], b[i])
    ensures var d := |stack| - 1;
            Resume(b, Inside(b, i, stack[d], d), stack[..d])
            == Resume(b, Inside(b, AfterNested(b, i + 1, stack[d - 1]), stack[d - 1], d - 1), stack[..d - 1])
  {
    var d := |stack| - 1;
    assert stack[..d][..d - 1] == stack[..d - 1];
  }

  /** The cases in which the outcome is known at once. */
  lemma {:induction false} Settled(b: seq<Byte>, i: nat, stack: seq<Byte>)
    requires i <= |b| && 0 < |stack| <= MAX_DEPTH
    ensures var d := |stack| - 1;
            var r := Resume(b, Inside(b, i, stack[d], d), stack[..d]);
            && (i == |b| ==> r == Partial)
            && (i < |b| && IsOpen(b[i]) && |stack| == MAX_DEPTH ==> r == TooDeep)
            && (i < |b| && IsClose(b[i]) && d == 0 ==> r == Closed(i + 1))
            && (i < |b| && IsClose(b[i]) && d > 0 && !IsPair(stack[d], b[i]) ==> r == Illegal)
            && (i < |b| && !IsOpen(b[i]) && !IsClose(b[i]) ==> r == Illegal)
  {}

  lemma {:induction false} NothingThere(b: seq<Byte>)
    ensures CollectionFrom(b, |b|) == Partial
  {}

  lemma {:induction false} FirstBracket(b: seq<Byte>, i: nat)
    requires i < |b|
    ensures IsOpen(b[i]) ==> CollectionFrom(b, i) == Resume(b, Inside(b, ScalarsEnd(b, i + 1, b[i]), b[i], 0), [])
    ensures !IsOpen(b[i]) ==> CollectionFrom(b, i) == Illegal
  {}

  method SkipCollection(b: seq<Byte>, start: nat) returns (r: Outcome)
    requires start <= |b|
    ensures r == CollectionFrom(b, start)
  {
    hide ScalarsEnd, SpaceAndComma, Inside, Resume, CollectionFrom, IsPair;
    var stack := new Byte[MAX_DEPTH];
    var depth: int := -1;
    var i := start;
    NothingThere(b);
    while i < |b|
      invariant start <= i <= |b| && -1 <= depth < MAX_DEPTH
      invariant depth == -1 ==> i == start
      invariant depth >= 0 ==>
                  CollectionFrom(b, start) == Resume(b, Inside(b, i, stack[depth], depth), stack[..depth])
      invariant depth == -1 && i == |b| ==> CollectionFrom(b, start) == Partial
      decreases |b| - i
    {
      var c := b[i];
      if depth == -1 { FirstBracket(b, i); } else { Settled(b, i, stack[..depth + 1]); }
      assert depth >= 0 ==> stack[..depth + 1][..depth] == stack[..depth];
      i := i + 1;
      if IsOpen(c) {
        depth := depth + 1;
        if depth == MAX_DEPTH { return TooDeep; }
        if depth > 0 {
          ResumePush(b, i - 1, stack[..depth]);
        }
        ghost var below := stack[..depth];
        stack[depth] := c;
        assert stack[..depth] == below;
        i := ScalarsEnd(b, i, c);
      } else if IsClose(c) {
        if depth > 0 && IsPair(stack[depth], c) {
          ResumePop(b, i - 1, stack[..depth + 1]);
          assert stack[..depth + 1][..depth - 1] == stack[..depth - 1];
          depth := depth - 1;
          var r := SpaceAndComma(b, i);
          i := if r.0 then ScalarsEnd(b, r.1, stack[depth]) else r.1;
        } else {
          return if depth == 0 then Closed(i) else Illegal;
        }
      } else {
        return Illegal;
      }
    }
    if depth >= 0 {
      Settled(b, i, stack[..depth + 1]);
      assert stack[..depth + 1][..depth] == stack[..depth];
    }
    return Partial;
  }
}
