/** Collecting a response body in place: the pieces of a chunked body, section 4.1 of RFC 7230, are moved
    over the chunk headers between them. */
module HttpBody {
  import opened Bytes

  /** The response buffer, where the body starts in it and how long it is, and where parsing goes on. */
  datatype View = View(buffer: seq<Byte>, started: bool, start: nat, length: nat, current: nat)

  predicate ValidView(v: View) {
    (if v.started then v.start + v.length <= v.current else v.length == 0) && v.current <= |v.buffer|
  }

  function Body(v: View): seq<Byte>
    requires ValidView(v)
  {
    if v.started then v.buffer[v.start..v.start + v.length] else []
  }

  /** What happens to a response: bytes arrive behind everything parsed so far, the parser passes over
      bytes that belong to no body, or it finds a piece of the body. */
  datatype Event =
    | Arrive(at: nat, data: seq<Byte>)
    | Skip(to: nat)
    | Piece(location: nat, length: nat)

  function Overwrite(s: seq<Byte>, at: nat, data: seq<Byte>): (t: seq<Byte>)
    requires at + |data| <= |s|
    ensures |t| == |s|
  {
    s[..at] + data + s[at + |data|..]
  }

  /** Nothing happens in front of the place parsing has got to. */
  predicate Possible(current: nat, size: nat, e: Event) {
    match e
    case Arrive(at, data) => current <= at && at + |data| <= size
    case Skip(to) => current <= to <= size
    case Piece(location, length) => current <= location && location + length <= size
  }

  function Next(current: nat, e: Event): nat {
    match e
    case Arrive(_, _) => current
    case Skip(to) => to
    case Piece(location, length) => location + length
  }

  /** A piece is moved up to the end of the body unless it is there already. */
  function Step(v: View, e: Event): (w: View)
    requires ValidView(v) && Possible(v.current, |v.buffer|, e)
    ensures ValidView(w) && |w.buffer| == |v.buffer| && w.current == Next(v.current, e)
  {
    match e
    case Arrive(at, data) => v.(buffer := Overwrite(v.buffer, at, data))
    case Skip(to) => v.(current := to)
    case Piece(location, length) =>
      var start := if v.started then v.start else location;
      var next := start + v.length;
      var buffer := if location > next then Overwrite(v.buffer, next, v.buffer[location..location + length]) else v.buffer;
      View(buffer, true, start, v.length + length, location + length)
  }

  class Response {
    var buffer: array<Byte>
    var bodyStart: int           // negative before the first piece
    var bodyLen: nat
    var bufferCur: nat           // kept by the parsing context

    ghost function Now(): View
      reads this, buffer
    {
      View(buffer[..], bodyStart >= 0, if bodyStart >= 0 then bodyStart else 0, bodyLen, bufferCur)
    }

    constructor (buffer: array<Byte>)
      ensures this.buffer == buffer && ValidView(Now()) && Body(Now()) == [] && bufferCur == 0
    {
      this.buffer, bodyStart, bodyLen, bufferCur := buffer, -1, 0, 0;
    }

    /** The memory move of the C library: source and destination may overlap. */
    method MoveBytes(to: nat, from: nat, length: nat)
      requires to + length <= buffer.Length && from + length <= buffer.Length
      modifies buffer
      ensures buffer[..] == Overwrite(old(buffer[..]), to, old(buffer[..])[from..from + length])
    {
      ghost var s := buffer[..];
      forall k | 0 <= k < length {
        buffer[to + k] := buffer[from + k];
      }
      assert buffer[..to] == s[..to] && buffer[to..to + length] == s[from..from + length];
      assert buffer[to + length..] == s[to + length..];
      assert buffer[..] == buffer[..to] + buffer[to..to + length] + buffer[to + length..];
    }

    /** The parser has found `length` bytes of the body at `location`, at or behind the place it was at. */
    method OnBody(location: nat, length: nat)
      requires ValidView(Now()) && bufferCur <= location && location + length <= buffer.Length
      modifies this`bodyStart, this`bodyLen, this`bufferCur, buffer
      ensures Now() == Step(old(Now()), Piece(location, length))
    {
      hide Overwrite;
      if bodyStart < 0 {
        bodyStart, bodyLen := location, 0;
      }
      var next := bodyStart + bodyLen;
      if location > next {
        MoveBytes(next, location, length);
      }
      bodyLen := bodyLen + length;
      bufferCur := location + length;
    }
  }

  // ----- whole responses

  predicate PossibleRun(current: nat, size: nat, events: seq<Event>)
    decreases |events|
  {
    events == []
    || (Possible(current, size, events[0]) && PossibleRun(Next(current, events[0]), size, events[1..]))
  }

  function Run(v: View, events: seq<Event>): (w: View)
    requires ValidView(v) && PossibleRun(v.current, |v.buffer|, events)
    ensures ValidView(w)
    decreases |events|
  {
    if events == [] then v else Run(Step(v, events[0]), events[1..])
  }

  /** A buffer in which nobody moves bytes. */
  function WireStep(wire: seq<Byte>, e: Event): (w: seq<Byte>)
    requires e.Arrive? ==> e.at + |e.data| <= |wire|
    ensures |w| == |wire|
  {
    if e.Arrive? then Overwrite(wire, e.at, e.data) else wire
  }

  function WireRun(wire: seq<Byte>, current: nat, events: seq<Event>): (w: seq<Byte>)
    requires PossibleRun(current, |wire|, events)
    ensures |w| == |wire|
    decreases |events|
  {
    if events == [] then wire else WireRun(WireStep(wire, events[0]), Next(current, events[0]), events[1..])
  }

  function PieceOf(wire: seq<Byte>, e: Event): seq<Byte>
    requires e.Piece? ==> e.location + e.length <= |wire|
  {
    if e.Piece? then wire[e.location..e.location + e.length] else []
  }

  /** The pieces as they came in. */
  function Received(wire: seq<Byte>, current: nat, events: seq<Event>): seq<Byte>
    requires PossibleRun(current, |wire|, events)
    decreases |events|
  {
    if events == [] then []
    else PieceOf(wire, events[0]) + Received(WireStep(wire, events[0]), Next(current, events[0]), events[1..])
  }

  /** From the place where parsing goes on the buffer is as the wire delivered it. */
  predicate Untouched(v: View, wire: seq<Byte>)
    requires ValidView(v)
  {
    |wire| == |v.buffer| && v.buffer[v.current..] == wire[v.current..]
  }

  lemma {:induction false} TailOfOverwrite(s: seq<Byte>, at: nat, data: seq<Byte>, from: nat)
    requires at + |data| <= |s| && from <= |s|
    ensures at + |data| <= from ==> Overwrite(s, at, data)[from..] == s[from..]
    ensures from <= at ==> Overwrite(s, at, data)[from..] == Overwrite(s[from..], at - from, data)
    ensures from <= at ==> Overwrite(s, at, data)[..from] == s[..from]
  {}

  lemma {:induction false} DropDrop(s: seq<Byte>, i: nat, j: nat)
    requires i <= j <= |s|
    ensures s[j..] == s[i..][j - i..]
  {}

  lemma {:induction false} AgreeFurther(s: seq<Byte>, t: seq<Byte>, i: nat, j: nat, k: nat)
    requires i <= j <= k <= |s| == |t| && s[i..] == t[i..]
    ensures s[j..k] == t[j..k] && s[k..] == t[k..]
  {}

  lemma {:induction false} Adjacent(s: seq<Byte>, i: nat, j: nat, k: nat)
    requires i <= j <= k <= |s|
    ensures s[i..k] == s[i..j] + s[j..k]
  {}

  lemma {:induction false} OverwriteParts(s: seq<Byte>, i: nat, at: nat, data: seq<Byte>)
    requires i <= at && at + |data| <= |s|
    ensures Overwrite(s, at, data)[i..at + |data|] == s[i..at] + data
  {}

  lemma {:induction false} ArriveCollects(v: View, wire: seq<Byte>, at: nat, data: seq<Byte>)
    requires ValidView(v) && Untouched(v, wire) && v.current <= at && at + |data| <= |v.buffer|
    ensures Untouched(Step(v, Arrive(at, data)), Overwrite(wire, at, data))
    ensures Body(Step(v, Arrive(at, data))) == Body(v)
  {}

  lemma {:induction false} StepCollects(v: View, wire: seq<Byte>, e: Event)
    requires ValidView(v) && Untouched(v, wire) && Possible(v.current, |v.buffer|, e)
    ensures Untouched(Step(v, e), WireStep(wire, e))
    ensures Body(Step(v, e)) == Body(v) + PieceOf(wire, e)
  {
    match e
    case Arrive(at, data) => ArriveCollects(v, wire, at, data);
    case Skip(to) =>
      DropDrop(v.buffer, v.current, to);
      DropDrop(wire, v.current, to);
    case Piece(location, length) => PieceCollects(v, wire, location, length);
  }

  lemma {:induction false} PieceCollects(v: View, wire: seq<Byte>, location: nat, length: nat)
    requires ValidView(v) && Untouched(v, wire) && v.current <= location && location + length <= |v.buffer|
    ensures Untouched(Step(v, Piece(location, length)), wire)
    ensures Body(Step(v, Piece(location, length))) == Body(v) + wire[location..location + length]
  {
    hide Overwrite;
    var end := location + length;
    var piece := v.buffer[location..end];
    AgreeFurther(v.buffer, wire, v.current, location, end);
    var start := if v.started then v.start else location;
    var next := start + v.length;
    if location > next {
      TailOfOverwrite(v.buffer, next, piece, end);
      OverwriteParts(v.buffer, start, next, piece);
    } else {
      Adjacent(v.buffer, start, next, end);
    }
  }

  /** In every run of arrivals and pieces, each at or behind the place parsing has got to, the body is the
      concatenation of the pieces as they came in, and what is still to be parsed has not been touched. */
  lemma {:induction false} RunCollects(v: View, wire: seq<Byte>, events: seq<Event>)
    requires ValidView(v) && |wire| == |v.buffer| && Untouched(v, wire) && PossibleRun(v.current, |wire|, events)
    ensures Body(Run(v, events)) == Body(v) + Received(wire, v.current, events)
    ensures Untouched(Run(v, events), WireRun(wire, v.current, events))
    decreases |events|
  {
    hide Body, Untouched, Step, WireStep, PieceOf, Next, ValidView;
    SameSize(v, wire);
    if events != [] {
      var e := events[0];
      StepCollects(v, wire, e);
      RunCollects(Step(v, e), WireStep(wire, e), events[1..]);
    }
  }

  lemma {:induction false} SameSize(v: View, wire: seq<Byte>)
    requires ValidView(v) && Untouched(v, wire)
    ensures |wire| == |v.buffer| && Body(v) + [] == Body(v)
  {}
}
