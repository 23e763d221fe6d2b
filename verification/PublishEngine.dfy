/** The publish state engine: each API call as a function on live records and a history of what was
    observed, and the class that performs it on the record arrays in place. */
module PublishEngine {
  import opened MqttTypes
  import opened PublishRecords

  /** What an observer of the client sees, in order. */
  datatype Action =
    | Reserved(id: PacketId)                       // a record for an outgoing PUBLISH was stored
    | PubrecAccepted(id: PacketId)                 // a PUBREC moved its outgoing record to the PUBREL phase
    | SessionCleared                               // all records were dropped
    | Delivered(id: PacketId, qos: QoS)            // the application was handed an incoming PUBLISH
    | PublishSent(id: PacketId, qos: QoS, dup: bool)   // a PUBLISH was written to the transport
    | AckSent(ack: AckType, id: PacketId)          // an acknowledgement was written to the transport
    | AckReceived(ack: AckType, id: PacketId)      // an acknowledgement arrived

  /** The actions so far, the latest one outermost. */
  datatype History = Nothing | After(past: History, latest: Action) {
    function Then(a: Action): History { After(this, a) }

    function Length(): nat {
      match this
      case Nothing => 0
      case After(past, _) => past.Length() + 1
    }
  }

  datatype Engine = Engine(out: seq<Record>, inc: seq<Record>, capacity: nat, trace: History) {
    function Emit(a: Action): Engine { this.(trace := trace.Then(a)) }
  }

  datatype Outcome = Outcome(status: Status, state: PublishState, engine: Engine)

  function Reserve(e: Engine, id: PacketId, qos: QoS): Outcome {
    if qos == QoS0 then Outcome(Success, StateNull, e)
    else if id == INVALID_ID then Outcome(BadParameter, StateNull, e)
    else
      var status := AddStatus(e.out, e.capacity, id);
      Outcome(status, StateNull,
              if status == Success then e.(out := e.out + [Record(id, qos, PublishSend)]).Emit(Reserved(id)) else e)
  }

  function UpdatePublish(e: Engine, id: PacketId, op: Operation, qos: QoS): Outcome {
    var next := CalculateStatePublish(op, qos);
    if qos == QoS0 then Outcome(Success, PublishDone, e)
    else if id == INVALID_ID then Outcome(BadParameter, StateNull, e)
    else if op == Send then
      var k := IndexOf(e.out, id);
      if k == |e.out| || e.out[k].qos != qos then Outcome(BadParameter, StateNull, e)
      else if !ValidTransitionPublish(e.out[k].state, next, op, qos) then Outcome(IllegalState, StateNull, e)
      else Outcome(Success, next, e.(out := e.out[k := e.out[k].(state := next)]))
    else
      var status := AddStatus(e.inc, e.capacity, id);
      if status == Success then Outcome(Success, next, e.(inc := e.inc + [Record(id, qos, next)]))
      else Outcome(status, StateNull, e)
  }

  function UpdateAck(e: Engine, id: PacketId, ack: AckType, op: Operation): Outcome {
    var outgoing := IsPublishOutgoing(ack, op);
    var records := if outgoing then e.out else e.inc;
    var k := IndexOf(records, id);
    if id == INVALID_ID then Outcome(BadParameter, StateNull, e)
    else if k == |records| then Outcome(BadResponse, StateNull, e)
    else
      var next := CalculateStateAck(ack, op, records[k].qos);
      if !ValidTransitionAck(records[k].state, next) then Outcome(IllegalState, StateNull, e)
      else
        var updated := AckRecords(records, k, next);
        var f := if outgoing then e.(out := updated) else e.(inc := updated);
        Outcome(Success, next, if next == PubRelSend then f.Emit(PubrecAccepted(id)) else f)
  }

  /** The records after an accepted acknowledgement: a finished record goes away, and one that has just
      been acknowledged by PUBREC moves to the end so that PUBRELs keep the order of their PUBRECs. */
  function AckRecords(records: seq<Record>, k: nat, next: PublishState): seq<Record>
    requires k < |records|
  {
    if next == PublishDone then Remove(records, k)
    else if next == PubRelSend then Remove(records, k) + [Record(records[k].packetId, QoS2, PubRelSend)]
    else records[k := records[k].(state := next)]
  }

  /** The slot of an acknowledged record that stays in its place. */
  function SlotAfterAck(r: Record, next: PublishState): Record {
    if next == PublishDone then r.(packetId := INVALID_ID) else r.(state := next)
  }

  /** The first slot at or after `from` whose state is wanted, or the length. */
  function NextMatch(s: seq<Record>, from: nat, want: set<PublishState>): (k: nat)
    requires from <= |s|
    ensures from <= k <= |s|
    ensures forall i :: from <= i < k ==> s[i].state !in want
    ensures k < |s| ==> s[k].state in want
    decreases |s| - from
  {
    if from == |s| || s[from].state in want then from else NextMatch(s, from + 1, want)
  }

  const PUBREL_STATES: set<PublishState> := {PubCompPending, PubRelSend}
  const RESEND_STATES: set<PublishState> := {PublishSend, PubAckPending, PubRecPending}

  // ----- the resend walk

  /** The ids of the live records in a wanted state, in record order: what has to be resent. */
  function Matching(live: seq<Record>, want: set<PublishState>): seq<PacketId> {
    if live == [] then []
    else (if live[0].state in want then [live[0].packetId] else []) + Matching(live[1..], want)
  }

  /** What repeated selection hands out from a slot on, until it first returns 0. */
  function Walk(s: seq<Record>, from: nat, want: set<PublishState>): seq<PacketId>
    requires from <= |s|
    decreases |s| - from
  {
    if from == |s| then []
    else if s[from].state !in want then Walk(s, from + 1, want)
    else if IsFree(s[from]) then []
    else [s[from].packetId] + Walk(s, from + 1, want)
  }

  /** The ids still to come when selection has just returned `id` and moved the cursor. */
  function Selected(s: seq<Record>, id: PacketId, cursor: nat, want: set<PublishState>): seq<PacketId>
    requires cursor <= |s|
  {
    if id == INVALID_ID then [] else [id] + Walk(s, cursor, want)
  }

  predicate StaleBeforeLive(s: seq<Record>, from: nat, want: set<PublishState>) {
    exists i, j :: from <= i < j < |s| && IsFree(s[i]) && s[i].state in want && !IsFree(s[j]) && s[j].state in want
  }

  lemma {:induction false} WalkIsPrefix(s: seq<Record>, from: nat, want: set<PublishState>)
    requires from <= |s|
    ensures Walk(s, from, want) <= Matching(Live(s[from..]), want)
    decreases |s| - from
  {
    if from < |s| {
      WalkIsPrefix(s, from + 1, want);
      assert s[from..][1..] == s[from + 1..];
      var live, rest := Live(s[from..]), Live(s[from + 1..]);
      if !IsFree(s[from]) {
        assert live == [s[from]] + rest && live[1..] == rest;
      }
    }
  }

  /** The walk never gets past a free slot that still carries a wanted state. */
  lemma {:induction false} WalkStopsAt(s: seq<Record>, from: nat, k: nat, want: set<PublishState>)
    requires from <= k < |s| && IsFree(s[k]) && s[k].state in want
    ensures Walk(s, from, want) <= Matching(Live(s[from..k]), want)
    decreases k - from
  {
    if from < k {
      WalkStopsAt(s, from + 1, k, want);
      assert s[from..k][1..] == s[from + 1..k];
      var live, rest := Live(s[from..k]), Live(s[from + 1..k]);
      if !IsFree(s[from]) {
        assert live == [s[from]] + rest && live[1..] == rest;
      }
    }
  }

  lemma {:induction false} MatchingEmpty(s: seq<Record>, want: set<PublishState>)
    ensures Matching(Live(s), want) == [] <==> forall i :: 0 <= i < |s| && !IsFree(s[i]) ==> s[i].state !in want
  {
    if s != [] {
      MatchingEmpty(s[1..], want);
      if !IsFree(s[0]) {
        assert Live(s)[1..] == Live(s[1..]);
      }
      assert forall i :: 1 <= i < |s| ==> s[i] == s[1..][i - 1];
    }
  }

  /** The walk hands out every record that has to be resent, in order, exactly when no free slot that
      still carries a wanted state lies before a live record in a wanted state. */
  lemma {:induction false} WalkCompleteIff(s: seq<Record>, from: nat, want: set<PublishState>)
    requires from <= |s|
    ensures Walk(s, from, want) == Matching(Live(s[from..]), want) <==> !StaleBeforeLive(s, from, want)
    decreases |s| - from
  {
    if from < |s| {
      WalkCompleteIff(s, from + 1, want);
      WalkIsPrefix(s, from + 1, want);
      assert s[from..][1..] == s[from + 1..];
      var live, rest := Live(s[from..]), Live(s[from + 1..]);
      if !IsFree(s[from]) {
        assert live == [s[from]] + rest && live[1..] == rest;
      } else if s[from].state in want {
        MatchingEmpty(s[from + 1..], want);
        if Matching(rest, want) != [] {
          var j :| 0 <= j < |s[from + 1..]| && !IsFree(s[from + 1..][j]) && s[from + 1..][j].state in want;
          assert s[from + 1 + j] == s[from + 1..][j];
        } else {
          assert forall j :: from < j < |s| ==> s[j] == s[from + 1..][j - from - 1];
        }
      }
      assert StaleBeforeLive(s, from + 1, want) ==> StaleBeforeLive(s, from, want);
    }
  }

  lemma {:induction false} WalkStep(s: seq<Record>, from: nat, want: set<PublishState>)
    requires from <= |s|
    ensures var k := NextMatch(s, from, want);
            Walk(s, from, want) == if k == |s| || IsFree(s[k]) then [] else [s[k].packetId] + Walk(s, k + 1, want)
    decreases |s| - from
  {
    if from < |s| && s[from].state !in want {
      WalkStep(s, from + 1, want);
    }
  }

  class Context {
    const outgoing: array<Record>
    const incoming: array<Record>
    ghost var trace: History

    ghost predicate Valid()
      reads this, outgoing, incoming
    {
      && outgoing != incoming
      && outgoing.Length == incoming.Length > 0
      && DistinctIds(Live(outgoing[..]))
      && DistinctIds(Live(incoming[..]))
    }

    ghost function Abs(): Engine
      reads this, outgoing, incoming
    {
      Engine(Live(outgoing[..]), Live(incoming[..]), outgoing.Length, trace)
    }

    constructor (count: nat)
      requires count > 0
      ensures Valid() && fresh(outgoing) && fresh(incoming)
      ensures Abs() == Engine([], [], count, Nothing)
      ensures outgoing[..] == seq(count, i => Record(INVALID_ID, QoS0, StateNull))
    {
      outgoing := new Record[count](i => Record(INVALID_ID, QoS0, StateNull));
      incoming := new Record[count](i => Record(INVALID_ID, QoS0, StateNull));
      trace := Nothing;
      new;
      LiveAllFree(outgoing[..]);
      LiveAllFree(incoming[..]);
    }

    method ReserveState(id: PacketId, qos: QoS) returns (status: Status)
      requires Valid()
      modifies this, outgoing
      ensures Valid()
      ensures var r := Reserve(old(Abs()), id, qos); status == r.status && Abs() == r.engine
      ensures status == Success && qos != QoS0 && IsFree(old(outgoing[outgoing.Length - 1])) ==>
                FirstFree(old(outgoing[..])) < outgoing.Length &&
                outgoing[..] == old(outgoing[..])[FirstFree(old(outgoing[..])) := Record(id, qos, PublishSend)]
    {
      if qos == QoS0 {
        status := Success;
      } else if id == INVALID_ID {
        status := BadParameter;
      } else {
        DistinctAfterAdd(Live(outgoing[..]), outgoing.Length, Record(id, qos, PublishSend));
        status := AddRecord(outgoing, id, qos, PublishSend);
        if status == Success {
          trace := trace.Then(Reserved(id));
        }
      }
    }

    /** Marks the record of an outgoing PUBLISH as sent. */
    static method MarkSent(records: array<Record>, id: PacketId, qos: QoS)
      returns (status: Status, next: PublishState)
      requires id != INVALID_ID && qos != QoS0 && DistinctIds(Live(records[..]))
      modifies records
      ensures DistinctIds(Live(records[..]))
      ensures next == CalculateStatePublish(Send, qos)
      ensures var live, k := old(Live(records[..])), IndexOf(old(Live(records[..])), id);
              if k == |live| || live[k].qos != qos then status == BadParameter && Live(records[..]) == live
              else
                && status == (if ValidTransitionPublish(live[k].state, next, Send, qos) then Success else IllegalState)
                && Live(records[..]) == if status == Success then live[k := live[k].(state := next)] else live
    {
      next := CalculateStatePublish(Send, qos);
      var recordIndex, foundQoS, current := FindInRecord(records, id);
      if recordIndex == records.Length || foundQoS != qos {
        return BadParameter, next;
      }
      if !ValidTransitionPublish(current, next, Send, qos) {
        return IllegalState, next;
      }
      status := Success;
      if current != next {
        UpdateRecord(records, recordIndex, next, false);
      }
    }

    method UpdateStatePublish(id: PacketId, op: Operation, qos: QoS) returns (status: Status, state: PublishState)
      requires Valid()
      modifies outgoing, incoming
      ensures Valid()
      ensures Outcome(status, state, Abs()) == UpdatePublish(old(Abs()), id, op, qos)
    {
      if qos == QoS0 {
        return Success, PublishDone;
      }
      if id == INVALID_ID {
        return BadParameter, StateNull;
      }
      var next;
      if op == Send {
        status, next := MarkSent(outgoing, id, qos);
      } else {
        next := CalculateStatePublish(Receive, qos);
        DistinctAfterAdd(Live(incoming[..]), incoming.Length, Record(id, qos, next));
        status := AddRecord(incoming, id, qos, next);
      }
      state := if status == Success then next else StateNull;
    }

    /** Applies an acknowledgement to the record found for it. */
    static method UpdateRecordForAck(records: array<Record>, index: nat, id: PacketId,
                                     current: PublishState, next: PublishState)
      returns (status: Status)
      requires index < records.Length && records[index].packetId == id && records[index].state == current
      requires id != INVALID_ID && DistinctIds(Live(records[..]))
      requires |Live(records[..index])| == IndexOf(Live(records[..]), id)
      modifies records
      ensures DistinctIds(Live(records[..]))
      ensures var live, k := old(Live(records[..])), IndexOf(old(Live(records[..])), id);
              && k < |live|
              && status == (if ValidTransitionAck(current, next) then Success else IllegalState)
              && Live(records[..]) == if status == Success then AckRecords(live, k, next) else live
      ensures status != Success || next != PubRelSend ==>
                records[..] == if status == Success then old(records[..])[index := SlotAfterAck(old(records[index]), next)]
                               else old(records[..])
    {
      ghost var live := Live(records[..]);
      LiveSplit(records[..], index);
      if !ValidTransitionAck(current, next) {
        return IllegalState;
      }
      status := Success;
      if current != next {
        UpdateRecord(records, index, next, next == PublishDone || next == PubRelSend);
        RemovedIsGone(live, IndexOf(live, id));
        if next == PubRelSend {
          DistinctAfterAdd(Live(records[..]), records.Length, Record(id, QoS2, PubRelSend));
          status := AddRecord(records, id, QoS2, PubRelSend);
        }
      }
    }

    /** Looks the id up in one of the arrays and applies the acknowledgement there. */
    static method Acknowledge(records: array<Record>, id: PacketId, ack: AckType, op: Operation)
      returns (status: Status, next: PublishState)
      requires id != INVALID_ID && DistinctIds(Live(records[..]))
      modifies records
      ensures DistinctIds(Live(records[..]))
      ensures var live, k := old(Live(records[..])), IndexOf(old(Live(records[..])), id);
              if k == |live| then status == BadResponse && Live(records[..]) == live
              else
                && next == CalculateStateAck(ack, op, live[k].qos)
                && status == (if ValidTransitionAck(live[k].state, next) then Success else IllegalState)
                && Live(records[..]) == if status == Success then AckRecords(live, k, next) else live
      ensures status != Success || next != PubRelSend ==>
                var k := IndexOf(old(records[..]), id);
                records[..] == if status == Success && k < records.Length
                               then old(records[..])[k := SlotAfterAck(old(records[..])[k], next)]
                               else old(records[..])
    {
      next := StateNull;
      var recordIndex, qos, current := FindInRecord(records, id);
      if recordIndex == records.Length {
        return BadResponse, StateNull;
      }
      next := CalculateStateAck(ack, op, qos);
      status := UpdateRecordForAck(records, recordIndex, id, current, next);
    }

    method UpdateStateAck(id: PacketId, ack: AckType, op: Operation) returns (status: Status, state: PublishState)
      requires Valid()
      modifies this, outgoing, incoming
      ensures Valid()
      ensures Outcome(status, state, Abs()) == UpdateAck(old(Abs()), id, ack, op)
      ensures status != Success || state != PubRelSend ==>
                var k := IndexOf(old(outgoing[..]), id);
                outgoing[..] == if status == Success && IsPublishOutgoing(ack, op) && k < outgoing.Length
                                then old(outgoing[..])[k := SlotAfterAck(old(outgoing[..])[k], state)]
                                else old(outgoing[..])
    {
      hide AckRecords, CalculateStateAck, ValidTransitionAck, SlotAfterAck, DistinctIds;
      if id == INVALID_ID {
        return BadParameter, StateNull;
      }
      var next;
      if IsPublishOutgoing(ack, op) {
        status, next := Acknowledge(outgoing, id, ack, op);
      } else {
        status, next := Acknowledge(incoming, id, ack, op);
      }
      state := if status == Success then next else StateNull;
      if status == Success && next == PubRelSend {
        trace := trace.Then(PubrecAccepted(id));
      }
    }

    /** Scans on from the cursor for a wanted state. The state of a slot is looked at whether or not the slot
        is free, so the id returned is 0 both at the end and at a free slot with a wanted state. */
    method StateSelect(want: set<PublishState>, cursor: nat) returns (id: PacketId, next: nat)
      ensures cursor >= outgoing.Length ==> id == INVALID_ID && next == cursor
      ensures cursor < outgoing.Length ==>
                var k := NextMatch(outgoing[..], cursor, want);
                if k == outgoing.Length then id == INVALID_ID && next == k
                else id == outgoing[k].packetId && next == k + 1
    {
      id := INVALID_ID;
      next := cursor;
      while next < outgoing.Length
        invariant cursor < outgoing.Length ==>
                    cursor <= next <= outgoing.Length &&
                    NextMatch(outgoing[..], next, want) == NextMatch(outgoing[..], cursor, want)
        invariant cursor >= outgoing.Length ==> next == cursor
      {
        if outgoing[next].state in want {
          id := outgoing[next].packetId;
          next := next + 1;
          break;
        }
        next := next + 1;
      }
    }

    method PubrelToResend(cursor: nat) returns (id: PacketId, next: nat)
      requires cursor <= outgoing.Length
      ensures cursor <= next <= outgoing.Length
      ensures Walk(outgoing[..], cursor, PUBREL_STATES) == Selected(outgoing[..], id, next, PUBREL_STATES)
      ensures id != INVALID_ID ==> cursor < next && outgoing[next - 1].packetId == id
    {
      WalkStep(outgoing[..], cursor, PUBREL_STATES);
      id, next := StateSelect(PUBREL_STATES, cursor);
    }

    method PublishToResend(cursor: nat) returns (id: PacketId, next: nat)
      requires cursor <= outgoing.Length
      ensures cursor <= next <= outgoing.Length
      ensures Walk(outgoing[..], cursor, RESEND_STATES) == Selected(outgoing[..], id, next, RESEND_STATES)
      ensures id != INVALID_ID ==> cursor < next && outgoing[next - 1].packetId == id
    {
      WalkStep(outgoing[..], cursor, RESEND_STATES);
      id, next := StateSelect(RESEND_STATES, cursor);
    }
  }

  lemma DistinctAfterAdd(live: seq<Record>, capacity: nat, r: Record)
    requires DistinctIds(live)
    ensures DistinctIds(Added(live, capacity, r))
  {}

  lemma RemovedIsGone(live: seq<Record>, k: nat)
    requires k < |live| && DistinctIds(live)
    ensures DistinctIds(Remove(live, k))
    ensures !HasId(Remove(live, k), live[k].packetId)
  {}
}
