/** What holds in every run of the client: record invariants, message order, at-most-once delivery. */
module SessionProperties {
  import opened MqttTypes
  import opened PublishRecords
  import opened PublishEngine
  import opened ClientSession

  /** Everything that can happen to the client, with the behaviour of the transport as part of the event. */
  datatype Event =
    | PublishRequested(id: PacketId, qos: QoS, dup: bool, serialized: Status, sent: bool)
    | PublishArrived(id: PacketId, qos: QoS, sent: bool)
    | AckArrived(id: PacketId, ack: AckType, sent: bool)
    | SessionResumed(count: nat, link: nat -> bool)   // the walk hands out `count` of the pending PUBRELs
    | SessionLost
    // direct use of the interface of the state engine
    | ReserveCalled(id: PacketId, qos: QoS)
    | UpdatePublishCalled(id: PacketId, op: Operation, qos: QoS)
    | UpdateAckCalled(id: PacketId, ack: AckType, op: Operation)

  function Step(e: Engine, ev: Event): Engine {
    match ev
    case PublishRequested(id, qos, dup, serialized, sent) => PublishCall(e, id, qos, dup, serialized, sent).engine
    case PublishArrived(id, qos, sent) => IncomingPublish(e, id, qos, sent).engine
    case AckArrived(id, ack, sent) => IncomingAck(e, id, ack, sent).engine
    case SessionResumed(count, link) =>
      ResendPubrels(e, ResumeIds(e, count), link, 0).engine
    case SessionLost => ClearSession(e)
    case ReserveCalled(id, qos) => Reserve(e, id, qos).engine
    case UpdatePublishCalled(id, op, qos) => UpdatePublish(e, id, op, qos).engine
    case UpdateAckCalled(id, ack, op) => UpdateAck(e, id, ack, op).engine
  }

  function ResumeIds(e: Engine, count: nat): seq<PacketId> {
    var ids := Matching(e.out, PUBREL_STATES);
    if count < |ids| then ids[..count] else ids
  }

  function Run(e: Engine, evs: seq<Event>): Engine
    decreases |evs|
  {
    if evs == [] then e else Step(Run(e, evs[..|evs| - 1]), evs[|evs| - 1])
  }

  function Start(capacity: nat): Engine { Engine([], [], capacity, Nothing) }

  // ----- record invariants

  predicate OutgoingRecord(r: Record) {
    !IsFree(r) &&
    match r.qos
    case QoS0 => false
    case QoS1 => r.state in {PublishSend, PubAckPending}
    case QoS2 => r.state in {PublishSend, PubRecPending, PubRelSend, PubCompPending}
  }

  predicate IncomingRecord(r: Record) {
    !IsFree(r) &&
    match r.qos
    case QoS0 => false
    case QoS1 => r.state == PubAckSend
    case QoS2 => r.state in {PubRecSend, PubRelPending, PubCompSend}
  }

  /** When an action last happened, counting from 1; 0 when it never happened. */
  function Last(trace: History, a: Action): (k: nat)
    ensures k <= trace.Length()
  {
    match trace
    case Nothing => 0
    case After(past, latest) => if latest == a then trace.Length() else Last(past, a)
  }

  /** Two records that lie in this order: among records not yet PUBREC'd the reservations have this
      order, among PUBREL-phase records the accepted PUBRECs do. */
  predicate Before(trace: History, r: Record, s: Record) {
    && (r.state in RESEND_STATES && s.state in RESEND_STATES ==>
          Last(trace, Reserved(r.packetId)) < Last(trace, Reserved(s.packetId)))
    && (r.state in PUBREL_STATES && s.state in PUBREL_STATES ==>
          Last(trace, PubrecAccepted(r.packetId)) < Last(trace, PubrecAccepted(s.packetId)))
  }

  /** A record was reserved in the present session, and it is in the PUBREL phase exactly when its
      PUBREC was accepted since then. */
  predicate Stamped(trace: History, r: Record) {
    && Last(trace, SessionCleared) < Last(trace, Reserved(r.packetId))
    && (r.state in PUBREL_STATES <==>
          Last(trace, Reserved(r.packetId)) < Last(trace, PubrecAccepted(r.packetId)))
  }

  predicate InOrder(out: seq<Record>, trace: History) {
    && (forall i, j :: 0 <= i < j < |out| ==> Before(trace, out[i], out[j]))
    && (forall i :: 0 <= i < |out| ==> Stamped(trace, out[i]))
  }

  predicate Records(live: seq<Record>, capacity: nat, incoming: bool) {
    && |live| <= capacity
    && DistinctIds(live)
    && (forall i :: 0 <= i < |live| ==> if incoming then IncomingRecord(live[i]) else OutgoingRecord(live[i]))
  }

  predicate Inv(e: Engine) {
    && Records(e.out, e.capacity, false)
    && Records(e.inc, e.capacity, true)
    && InOrder(e.out, e.trace)
  }

  // ----- how Records and InOrder survive the three edits of a record sequence

  lemma {:induction false} RecordsRemove(live: seq<Record>, capacity: nat, incoming: bool, k: nat)
    requires Records(live, capacity, incoming) && k < |live|
    ensures Records(Remove(live, k), capacity, incoming)
  {}

  lemma {:induction false} RecordsAppend(live: seq<Record>, capacity: nat, incoming: bool, r: Record)
    requires Records(live, capacity, incoming) && |live| < capacity && !HasId(live, r.packetId)
    requires if incoming then IncomingRecord(r) else OutgoingRecord(r)
    ensures Records(live + [r], capacity, incoming)
  {}

  lemma {:induction false} InOrderRemove(out: seq<Record>, trace: History, k: nat)
    requires InOrder(out, trace) && k < |out|
    ensures InOrder(Remove(out, k), trace)
  {}

  lemma {:induction false} InOrderUpdate(out: seq<Record>, trace: History, k: nat, state: PublishState)
    requires InOrder(out, trace) && k < |out|
    requires out[k].state in RESEND_STATES <==> state in RESEND_STATES
    requires out[k].state in PUBREL_STATES <==> state in PUBREL_STATES
    ensures InOrder(out[k := out[k].(state := state)], trace)
  {}

  lemma {:induction false} InOrderAppend(out: seq<Record>, trace: History, r: Record)
    requires InOrder(out, trace) && Stamped(trace, r)
    requires forall i :: 0 <= i < |out| ==> Before(trace, out[i], r)
    ensures InOrder(out + [r], trace)
  {}

  /** An action that carries no stamp of a record leaves its order alone. */
  lemma {:induction false} InOrderEmit(out: seq<Record>, trace: History, a: Action)
    requires InOrder(out, trace) && a != SessionCleared
    requires forall i :: 0 <= i < |out| ==> a != Reserved(out[i].packetId) && a != PubrecAccepted(out[i].packetId)
    ensures InOrder(out, trace.Then(a))
  {}

  predicate OrderNeutral(a: Action) { !a.Reserved? && !a.PubrecAccepted? && !a.SessionCleared? }

  lemma {:induction false} InvEmit(e: Engine, a: Action)
    requires Inv(e) && OrderNeutral(a)
    ensures Inv(e.Emit(a))
  {
    InOrderEmit(e.out, e.trace, a);
  }

  lemma {:induction false} InOrderReserve(out: seq<Record>, trace: History, id: PacketId, qos: QoS)
    requires InOrder(out, trace) && !HasId(out, id)
    ensures InOrder(out + [Record(id, qos, PublishSend)], trace.Then(Reserved(id)))
  {
    var a, rec := Reserved(id), Record(id, qos, PublishSend);
    assert forall i :: 0 <= i < |out| ==> out[i].packetId != id;
    InOrderEmit(out, trace, a);
    InOrderAppend(out, trace.Then(a), rec);
  }

  lemma {:induction false} InOrderPubrec(out: seq<Record>, trace: History, id: PacketId)
    requires InOrder(out, trace) && !HasId(out, id)
    requires Last(trace, SessionCleared) < Last(trace, Reserved(id))
    ensures InOrder(out + [Record(id, QoS2, PubRelSend)], trace.Then(PubrecAccepted(id)))
  {
    var a, rec := PubrecAccepted(id), Record(id, QoS2, PubRelSend);
    assert forall i :: 0 <= i < |out| ==> out[i].packetId != id;
    InOrderEmit(out, trace, a);
    InOrderAppend(out, trace.Then(a), rec);
  }

  lemma {:induction false} InvReserve(e: Engine, id: PacketId, qos: QoS)
    requires Inv(e)
    ensures Inv(Reserve(e, id, qos).engine)
  {
    if Reserve(e, id, qos).status == Success && qos != QoS0 {
      InOrderReserve(e.out, e.trace, id, qos);
      RecordsAppend(e.out, e.capacity, false, Record(id, qos, PublishSend));
    }
  }

  lemma {:induction false} InvUpdatePublish(e: Engine, id: PacketId, op: Operation, qos: QoS)
    requires Inv(e)
    ensures Inv(UpdatePublish(e, id, op, qos).engine)
  {
    var o := UpdatePublish(e, id, op, qos);
    if o.status == Success && qos != QoS0 && op == Send {
      InOrderUpdate(e.out, e.trace, IndexOf(e.out, id), o.state);
    }
  }

  lemma {:induction false} InvUpdateAck(e: Engine, id: PacketId, ack: AckType, op: Operation)
    requires Inv(e)
    ensures Inv(UpdateAck(e, id, ack, op).engine)
  {
    var o := UpdateAck(e, id, ack, op);
    if o.status == Success {
      if IsPublishOutgoing(ack, op) {
        OutgoingAck(e.out, e.capacity, e.trace, IndexOf(e.out, id), ack, op);
      } else {
        IncomingRecordsAck(e.inc, e.capacity, IndexOf(e.inc, id), ack, op);
      }
    }
  }

  lemma {:induction false} IncomingRecordsAck(inc: seq<Record>, capacity: nat, k: nat, ack: AckType, op: Operation)
    requires Records(inc, capacity, true) && k < |inc| && !IsPublishOutgoing(ack, op)
    requires ValidTransitionAck(inc[k].state, CalculateStateAck(ack, op, inc[k].qos))
    ensures Records(AckRecords(inc, k, CalculateStateAck(ack, op, inc[k].qos)), capacity, true)
  {
    RecordsRemove(inc, capacity, true, k);
  }

  lemma {:induction false} OutgoingAck(out: seq<Record>, capacity: nat, trace: History, k: nat, ack: AckType, op: Operation)
    requires Records(out, capacity, false) && InOrder(out, trace)
    requires k < |out| && IsPublishOutgoing(ack, op)
    requires ValidTransitionAck(out[k].state, CalculateStateAck(ack, op, out[k].qos))
    ensures var next := CalculateStateAck(ack, op, out[k].qos);
            && Records(AckRecords(out, k, next), capacity, false)
            && InOrder(AckRecords(out, k, next), if next == PubRelSend then trace.Then(PubrecAccepted(out[k].packetId)) else trace)
  {
    var next, id := CalculateStateAck(ack, op, out[k].qos), out[k].packetId;
    RecordsRemove(out, capacity, false, k);
    InOrderRemove(out, trace, k);
    if next == PubRelSend {
      RemovedIsGone(out, k);
      InOrderPubrec(Remove(out, k), trace, id);
      RecordsAppend(Remove(out, k), capacity, false, Record(id, QoS2, PubRelSend));
    } else if next != PublishDone {
      InOrderUpdate(out, trace, k, next);
    }
  }

  lemma {:induction false} InvSendAcks(e: Engine, id: PacketId, state: PublishState, sent: bool)
    requires Inv(e)
    ensures Inv(SendAcks(e, id, state, sent).engine)
  {
    var ack := AckToSend(state);
    if ack != [] {
      InvEmit(e, AckSent(ack[0], id));
      InvUpdateAck(e.Emit(AckSent(ack[0], id)), id, ack[0], Send);
    }
  }

  lemma {:induction false} InvResend(e: Engine, ids: seq<PacketId>, link: nat -> bool, i: nat)
    requires Inv(e)
    ensures Inv(ResendPubrels(e, ids, link, i).engine)
    decreases |ids|
  {
    if ids != [] {
      InvSendAcks(e, ids[0], PubRelSend, link(i));
      InvResend(SendAcks(e, ids[0], PubRelSend, link(i)).engine, ids[1..], link, i + 1);
    }
  }

  lemma {:induction false} InvStep(e: Engine, ev: Event)
    requires Inv(e)
    ensures Inv(Step(e, ev))
  {
    match ev
    case PublishRequested(id, qos, dup, serialized, sent) =>
      InvReserve(e, id, qos);
      var r := Reserve(e, id, qos).engine;
      InvEmit(r, PublishSent(id, qos, dup));
      InvUpdatePublish(r.Emit(PublishSent(id, qos, dup)), id, Send, qos);
    case PublishArrived(id, qos, sent) =>
      InvUpdatePublish(e, id, Receive, qos);
      var o := UpdatePublish(e, id, Receive, qos);
      InvEmit(o.engine, Delivered(id, qos));
      InvSendAcks(o.engine.Emit(Delivered(id, qos)), id, o.state, sent);
      InvSendAcks(e, id, CalculateStatePublish(Receive, qos), sent);
    case AckArrived(id, ack, sent) =>
      InvEmit(e, AckReceived(ack, id));
      InvUpdateAck(e.Emit(AckReceived(ack, id)), id, ack, Receive);
      var o := UpdateAck(e.Emit(AckReceived(ack, id)), id, ack, Receive);
      InvSendAcks(o.engine, id, o.state, sent);
    case SessionResumed(count, link) =>
      InvResend(e, ResumeIds(e, count), link, 0);
    case SessionLost =>
    case ReserveCalled(id, qos) => InvReserve(e, id, qos);
    case UpdatePublishCalled(id, op, qos) => InvUpdatePublish(e, id, op, qos);
    case UpdateAckCalled(id, ack, op) => InvUpdateAck(e, id, ack, op);
  }

  /** Every state the client can reach satisfies the record invariants and the message order. */
  lemma {:induction false} RunInvariant(capacity: nat, evs: seq<Event>)
    ensures Inv(Run(Start(capacity), evs))
    decreases |evs|
  {
    if evs != [] {
      RunInvariant(capacity, evs[..|evs| - 1]);
      InvStep(Run(Start(capacity), evs[..|evs| - 1]), evs[|evs| - 1]);
    }
  }

  /** A call of the engine that is refused changes nothing; and the record that a PUBREC takes out of its
      place is always taken in again, even when the array was full. */
  lemma {:induction false} RefusedUnchanged(e: Engine, id: PacketId, qos: QoS, op: Operation, ack: AckType)
    ensures var r := Reserve(e, id, qos); r.status != Success ==> r.engine == e
    ensures var r := UpdatePublish(e, id, op, qos); r.status != Success ==> r.engine == e
    ensures var r := UpdateAck(e, id, ack, op);
            && (r.status != Success ==> r.engine == e)
            && (r.status == Success && r.state == PubRelSend ==> |r.engine.out| == |e.out| && HasId(r.engine.out, id))
  {
    var r, k := UpdateAck(e, id, ack, op), IndexOf(e.out, id);
    if r.status == Success && r.state == PubRelSend {
      assert r.engine.out == Remove(e.out, k) + [Record(id, QoS2, PubRelSend)];
      assert r.engine.out[|e.out| - 1].packetId == id;
    }
  }

  // ----- the resend walk in a reachable state

  lemma {:induction false} MatchingFrom(live: seq<Record>, want: set<PublishState>, k: nat)
    requires k < |Matching(live, want)|
    ensures exists i :: 0 <= i < |live| && live[i].state in want && live[i].packetId == Matching(live, want)[k]
  {
    if live[0].state in want && k == 0 {
      assert live[0].packetId == Matching(live, want)[0];
    } else {
      var k' := if live[0].state in want then k - 1 else k;
      MatchingFrom(live[1..], want, k');
      var i :| 0 <= i < |live[1..]| && live[1..][i].state in want && live[1..][i].packetId == Matching(live[1..], want)[k'];
      assert live[i + 1] == live[1..][i];
    }
  }

  lemma {:induction false} MatchingOrder(live: seq<Record>, trace: History, want: set<PublishState>)
    requires InOrder(live, trace)
    ensures want == RESEND_STATES ==>
              forall i, j :: 0 <= i < j < |Matching(live, want)| ==>
                Last(trace, Reserved(Matching(live, want)[i])) < Last(trace, Reserved(Matching(live, want)[j]))
    ensures want == PUBREL_STATES ==>
              forall i, j :: 0 <= i < j < |Matching(live, want)| ==>
                Last(trace, PubrecAccepted(Matching(live, want)[i])) < Last(trace, PubrecAccepted(Matching(live, want)[j]))
  {
    if live != [] {
      assert forall i :: 0 <= i < |live[1..]| ==> live[1..][i] == live[i + 1];
      MatchingOrder(live[1..], trace, want);
      var rest := Matching(live[1..], want);
      if live[0].state in want {
        forall j | 0 <= j < |rest| ensures exists i :: 0 < i < |live| && live[i].state in want && live[i].packetId == rest[j] {
          MatchingFrom(live[1..], want, j);
          var i :| 0 <= i < |live[1..]| && live[1..][i].state in want && live[1..][i].packetId == rest[j];
          assert live[i + 1].packetId == rest[j];
        }
      }
    }
  }

  /** In every reachable state, over every slot layout with those live records, the resend walk hands out
      PUBRELs in the order their PUBRECs were accepted and PUBLISHes in the order they were reserved; and
      the walk misses none exactly when no free slot still carries a wanted state before a live one. */
  lemma {:induction false} ResendOrder(capacity: nat, evs: seq<Event>, slots: seq<Record>)
    requires Live(slots) == Run(Start(capacity), evs).out
    ensures var trace, ids := Run(Start(capacity), evs).trace, Walk(slots, 0, {PubRelSend, PubCompPending});
            forall i, j :: 0 <= i < j < |ids| ==> Last(trace, PubrecAccepted(ids[i])) < Last(trace, PubrecAccepted(ids[j]))
    ensures var trace, ids := Run(Start(capacity), evs).trace, Walk(slots, 0, {PublishSend, PubAckPending, PubRecPending});
            forall i, j :: 0 <= i < j < |ids| ==> Last(trace, Reserved(ids[i])) < Last(trace, Reserved(ids[j]))
    ensures forall want :: Walk(slots, 0, want) == Matching(Live(slots), want) <==> !StaleBeforeLive(slots, 0, want)
  {
    RunInvariant(capacity, evs);
    var e := Run(Start(capacity), evs);
    assert slots[0..] == slots;
    assert PUBREL_STATES == {PubRelSend, PubCompPending};
    assert RESEND_STATES == {PublishSend, PubAckPending, PubRecPending};
    MatchingOrder(e.out, e.trace, PUBREL_STATES);
    MatchingOrder(e.out, e.trace, RESEND_STATES);
    WalkIsPrefix(slots, 0, PUBREL_STATES);
    WalkIsPrefix(slots, 0, RESEND_STATES);
    forall want { WalkCompleteIff(slots, 0, want); }
  }

  /** The ids HandleSessionResumption resends for are those of a SessionResumed step. */
  lemma {:induction false} ResumptionIsStep(e: Engine, slots: seq<Record>)
    requires e.out == Live(slots)
    ensures Walk(slots, 0, PUBREL_STATES) == ResumeIds(e, |Walk(slots, 0, PUBREL_STATES)|)
  {
    assert slots[0..] == slots;
    WalkIsPrefix(slots, 0, PUBREL_STATES);
  }

  /** An undisturbed QoS 2 PUBLISH appends a record that awaits its PUBREC. */
  lemma {:induction false} PublishAppends(e: Engine, id: PacketId)
    requires id != INVALID_ID && !HasId(e.out, id) && |e.out| < e.capacity
    ensures PublishCall(e, id, QoS2, false, Success, true).engine
            == e.(out := e.out + [Record(id, QoS2, PubRecPending)]).Emit(Reserved(id)).Emit(PublishSent(id, QoS2, false))
  {
    var out := e.out + [Record(id, QoS2, PublishSend)];
    assert forall j :: 0 <= j < |e.out| ==> out[j].packetId != id;
    assert out[|e.out|].packetId == id;
    IndexOfFirst(out, |e.out|);
    assert out[|e.out| := Record(id, QoS2, PubRecPending)] == e.out + [Record(id, QoS2, PubRecPending)];
  }

  /** A PUBREC moves its record behind all others. */
  lemma {:induction false} PubrecMovesRecord(e: Engine, k: nat)
    requires k < |e.out| && e.out[k].qos == QoS2 && e.out[k].state == PubRecPending && !IsFree(e.out[k])
    requires DistinctIds(e.out)
    ensures var id := e.out[k].packetId;
            UpdateAck(e, id, Pubrec, Receive)
            == Outcome(Success, PubRelSend,
                       e.(out := Remove(e.out, k) + [Record(id, QoS2, PubRelSend)]).Emit(PubrecAccepted(id)))
  {
    IndexOfUnique(e.out, k);
  }

  lemma {:induction false} PubrelSentFor(e: Engine, k: nat)
    requires k < |e.out| && e.out[k].qos == QoS2 && e.out[k].state == PubRelSend && !IsFree(e.out[k])
    requires DistinctIds(e.out)
    ensures var id := e.out[k].packetId;
            SendAcks(e, id, PubRelSend, true).engine
            == e.(out := e.out[k := Record(id, QoS2, PubCompPending)]).Emit(AckSent(Pubrel, id))
  {
    IndexOfUnique(e.out, k);
  }

  /** An undisturbed PUBREC moves its record behind all others and answers with a PUBREL. */
  lemma {:induction false} PubrecAnswered(e: Engine, k: nat)
    requires k < |e.out| && e.out[k].qos == QoS2 && e.out[k].state == PubRecPending && !IsFree(e.out[k])
    requires DistinctIds(e.out)
    ensures var id := e.out[k].packetId;
            IncomingAck(e, id, Pubrec, true).engine
            == e.(out := Remove(e.out, k) + [Record(id, QoS2, PubCompPending)])
                .Emit(AckReceived(Pubrec, id)).Emit(PubrecAccepted(id)).Emit(AckSent(Pubrel, id))
  {
    hide UpdateAck, DistinctIds;
    var id, rest := e.out[k].packetId, Remove(e.out, k);
    var e1 := e.Emit(AckReceived(Pubrec, id));
    PubrecMovesRecord(e1, k);
    RemovedIsGone(e.out, k);
    var out := rest + [Record(id, QoS2, PubRelSend)];
    PubrelSentFor(e1.(out := out).Emit(PubrecAccepted(id)), |rest|);
    assert out[|rest| := Record(id, QoS2, PubCompPending)] == rest + [Record(id, QoS2, PubCompPending)];
  }

  /** A PUBCOMP removes its record. */
  lemma {:induction false} PubcompRemoves(e: Engine, k: nat)
    requires k < |e.out| && e.out[k].qos == QoS2 && e.out[k].state == PubCompPending && !IsFree(e.out[k])
    requires DistinctIds(e.out)
    ensures UpdateAck(e, e.out[k].packetId, Pubcomp, Receive)
            == Outcome(Success, PublishDone, e.(out := Remove(e.out, k)))
  {}

  /** The engine after two published and PUBREC'd messages. */
  function TwoPubrecd(e: Engine): Engine {
    var e1 := PublishCall(e, 1, QoS2, false, Success, true).engine;
    var e2 := PublishCall(e1, 2, QoS2, false, Success, true).engine;
    var e3 := IncomingAck(e2, 1, Pubrec, true).engine;
    IncomingAck(e3, 2, Pubrec, true).engine
  }

  lemma {:induction false} TwoPubrecdOut()
    ensures TwoPubrecd(Start(10)).out == [Record(1, QoS2, PubCompPending), Record(2, QoS2, PubCompPending)]
  {
    var e := Start(10);
    hide PublishCall, IncomingAck;
    PublishAppends(e, 1);
    var e1 := PublishCall(e, 1, QoS2, false, Success, true).engine;
    PublishAppends(e1, 2);
    var e2 := PublishCall(e1, 2, QoS2, false, Success, true).engine;
    PubrecAnswered(e2, 0);
    var e3 := IncomingAck(e2, 1, Pubrec, true).engine;
    PubrecAnswered(e3, 0);
  }

  method TwoMessagesPubrecd() returns (ctx: Context)
    ensures fresh(ctx) && fresh(ctx.outgoing) && fresh(ctx.incoming) && ctx.Valid()
    ensures ctx.Abs().out == [Record(1, QoS2, PubCompPending), Record(2, QoS2, PubCompPending)]
  {
    TwoPubrecdOut();
    ctx := new Context(10);
    var status := Publish(ctx, 1, QoS2, false, Success, true);
    status := Publish(ctx, 2, QoS2, false, Success, true);
    status := HandlePublishAcks(ctx, 1, Pubrec, true);
    status := HandlePublishAcks(ctx, 2, Pubrec, true);
  }

  /** A PUBCOMP leaves the state of the vacated slot behind, so a walk hands out nothing from behind it. */
  lemma {:induction false} CompletionHidesLater(s: seq<Record>, k: nat)
    requires k < |s| && s[k].state == PubCompPending
    ensures Walk(s[k := SlotAfterAck(s[k], PublishDone)], 0, PUBREL_STATES) <= Matching(Live(s[..k]), PUBREL_STATES)
  {
    var t := s[k := SlotAfterAck(s[k], PublishDone)];
    WalkStopsAt(t, 0, k, PUBREL_STATES);
    assert t[0..k] == s[..k];
  }

  /** With two PUBREL-phase records, completing the first hides the second from the walk. */
  lemma {:induction false} SecondPubrelHidden(s: seq<Record>, id: PacketId)
    requires |Live(s)| == 2 && DistinctIds(Live(s)) && Live(s)[0].packetId == id
    requires Live(s)[0].state == PubCompPending && Live(s)[1].state in PUBREL_STATES
    ensures var k := IndexOf(s, id);
            && k < |s| 
            && var t := s[k := SlotAfterAck(s[k], PublishDone)];
               Matching(Live(t), PUBREL_STATES) == [Live(s)[1].packetId] && Walk(t, 0, PUBREL_STATES) == []
  {
    var k := IndexOf(s, id);
    assert Live(s)[0] in Live(s);
    LiveHasId(s, id);
    FoundPlace(s, k, id);
    CompletionHidesLater(s, k);
    LiveSplit(s, k);
    LiveUpdate(s, k, SlotAfterAck(s[k], PublishDone));
    assert Live(s[k := SlotAfterAck(s[k], PublishDone)]) == [Live(s)[1]];
  }

  /** The walk does miss PUBRELs in an ordinary flow: two QoS 2 messages are published and PUBREC'd, the
      first is completed, and a walk after that does not hand out the second. */
  method PubrelMissedAfterCompletion() returns (pending: seq<PacketId>, handedOut: seq<PacketId>)
    ensures pending == [2] && handedOut == []
  {
    var ctx := TwoMessagesPubrecd();
    PubcompRemoves(ctx.Abs(), 0);
    SecondPubrelHidden(ctx.outgoing[..], 1);
    var status, newState := ctx.UpdateStateAck(1, Pubcomp, Receive);
    pending := Matching(Live(ctx.outgoing[..]), PUBREL_STATES);
    handedOut := Walk(ctx.outgoing[..], 0, PUBREL_STATES);
  }

  // ----- QoS 2 delivery

  /** Where an incoming QoS 2 message stands, read off the history alone. */
  datatype Phase = Idle | Received | Acked | Released | Violated

  /** One action of the history. Only an idle id may be delivered, and only a released one completed. */
  function Advance(p: Phase, id: PacketId, a: Action): Phase {
    if p == Violated then Violated
    else
      match a
      case Delivered(i, q) => if i != id || q != QoS2 then p else if p == Idle then Received else Violated
      case AckSent(ack, i) =>
        if i != id then p
        else if ack == Pubrec && p == Received then Acked
        else if ack == Pubcomp then (if p == Released then Idle else Violated)
        else p
      case AckReceived(ack, i) => if i == id && ack == Pubrel && p == Acked then Released else p
      case SessionCleared => Idle
      case _ => p
  }

  function PhaseOf(trace: History, id: PacketId): Phase {
    match trace
    case Nothing => Idle
    case After(past, latest) => Advance(PhaseOf(past, id), id, latest)
  }

  /** The phase that a record of an incoming message stands for. */
  function StatePhase(r: Record): Phase {
    if r.qos != QoS2 then Idle
    else
      match r.state
      case PubRecSend => Received
      case PubRelPending => Acked
      case PubCompSend => Released
      case _ => Violated
  }

  function RecordPhase(inc: seq<Record>, id: PacketId): Phase {
    var k := IndexOf(inc, id);
    if k == |inc| then Idle else StatePhase(inc[k])
  }

  /** The history of an id and its record agree. */
  predicate Tracks(e: Engine, id: PacketId) {
    PhaseOf(e.trace, id) == RecordPhase(e.inc, id) != Violated
  }

  /** How the edits of a record sequence change the phase of each id. */
  lemma {:induction false} RecordPhaseEdits(inc: seq<Record>, capacity: nat, k: nat, id: PacketId, next: PublishState)
    requires Records(inc, capacity, true) && k < |inc|
    ensures id != inc[k].packetId ==>
              && RecordPhase(Remove(inc, k), id) == RecordPhase(inc, id)
              && RecordPhase(inc[k := inc[k].(state := next)], id) == RecordPhase(inc, id)
    ensures id == inc[k].packetId ==>
              && RecordPhase(Remove(inc, k), id) == Idle
              && IndexOf(inc[k := inc[k].(state := next)], id) == k
  {
    RemovedIsGone(inc, k);
    var removed, updated := Remove(inc, k), inc[k := inc[k].(state := next)];
    var i := IndexOf(inc, id);
    if id == inc[k].packetId {
      IndexOfUnique(updated, k);
    } else if i < |inc| {
      IndexOfUnique(updated, i);
      IndexOfUnique(removed, if i < k then i else i - 1);
    } else {
      assert forall j :: 0 <= j < |inc| ==> inc[j].packetId != id;
    }
  }

  lemma {:induction false} RecordPhaseAppend(inc: seq<Record>, r: Record, id: PacketId)
    requires !HasId(inc, r.packetId) && IncomingRecord(r) && r.state in {PubAckSend, PubRecSend}
    requires DistinctIds(inc)
    ensures RecordPhase(inc + [r], id) == Advance(RecordPhase(inc, id), id, Delivered(r.packetId, r.qos))
  {
    var k := IndexOf(inc, id);
    if k < |inc| {
      IndexOfUnique(inc + [r], k);
    } else if id == r.packetId {
      IndexOfUnique(inc + [r], |inc|);
    }
  }

  function AckAction(op: Operation, ack: AckType, id: PacketId): Action {
    if op == Send then AckSent(ack, id) else AckReceived(ack, id)
  }

  /** An acknowledgement moves the record of an incoming message as the history moves its phase. */
  lemma {:induction false} AckMovesPhase(r: Record, ack: AckType, op: Operation)
    requires IncomingRecord(r) && !IsPublishOutgoing(ack, op)
    requires ValidTransitionAck(r.state, CalculateStateAck(ack, op, r.qos))
    ensures var next := CalculateStateAck(ack, op, r.qos);
            && next != PubRelSend
            && (if next == PublishDone then Idle else StatePhase(r.(state := next)))
               == Advance(StatePhase(r), r.packetId, AckAction(op, ack, r.packetId))
  {}

  lemma {:induction false} AckRecordsPhase(inc: seq<Record>, capacity: nat, k: nat, ack: AckType, op: Operation, id: PacketId)
    requires Records(inc, capacity, true) && k < |inc| && !IsPublishOutgoing(ack, op)
    requires ValidTransitionAck(inc[k].state, CalculateStateAck(ack, op, inc[k].qos))
    ensures RecordPhase(AckRecords(inc, k, CalculateStateAck(ack, op, inc[k].qos)), id)
            == Advance(RecordPhase(inc, id), id, AckAction(op, ack, inc[k].packetId))
  {
    hide CalculateStateAck, ValidTransitionAck, IsPublishOutgoing, StatePhase, Remove, IncomingRecord;
    AckMovesPhase(inc[k], ack, op);
    RecordPhaseEdits(inc, capacity, k, id, CalculateStateAck(ack, op, inc[k].qos));
    if id == inc[k].packetId {
      IndexOfUnique(inc, k);
    }
  }

  /** A refused acknowledgement means nothing for the phase either, unless it is a PUBCOMP. */
  lemma {:induction false} RefusedAckPhase(inc: seq<Record>, capacity: nat, k: nat, ack: AckType, op: Operation, id: PacketId)
    requires Records(inc, capacity, true) && k < |inc| && !IsPublishOutgoing(ack, op)
    requires !ValidTransitionAck(inc[k].state, CalculateStateAck(ack, op, inc[k].qos))
    requires op == Send ==> ack != Pubcomp
    ensures RecordPhase(inc, id) == Advance(RecordPhase(inc, id), id, AckAction(op, ack, inc[k].packetId))
  {
    IndexOfUnique(inc, k);
  }

  lemma {:induction false} NoRecordPhase(inc: seq<Record>, i: PacketId, ack: AckType, op: Operation, id: PacketId)
    requires IndexOf(inc, i) == |inc| && !(ack == Pubcomp && op == Send && i == id)
    ensures RecordPhase(inc, id) == Advance(RecordPhase(inc, id), id, AckAction(op, ack, i))
  {}

  lemma {:induction false} OutgoingAckPhase(p: Phase, i: PacketId, ack: AckType, op: Operation, id: PacketId)
    requires IsPublishOutgoing(ack, op)
    ensures Advance(p, id, AckAction(op, ack, i)) == p
  {}

  lemma {:induction false} UpdateAckPhase(e: Engine, i: PacketId, ack: AckType, op: Operation, id: PacketId)
    requires Records(e.inc, e.capacity, true) && RecordPhase(e.inc, id) != Violated
    requires ack == Pubcomp && op == Send && i == id ==> RecordPhase(e.inc, id) == Released
    ensures RecordPhase(UpdateAck(e, i, ack, op).engine.inc, id)
            == Advance(RecordPhase(e.inc, id), id, AckAction(op, ack, i))
  {
    var k := IndexOf(e.inc, i);
    if IsPublishOutgoing(ack, op) {
      OutgoingAckPhase(RecordPhase(e.inc, id), i, ack, op, id);
    } else if k == |e.inc| {
      NoRecordPhase(e.inc, i, ack, op, id);
    } else if ValidTransitionAck(e.inc[k].state, CalculateStateAck(ack, op, e.inc[k].qos)) {
      AckRecordsPhase(e.inc, e.capacity, k, ack, op, id);
    } else if op == Receive || ack != Pubcomp {
      RefusedAckPhase(e.inc, e.capacity, k, ack, op, id);
    }
  }

  lemma {:induction false} UpdateAckTrace(e: Engine, i: PacketId, ack: AckType, op: Operation, id: PacketId)
    ensures PhaseOf(UpdateAck(e, i, ack, op).engine.trace, id) == PhaseOf(e.trace, id)
  {}

  lemma {:induction false} UpdateAckTracks(e: Engine, i: PacketId, ack: AckType, op: Operation, id: PacketId)
    requires Inv(e) && Tracks(e, id)
    requires ack == Pubcomp && op == Send && i == id ==> RecordPhase(e.inc, id) == Released
    ensures Tracks(UpdateAck(e.Emit(AckAction(op, ack, i)), i, ack, op).engine, id)
  {
    hide UpdateAck, RecordPhase, InOrder, Records;
    var e1 := e.Emit(AckAction(op, ack, i));
    UpdateAckPhase(e1, i, ack, op, id);
    UpdateAckTrace(e1, i, ack, op, id);
    assert PhaseOf(e1.trace, id) == Advance(PhaseOf(e.trace, id), id, AckAction(op, ack, i)) != Violated;
  }

  lemma {:induction false} SendAcksTracks(e: Engine, i: PacketId, state: PublishState, sent: bool, id: PacketId)
    requires Inv(e) && Tracks(e, id)
    requires state == PubCompSend && i == id ==> RecordPhase(e.inc, id) == Released
    ensures Tracks(SendAcks(e, i, state, sent).engine, id)
  {
    var ack := AckToSend(state);
    if ack != [] {
      UpdateAckTracks(e, i, ack[0], Send, id);
    }
  }

  lemma {:induction false} ResendTracks(e: Engine, ids: seq<PacketId>, link: nat -> bool, i: nat, id: PacketId)
    requires Inv(e) && Tracks(e, id)
    ensures Tracks(ResendPubrels(e, ids, link, i).engine, id)
    decreases |ids|
  {
    if ids != [] {
      InvSendAcks(e, ids[0], PubRelSend, link(i));
      SendAcksTracks(e, ids[0], PubRelSend, link(i), id);
      ResendTracks(SendAcks(e, ids[0], PubRelSend, link(i)).engine, ids[1..], link, i + 1, id);
    }
  }

  lemma {:induction false} FirstDeliveryTracks(e: Engine, i: PacketId, qos: QoS, id: PacketId)
    requires Inv(e) && Tracks(e, id) && UpdatePublish(e, i, Receive, qos).status == Success
    ensures Tracks(UpdatePublish(e, i, Receive, qos).engine.Emit(Delivered(i, qos)), id)
    ensures Inv(UpdatePublish(e, i, Receive, qos).engine.Emit(Delivered(i, qos)))
  {
    var o := UpdatePublish(e, i, Receive, qos);
    InvUpdatePublish(e, i, Receive, qos);
    InvEmit(o.engine, Delivered(i, qos));
    if qos != QoS0 {
      RecordPhaseAppend(e.inc, Record(i, qos, o.state), id);
    }
  }

  lemma {:induction false} IncomingPublishTracks(e: Engine, i: PacketId, qos: QoS, sent: bool, id: PacketId)
    requires Inv(e) && Tracks(e, id)
    ensures Tracks(IncomingPublish(e, i, qos, sent).engine, id)
  {
    var o := UpdatePublish(e, i, Receive, qos);
    if o.status == Success {
      FirstDeliveryTracks(e, i, qos, id);
      assert o.state != PubCompSend;
      SendAcksTracks(o.engine.Emit(Delivered(i, qos)), i, o.state, sent, id);
    } else if o.status == StateCollision {
      SendAcksTracks(e, i, CalculateStatePublish(Receive, qos), sent, id);
    }
  }

  lemma {:induction false} IncomingAckTracks(e: Engine, i: PacketId, ack: AckType, sent: bool, id: PacketId)
    requires Inv(e) && Tracks(e, id)
    ensures Tracks(IncomingAck(e, i, ack, sent).engine, id)
  {
    var e1 := e.Emit(AckReceived(ack, i));
    InvEmit(e, AckReceived(ack, i));
    InvUpdateAck(e1, i, ack, Receive);
    UpdateAckTracks(e, i, ack, Receive, id);
    var o := UpdateAck(e1, i, ack, Receive);
    if o.status == Success {
      if ack == Pubrel && i == id {
        var k := IndexOf(e.inc, i);
        RecordPhaseEdits(e.inc, e.capacity, k, id, PubCompSend);
      }
      SendAcksTracks(o.engine, i, o.state, sent, id);
    }
  }

  lemma {:induction false} PublishCallTracks(e: Engine, i: PacketId, qos: QoS, dup: bool, serialized: Status, sent: bool, id: PacketId)
    requires Tracks(e, id)
    ensures Tracks(PublishCall(e, i, qos, dup, serialized, sent).engine, id)
  {
    var r := Reserve(e, i, qos).engine;
    assert r.trace == e.trace || r.trace == e.Emit(Reserved(i)).trace;
    assert Tracks(r, id) && r.inc == e.inc;
    UpdatePublishSendTracks(r.Emit(PublishSent(i, qos, dup)), i, qos, id);
  }

  lemma {:induction false} UpdatePublishSendTracks(e: Engine, i: PacketId, qos: QoS, id: PacketId)
    requires Tracks(e, id)
    ensures Tracks(UpdatePublish(e, i, Send, qos).engine, id)
  {}

  /** The application itself tells the engine of an incoming PUBLISH, or of an acknowledgement for one. */
  predicate DirectCall(ev: Event) {
    || (ev.UpdatePublishCalled? && ev.op == Receive && ev.qos == QoS2)
    || (ev.UpdateAckCalled? && ev.ack != Puback && !IsPublishOutgoing(ev.ack, ev.op))
  }

  lemma {:induction false} OutgoingCallTracks(e: Engine, i: PacketId, ack: AckType, op: Operation, id: PacketId)
    requires Inv(e) && Tracks(e, id) && (ack == Puback || IsPublishOutgoing(ack, op))
    ensures Tracks(UpdateAck(e, i, ack, op).engine, id)
  {
    UpdateAckTrace(e, i, ack, op, id);
    UpdateAckPhase(e, i, ack, op, id);
  }

  lemma {:induction false} StepTracks(e: Engine, ev: Event, id: PacketId)
    requires Inv(e) && Tracks(e, id) && !DirectCall(ev)
    ensures Tracks(Step(e, ev), id)
  {
    match ev
    case PublishRequested(i, qos, dup, serialized, sent) => PublishCallTracks(e, i, qos, dup, serialized, sent, id);
    case PublishArrived(i, qos, sent) => IncomingPublishTracks(e, i, qos, sent, id);
    case AckArrived(i, ack, sent) => IncomingAckTracks(e, i, ack, sent, id);
    case SessionResumed(count, link) => ResendTracks(e, ResumeIds(e, count), link, 0, id);
    case SessionLost =>
    case ReserveCalled(i, qos) =>
    case UpdatePublishCalled(i, op, qos) =>
      if op == Receive && qos == QoS1 && UpdatePublish(e, i, op, qos).status == Success {
        RecordPhaseAppend(e.inc, Record(i, qos, PubAckSend), id);
      }
    case UpdateAckCalled(i, ack, op) => OutgoingCallTracks(e, i, ack, op, id);
  }

  /** In every run of the client the history of each id is a legal QoS 2 exchange, and its phase is the
      one the record stands for: a message is delivered only when the id is idle, and PUBCOMP is sent
      only after delivery, a sent PUBREC and a received PUBREL, in this order. */
  lemma {:induction false} DeliveryLegal(capacity: nat, evs: seq<Event>, id: PacketId)
    requires forall ev <- evs :: !DirectCall(ev)
    ensures Tracks(Run(Start(capacity), evs), id)
    decreases |evs|
  {
    if evs != [] {
      var front := evs[..|evs| - 1];
      DeliveryLegal(capacity, front, id);
      RunInvariant(capacity, front);
      StepTracks(Run(Start(capacity), front), evs[|evs| - 1], id);
    }
  }

  function Count(trace: History, a: Action): nat {
    match trace
    case Nothing => 0
    case After(past, latest) => Count(past, a) + if latest == a then 1 else 0
  }

  lemma {:induction false} DeliveriesBounded(trace: History, id: PacketId)
    requires PhaseOf(trace, id) != Violated
    ensures Count(trace, Delivered(id, QoS2))
            <= Count(trace, AckSent(Pubcomp, id)) + Count(trace, SessionCleared)
               + if PhaseOf(trace, id) == Idle then 0 else 1
    ensures Count(trace, AckSent(Pubcomp, id)) + (if PhaseOf(trace, id) == Idle then 0 else 1)
            <= Count(trace, Delivered(id, QoS2))
  {
    if trace.After? {
      DeliveriesBounded(trace.past, id);
    }
  }

  /** At-most-once delivery: a QoS 2 message of an id is handed to the application at most once more than
      exchanges of this id were completed with PUBCOMP or sessions were dropped. */
  lemma {:induction false} AtMostOnceDelivery(capacity: nat, evs: seq<Event>, id: PacketId)
    requires forall ev <- evs :: !DirectCall(ev)
    ensures var trace := Run(Start(capacity), evs).trace;
            && Count(trace, AckSent(Pubcomp, id)) <= Count(trace, Delivered(id, QoS2))
            && Count(trace, Delivered(id, QoS2))
               <= 1 + Count(trace, AckSent(Pubcomp, id)) + Count(trace, SessionCleared)
  {
    DeliveryLegal(capacity, evs, id);
    DeliveriesBounded(Run(Start(capacity), evs).trace, id);
  }
}
