/** The sender side of section 4.3.3 of MQTT 3.1.1 over whole runs: when a PUBLISH and a PUBREL may be sent,
    and when an outgoing message may be forgotten. */
module SenderProperties {
  import opened MqttTypes
  import opened PublishRecords
  import opened PublishEngine
  import opened ClientSession
  import opened SessionProperties

  /** A PUBREL has been sent since the PUBREC was accepted. */
  predicate PubrelSent(trace: History, id: PacketId) {
    Last(trace, PubrecAccepted(id)) < Last(trace, AckSent(Pubrel, id))
  }

  /** The message was reserved in the present session, and its PUBREC was accepted since then. */
  predicate PubrecSince(trace: History, id: PacketId) {
    Last(trace, SessionCleared) < Last(trace, Reserved(id)) < Last(trace, PubrecAccepted(id))
  }

  /** May this action follow? A PUBREC is accepted when it has just arrived, a PUBREL is sent after that, and
      a PUBLISH without DUP follows its own reservation at once. */
  predicate Allowed(past: History, a: Action) {
    match a
    case PubrecAccepted(id) => past.After? && past.latest == AckReceived(Pubrec, id)
    case AckSent(ack, id) => ack == Pubrel ==> PubrecSince(past, id)
    case PublishSent(id, qos, dup) => qos == QoS0 || dup || (past.After? && past.latest == Reserved(id))
    case _ => true
  }

  predicate SenderHistory(trace: History) {
    match trace
    case Nothing => true
    case After(past, latest) => SenderHistory(past) && Allowed(past, latest)
  }

  /** The two states of the PUBREL phase tell whether the PUBREL has been sent. */
  predicate PubrelStamped(trace: History, r: Record) {
    r.state in PUBREL_STATES ==> (r.state == PubCompPending <==> PubrelSent(trace, r.packetId))
  }

  predicate SenderInv(e: Engine) {
    && Inv(e) && SenderHistory(e.trace)
    && forall i :: 0 <= i < |e.out| ==> PubrelStamped(e.trace, e.out[i])
  }

  /** The application itself tells the engine of a PUBREC it got or a PUBREL it sent. */
  predicate DirectPubrel(ev: Event) {
    ev.UpdateAckCalled? && IsPublishOutgoing(ev.ack, ev.op) && (ev.ack == Pubrec || ev.ack == Pubrel)
  }

  // ----- the steps

  lemma {:induction false} SenderEmit(e: Engine, a: Action)
    requires SenderInv(e) && OrderNeutral(a) && Allowed(e.trace, a) && !(a.AckSent? && a.ack == Pubrel)
    ensures SenderInv(e.Emit(a))
  {
    InvEmit(e, a);
    forall i | 0 <= i < |e.out| ensures PubrelStamped(e.trace.Then(a), e.out[i]) { StampKept(e.trace, a, e.out[i]); }
  }

  lemma {:induction false} SenderReserve(e: Engine, id: PacketId, qos: QoS)
    requires SenderInv(e)
    ensures SenderInv(Reserve(e, id, qos).engine)
  {
    InvReserve(e, id, qos);
    var f := Reserve(e, id, qos).engine;
    forall i | 0 <= i < |f.out| ensures PubrelStamped(f.trace, f.out[i]) {
      if i < |e.out| { assert PubrelStamped(e.trace, e.out[i]); }
    }
  }

  lemma {:induction false} SenderUpdatePublish(e: Engine, id: PacketId, op: Operation, qos: QoS)
    requires SenderInv(e)
    ensures SenderInv(UpdatePublish(e, id, op, qos).engine)
  {
    InvUpdatePublish(e, id, op, qos);
    var f := UpdatePublish(e, id, op, qos).engine;
    forall i | 0 <= i < |f.out| ensures PubrelStamped(f.trace, f.out[i]) {
      assert PubrelStamped(e.trace, e.out[i]);
    }
  }

  lemma {:induction false} OtherAckEdit(e: Engine, id: PacketId, ack: AckType, op: Operation)
    requires Inv(e) && !(IsPublishOutgoing(ack, op) && (ack == Pubrec || ack == Pubrel))
    ensures var f, k := UpdateAck(e, id, ack, op).engine, IndexOf(e.out, id);
            f.trace == e.trace && (f.out == e.out || (k < |e.out| && f.out == Remove(e.out, k)))
  {
    hide InOrder, DistinctIds;
  }

  /** Acknowledgements that leave the PUBREL phase of every other record alone. */
  lemma {:induction false} SenderOtherAck(e: Engine, id: PacketId, ack: AckType, op: Operation)
    requires SenderInv(e) && !(IsPublishOutgoing(ack, op) && (ack == Pubrec || ack == Pubrel))
    ensures SenderInv(UpdateAck(e, id, ack, op).engine)
  {
    InvUpdateAck(e, id, ack, op);
    OtherAckEdit(e, id, ack, op);
    hide UpdateAck, Inv, SenderHistory, IsPublishOutgoing;
    var f, k := UpdateAck(e, id, ack, op).engine, IndexOf(e.out, id);
    forall i | 0 <= i < |f.out| ensures PubrelStamped(f.trace, f.out[i]) {
      assert PubrelStamped(e.trace, e.out[if f.out == e.out || i < k then i else i + 1]);
    }
  }

  lemma {:induction false} PubrecEdit(e: Engine, id: PacketId)
    requires Inv(e)
    ensures var o, k := UpdateAck(e, id, Pubrec, Receive), IndexOf(e.out, id);
            if o.status != Success then o.engine == e
            else
              && k < |e.out| && e.out[k].packetId == id && o.state == PubRelSend
              && o.engine == e.(out := Remove(e.out, k) + [Record(id, QoS2, PubRelSend)]).Emit(PubrecAccepted(id))
  {
    hide InOrder, DistinctIds;
  }

  lemma {:induction false} StampKept(trace: History, a: Action, r: Record)
    requires PubrelStamped(trace, r) && a != PubrecAccepted(r.packetId) && a != AckSent(Pubrel, r.packetId)
    ensures PubrelStamped(trace.Then(a), r)
  {}

  lemma {:induction false} NewlyStamped(trace: History, id: PacketId)
    ensures PubrelStamped(trace.Then(PubrecAccepted(id)), Record(id, QoS2, PubRelSend))
  {}

  lemma {:induction false} OtherStamped(e: Engine, k: nat, i: nat)
    requires SenderInv(e) && k < |e.out| && i < |e.out| - 1
    ensures PubrelStamped(e.trace.Then(PubrecAccepted(e.out[k].packetId)), Remove(e.out, k)[i])
  {
    hide PubrelStamped, SenderHistory, InOrder;
    StampKept(e.trace, PubrecAccepted(e.out[k].packetId), e.out[if i < k then i else i + 1]);
  }

  lemma {:induction false} SenderPubrec(e: Engine, id: PacketId)
    requires SenderInv(e) && e.trace.After? && e.trace.latest == AckReceived(Pubrec, id)
    ensures SenderInv(UpdateAck(e, id, Pubrec, Receive).engine)
  {
    InvUpdateAck(e, id, Pubrec, Receive);
    PubrecEdit(e, id);
    var o, k := UpdateAck(e, id, Pubrec, Receive), IndexOf(e.out, id);
    hide UpdateAck, Inv, PubrelStamped;
    if o.status == Success {
      var f := o.engine;
      NewlyStamped(e.trace, id);
      forall i | 0 <= i < |f.out| ensures PubrelStamped(f.trace, f.out[i]) {
        if i < |e.out| - 1 { OtherStamped(e, k, i); }
      }
    }
  }

  /** The id has a record in the PUBREL phase. */
  predicate InPubrelPhase(out: seq<Record>, id: PacketId) {
    var k := IndexOf(out, id);
    k < |out| && out[k].state in PUBREL_STATES
  }

  lemma {:induction false} PubrelEdit(e: Engine, id: PacketId)
    requires Inv(e) && InPubrelPhase(e.out, id) && id != INVALID_ID
    ensures var k := IndexOf(e.out, id);
            && k < |e.out| && e.out[k].packetId == id && e.out[k].state in PUBREL_STATES
            && Stamped(e.trace, e.out[k])
            && UpdateAck(e.Emit(AckSent(Pubrel, id)), id, Pubrel, Send).engine
               == e.(out := e.out[k := e.out[k].(state := PubCompPending)]).Emit(AckSent(Pubrel, id))
  {
    hide Before, DistinctIds, Stamped;
    assert OutgoingRecord(e.out[IndexOf(e.out, id)]);
  }

  lemma {:induction false} PhaseKept(out: seq<Record>, k: nat, i: PacketId)
    requires k < |out| && InPubrelPhase(out, i)
    ensures InPubrelPhase(out[k := out[k].(state := PubCompPending)], i)
  {
    var j, now := IndexOf(out, i), out[k := out[k].(state := PubCompPending)];
    assert forall l :: 0 <= l < j ==> now[l].packetId == out[l].packetId != now[j].packetId;
    IndexOfFirst(now, j);
  }

  lemma {:induction false} PubrelAllowed(trace: History, r: Record)
    requires SenderHistory(trace) && Stamped(trace, r) && r.state in PUBREL_STATES
    ensures SenderHistory(trace.Then(AckSent(Pubrel, r.packetId)))
  {}

  lemma {:induction false} SenderPubrel(e: Engine, id: PacketId)
    requires SenderInv(e) && InPubrelPhase(e.out, id) && id != INVALID_ID
    ensures SenderInv(UpdateAck(e.Emit(AckSent(Pubrel, id)), id, Pubrel, Send).engine)
    ensures forall i :: InPubrelPhase(e.out, i) ==> InPubrelPhase(UpdateAck(e.Emit(AckSent(Pubrel, id)), id, Pubrel, Send).engine.out, i)
  {
    var e1, k := e.Emit(AckSent(Pubrel, id)), IndexOf(e.out, id);
    InvEmit(e, AckSent(Pubrel, id));
    InvUpdateAck(e1, id, Pubrel, Send);
    PubrelEdit(e, id);
    hide UpdateAck, Inv, InPubrelPhase, SenderHistory, Stamped;
    var f := UpdateAck(e1, id, Pubrel, Send).engine;
    assert SenderHistory(f.trace) by { PubrelAllowed(e.trace, e.out[k]); }
    var out := e.out[k := e.out[k].(state := PubCompPending)];
    forall i | 0 <= i < |out| ensures PubrelStamped(f.trace, out[i]) {
      assert PubrelStamped(e.trace, e.out[i]);
    }
    forall i | InPubrelPhase(e.out, i) ensures InPubrelPhase(out, i) { PhaseKept(e.out, k, i); }
  }

  lemma {:induction false} SenderSendAcks(e: Engine, id: PacketId, state: PublishState, sent: bool)
    requires SenderInv(e) && (state == PubRelSend ==> InPubrelPhase(e.out, id))
    ensures SenderInv(SendAcks(e, id, state, sent).engine)
    ensures state == PubRelSend ==>
              forall i :: InPubrelPhase(e.out, i) ==> InPubrelPhase(SendAcks(e, id, state, sent).engine.out, i)
  {
    var ack := AckToSend(state);
    if ack != [] && sent && id != INVALID_ID {
      if state == PubRelSend {
        SenderPubrel(e, id);
      } else {
        SenderEmit(e, AckSent(ack[0], id));
        SenderOtherAck(e.Emit(AckSent(ack[0], id)), id, ack[0], Send);
      }
    }
  }

  lemma {:induction false} SenderResend(e: Engine, ids: seq<PacketId>, link: nat -> bool, i: nat)
    requires SenderInv(e) && forall j :: 0 <= j < |ids| ==> InPubrelPhase(e.out, ids[j])
    ensures SenderInv(ResendPubrels(e, ids, link, i).engine)
    decreases |ids|
  {
    if ids != [] {
      SenderSendAcks(e, ids[0], PubRelSend, link(i));
      SenderResend(SendAcks(e, ids[0], PubRelSend, link(i)).engine, ids[1..], link, i + 1);
    }
  }

  lemma {:induction false} PendingInPhase(e: Engine, count: nat)
    requires Inv(e)
    ensures forall j :: 0 <= j < |ResumeIds(e, count)| ==> InPubrelPhase(e.out, ResumeIds(e, count)[j])
  {
    forall j | 0 <= j < |ResumeIds(e, count)| ensures InPubrelPhase(e.out, ResumeIds(e, count)[j]) {
      MatchingFrom(e.out, PUBREL_STATES, j);
      var i :| 0 <= i < |e.out| && e.out[i].state in PUBREL_STATES && e.out[i].packetId == Matching(e.out, PUBREL_STATES)[j];
      IndexOfUnique(e.out, i);
    }
  }

  lemma {:induction false} SenderPublishCall(e: Engine, id: PacketId, qos: QoS, dup: bool, serialized: Status, sent: bool)
    requires SenderInv(e)
    ensures SenderInv(PublishCall(e, id, qos, dup, serialized, sent).engine)
  {
    SenderReserve(e, id, qos);
    var r := Reserve(e, id, qos);
    if r.status == Success || dup {
      SenderEmit(r.engine, PublishSent(id, qos, dup));
      SenderUpdatePublish(r.engine.Emit(PublishSent(id, qos, dup)), id, Send, qos);
    }
  }

  lemma {:induction false} SenderIncomingAck(e: Engine, id: PacketId, ack: AckType, sent: bool)
    requires SenderInv(e)
    ensures SenderInv(IncomingAck(e, id, ack, sent).engine)
  {
    var e1 := e.Emit(AckReceived(ack, id));
    SenderEmit(e, AckReceived(ack, id));
    if ack == Pubrec { SenderPubrec(e1, id); } else { SenderOtherAck(e1, id, ack, Receive); }
    var o := UpdateAck(e1, id, ack, Receive);
    if o.status == Success {
      if o.state == PubRelSend { AcceptedInPhase(e1, id); }
      SenderSendAcks(o.engine, id, o.state, sent);
    }
  }

  lemma {:induction false} AcceptedInPhase(e: Engine, id: PacketId)
    requires Inv(e) && UpdateAck(e, id, Pubrec, Receive).state == PubRelSend
    ensures InPubrelPhase(UpdateAck(e, id, Pubrec, Receive).engine.out, id)
  {
    InvUpdateAck(e, id, Pubrec, Receive);
    var out := UpdateAck(e, id, Pubrec, Receive).engine.out;
    IndexOfUnique(out, |out| - 1);
  }

  lemma {:induction false} SenderCleared(e: Engine)
    requires SenderHistory(e.trace)
    ensures ClearSession(e).out == [] && SenderHistory(ClearSession(e).trace)
  {}

  lemma {:induction false} ReceivedState(e: Engine, id: PacketId, qos: QoS)
    ensures UpdatePublish(e, id, Receive, qos).state != PubRelSend
  {}

  lemma {:induction false} SenderStep(e: Engine, ev: Event)
    requires SenderInv(e) && !DirectPubrel(ev)
    ensures SenderInv(Step(e, ev))
  {
    hide UpdatePublish, UpdateAck, Reserve, PublishCall, IncomingAck, SenderHistory, InOrder, Records, PubrelStamped;
    match ev
    case PublishRequested(id, qos, dup, serialized, sent) => SenderPublishCall(e, id, qos, dup, serialized, sent);
    case PublishArrived(id, qos, sent) =>
      SenderUpdatePublish(e, id, Receive, qos);
      var o := UpdatePublish(e, id, Receive, qos);
      SenderEmit(o.engine, Delivered(id, qos));
      assert o.state != PubRelSend by { ReceivedState(e, id, qos); }
      SenderSendAcks(o.engine.Emit(Delivered(id, qos)), id, o.state, sent);
      SenderSendAcks(e, id, CalculateStatePublish(Receive, qos), sent);
    case AckArrived(id, ack, sent) => SenderIncomingAck(e, id, ack, sent);
    case SessionResumed(count, link) =>
      PendingInPhase(e, count);
      SenderResend(e, ResumeIds(e, count), link, 0);
    case SessionLost => InvStep(e, ev); SenderCleared(e);
    case ReserveCalled(id, qos) => SenderReserve(e, id, qos);
    case UpdatePublishCalled(id, op, qos) => SenderUpdatePublish(e, id, op, qos);
    case UpdateAckCalled(id, ack, op) => SenderOtherAck(e, id, ack, op);
  }

  /** In every run: a PUBREL is sent only after the PUBREC of its message was received and accepted, a PUBLISH
      without DUP is sent only right behind its own reservation, and the record of a message says whether
      its PUBREL has been sent. */
  lemma {:induction false} SenderLegal(capacity: nat, evs: seq<Event>)
    requires forall ev <- evs :: !DirectPubrel(ev)
    ensures SenderInv(Run(Start(capacity), evs))
    decreases |evs|
  {
    if evs != [] {
      SenderLegal(capacity, evs[..|evs| - 1]);
      SenderStep(Run(Start(capacity), evs[..|evs| - 1]), evs[|evs| - 1]);
    }
  }

  // ----- how long a message is kept

  /** The acknowledgement that ends the exchange of a record. */
  predicate Finishes(r: Record, ack: AckType) {
    (ack == Puback && r.qos == QoS1 && r.state == PubAckPending) || (ack == Pubcomp && r.qos == QoS2 && r.state == PubCompPending)
  }

  predicate Ends(ev: Event, r: Record) {
    match ev
    case SessionLost => true
    case AckArrived(id, ack, _) => id == r.packetId && Finishes(r, ack)
    case UpdateAckCalled(id, ack, op) => id == r.packetId && op == Receive && Finishes(r, ack)
    case _ => false
  }

  lemma {:induction false} AckRecordsKeeps(out: seq<Record>, l: nat, next: PublishState, k: nat)
    requires DistinctIds(out) && l < |out| && k < |out|
    ensures HasId(AckRecords(out, l, next), out[k].packetId) <==> !(l == k && next == PublishDone)
  {
    RemovedIsGone(out, l);
    var after := AckRecords(out, l, next);
    if next == PublishDone || next == PubRelSend {
      if k != l { assert after[if k < l then k else k - 1] == out[k]; }
      if k == l && next == PubRelSend { assert after[|out| - 1].packetId == out[k].packetId; }
    } else {
      assert after[k].packetId == out[k].packetId;
    }
  }

  lemma {:induction false} OutgoingDone(r: Record, ack: AckType, op: Operation)
    requires OutgoingRecord(r) && IsPublishOutgoing(ack, op)
    ensures var next := CalculateStateAck(ack, op, r.qos);
            ValidTransitionAck(r.state, next) && next == PublishDone <==> op == Receive && Finishes(r, ack)
  {}

  lemma {:induction false} AckKeeps(e: Engine, id: PacketId, ack: AckType, op: Operation, i: PacketId)
    requires Inv(e) && HasId(e.out, i)
    ensures var k := IndexOf(e.out, i);
            k < |e.out| && (HasId(UpdateAck(e, id, ack, op).engine.out, i) <==> !(id == i && op == Receive && Finishes(e.out[k], ack)))
  {
    hide CalculateStateAck, ValidTransitionAck, AckRecords, InOrder, HasId;
    assert IndexOf(e.out, i) < |e.out| by { Present(e.out, i); }
    var k, l := IndexOf(e.out, i), IndexOf(e.out, id);
    assert HasId(e.out, i);
    assert OutgoingRecord(e.out[k]);
    if IsPublishOutgoing(ack, op) && l < |e.out| {
      AckRecordsKeeps(e.out, l, CalculateStateAck(ack, op, e.out[l].qos), k);
      OutgoingDone(e.out[l], ack, op);
    } else if !IsPublishOutgoing(ack, op) {
      assert UpdateAck(e, id, ack, op).engine.out == e.out;
      assert !(op == Receive && Finishes(e.out[k], ack));
    }
  }

  lemma {:induction false} Present(out: seq<Record>, i: PacketId)
    ensures HasId(out, i) <==> IndexOf(out, i) < |out|
  {}

  lemma {:induction false} SendAcksKeeps(e: Engine, id: PacketId, state: PublishState, sent: bool, i: PacketId)
    requires Inv(e) && HasId(e.out, i)
    ensures HasId(SendAcks(e, id, state, sent).engine.out, i)
  {
    var ack := AckToSend(state);
    if ack != [] {
      InvEmit(e, AckSent(ack[0], id));
      AckKeeps(e.Emit(AckSent(ack[0], id)), id, ack[0], Send, i);
    }
  }

  lemma {:induction false} ResendKeeps(e: Engine, ids: seq<PacketId>, link: nat -> bool, n: nat, i: PacketId)
    requires Inv(e) && HasId(e.out, i)
    ensures HasId(ResendPubrels(e, ids, link, n).engine.out, i)
    decreases |ids|
  {
    if ids != [] {
      SendAcksKeeps(e, ids[0], PubRelSend, link(n), i);
      InvSendAcks(e, ids[0], PubRelSend, link(n));
      ResendKeeps(SendAcks(e, ids[0], PubRelSend, link(n)).engine, ids[1..], link, n + 1, i);
    }
  }

  lemma {:induction false} PublishKeeps(e: Engine, id: PacketId, qos: QoS, i: PacketId)
    requires HasId(e.out, i)
    ensures HasId(Reserve(e, id, qos).engine.out, i)
    ensures forall op :: HasId(UpdatePublish(e, id, op, qos).engine.out, i)
  {
    var k := IndexOf(e.out, i);
    assert Reserve(e, id, qos).engine.out[k] == e.out[k];
    forall op ensures HasId(UpdatePublish(e, id, op, qos).engine.out, i) {
      assert UpdatePublish(e, id, op, qos).engine.out[k].packetId == i;
    }
  }

  /** Behind an acknowledgement that ends an exchange nothing is sent. */
  lemma {:induction false} DoneSendsNothing(e: Engine, id: PacketId, ack: AckType, i: PacketId)
    requires !HasId(UpdateAck(e, id, ack, Receive).engine.out, i) && HasId(e.out, i) && Inv(e)
    ensures AckToSend(UpdateAck(e, id, ack, Receive).state) == []
  {
    hide InOrder;
    AckKeeps(e, id, ack, Receive, i);
  }

  lemma {:induction false} IncomingAckKeeps(e: Engine, id: PacketId, ack: AckType, sent: bool, i: PacketId)
    requires Inv(e) && HasId(e.out, i)
    ensures var k := IndexOf(e.out, i);
            k < |e.out| && (HasId(IncomingAck(e, id, ack, sent).engine.out, i) <==> !(id == i && Finishes(e.out[k], ack)))
  {
    hide Inv, UpdateAck, HasId;
    var e1, k := e.Emit(AckReceived(ack, id)), IndexOf(e.out, i);
    InvEmit(e, AckReceived(ack, id));
    AckKeeps(e1, id, ack, Receive, i);
    InvUpdateAck(e1, id, ack, Receive);
    var o := UpdateAck(e1, id, ack, Receive);
    if HasId(o.engine.out, i) {
      SendAcksKeeps(o.engine, id, o.state, sent, i);
    } else {
      DoneSendsNothing(e1, id, ack, i);
    }
  }

  lemma {:induction false} PublishCallKeeps(e: Engine, id: PacketId, qos: QoS, dup: bool, serialized: Status, sent: bool, i: PacketId)
    requires HasId(e.out, i)
    ensures HasId(PublishCall(e, id, qos, dup, serialized, sent).engine.out, i)
  {
    hide Reserve, UpdatePublish, HasId;
    PublishKeeps(e, id, qos, i);
    PublishKeeps(Reserve(e, id, qos).engine.Emit(PublishSent(id, qos, dup)), id, qos, i);
  }

  lemma {:induction false} IncomingPublishKeeps(e: Engine, id: PacketId, qos: QoS, sent: bool, i: PacketId)
    requires Inv(e) && HasId(e.out, i)
    ensures HasId(IncomingPublish(e, id, qos, sent).engine.out, i)
  {
    hide UpdatePublish, SendAcks, HasId, Inv;
    var o := UpdatePublish(e, id, Receive, qos);
    PublishKeeps(e, id, qos, i);
    InvUpdatePublish(e, id, Receive, qos);
    InvEmit(o.engine, Delivered(id, qos));
    SendAcksKeeps(o.engine.Emit(Delivered(id, qos)), id, o.state, sent, i);
    SendAcksKeeps(e, id, CalculateStatePublish(Receive, qos), sent, i);
  }

  /** A message is forgotten exactly when its PUBACK or PUBCOMP arrives, or when the session is dropped. */
  lemma {:induction false} KeptUntilAcknowledged(capacity: nat, evs: seq<Event>, ev: Event, k: nat)
    requires var e := Run(Start(capacity), evs); k < |e.out|
    ensures var e := Run(Start(capacity), evs);
            HasId(Step(e, ev).out, e.out[k].packetId) <==> !Ends(ev, e.out[k])
  {
    RunInvariant(capacity, evs);
    var e := Run(Start(capacity), evs);
    var i := e.out[k].packetId;
    IndexOfUnique(e.out, k);
    hide Inv, PublishCall, IncomingPublish, IncomingAck, UpdatePublish, UpdateAck, Reserve, Finishes;
    match ev
    case PublishRequested(id, qos, dup, serialized, sent) => PublishCallKeeps(e, id, qos, dup, serialized, sent, i);
    case PublishArrived(id, qos, sent) => IncomingPublishKeeps(e, id, qos, sent, i);
    case AckArrived(id, ack, sent) => IncomingAckKeeps(e, id, ack, sent, i);
    case SessionResumed(count, link) => ResendKeeps(e, ResumeIds(e, count), link, 0, i);
    case SessionLost =>
    case ReserveCalled(id, qos) => PublishKeeps(e, id, qos, i);
    case UpdatePublishCalled(id, op, qos) => PublishKeeps(e, id, qos, i);
    case UpdateAckCalled(id, ack, op) => AckKeeps(e, id, ack, op, i);
  }

  // ----- a PUBLISH in the PUBREL phase

  /** Section 4.3.3 of MQTT 3.1.1 forbids sending a PUBLISH again once its PUBREL has been sent. In the PUBREL
      phase the client writes one exactly when the application asks for it with the DUP flag, whatever the
      quality of service, and only then reports the error; the records stay as they are. It is the forbidden
      case exactly when the record is in the later of the two states. */
  lemma {:induction false} PublishInPubrelPhase(e: Engine, k: nat, qos: QoS, dup: bool, serialized: Status, sent: bool)
    requires SenderInv(e) && k < |e.out| && e.out[k].state in PUBREL_STATES && qos != QoS0
    ensures var id := e.out[k].packetId;
            var r := PublishCall(e, id, qos, dup, serialized, sent);
            && r.status != Success
            && r.engine == (if dup && serialized == Success && sent then e.Emit(PublishSent(id, qos, dup)) else e)
            && (PubrelSent(e.trace, id) <==> e.out[k].state == PubCompPending)
  {
    IndexOfUnique(e.out, k);
    assert PubrelStamped(e.trace, e.out[k]);
  }

  /** One QoS 2 message, its PUBREC with the answer written or not, and the same id published again. */
  function PublishedAgain(answered: bool, qos: QoS): seq<Event> {
    [PublishRequested(1, QoS2, false, Success, true), AckArrived(1, Pubrec, answered), PublishRequested(1, qos, true, Success, true)]
  }

  lemma {:induction false} OnePubrecd(answered: bool)
    ensures var e := IncomingAck(PublishCall(Start(10), 1, QoS2, false, Success, true).engine, 1, Pubrec, answered).engine;
            e.out == [Record(1, QoS2, if answered then PubCompPending else PubRelSend)]
  {
    var e := PublishCall(Start(10), 1, QoS2, false, Success, true).engine;
    PublishAppends(Start(10), 1);
    assert e.out == [Record(1, QoS2, PubRecPending)];
    PubrecMovesRecord(e.Emit(AckReceived(Pubrec, 1)), 0);
    if answered { PubrecAnswered(e, 0); }
  }

  lemma {:induction false} RunTwice(e: Engine, first: Event, second: Event)
    ensures Run(e, [first, second]) == Step(Step(e, first), second)
  {
    var evs := [first, second];
    assert evs[..1] == [first] && evs[..1][..0] == [];
    assert Run(e, evs[..1]) == Step(e, first);
  }

  /** Both cases occur in a run of three events: with the PUBREL sent, and with its write failed. */
  lemma {:induction false} PublishSentAgain(answered: bool, qos: QoS)
    requires qos != QoS0
    ensures var trace := Run(Start(10), PublishedAgain(answered, qos)).trace;
            && trace.After? && trace.latest == PublishSent(1, qos, true)
            && (PubrelSent(trace.past, 1) <==> answered) && PubrecSince(trace.past, 1)
  {
    hide PublishCall, IncomingAck, SenderHistory, PubrelSent, InOrder, Records;
    var evs := PublishedAgain(answered, qos);
    var e := Run(Start(10), evs[..2]);
    assert evs[..2] == [evs[0], evs[1]];
    RunTwice(Start(10), evs[0], evs[1]);
    OnePubrecd(answered);
    SenderLegal(10, evs[..2]);
    PublishInPubrelPhase(e, 0, qos, true, Success, true);
    RecordStamped(e, 0);
  }

  lemma {:induction false} RecordStamped(e: Engine, k: nat)
    requires Inv(e) && k < |e.out|
    ensures Stamped(e.trace, e.out[k])
  {}
}
