/** What each event does, as the application and the broker see it: which actions the history gains, and which
    records are kept. Nothing here speaks of the handlers' own functions, only of what comes out. */
module SessionOutcomes {
  import opened MqttTypes
  import opened PublishRecords
  import opened PublishEngine
  import opened ClientSession
  import opened SessionProperties

  // ----- publishing

  /** The header was written, and the message needs no record, gets a new one, or has one and is a duplicate. */
  predicate Publishable(e: Engine, id: PacketId, qos: QoS, dup: bool, serialized: Status) {
    && serialized == Success
    && (qos == QoS0 || (id != 0 && if HasId(e.out, id) then dup else |e.out| < e.capacity))
  }

  lemma {:induction false} PublishUnrecorded(e: Engine, id: PacketId, dup: bool, sent: bool)
    ensures PublishCall(e, id, QoS0, dup, Success, sent)
            == if sent then Result(Success, e.Emit(PublishSent(id, QoS0, dup))) else Result(SendFailed, e)
  {}

  /** A new message: its record stays behind as sent, or as still to be sent. */
  lemma {:induction false} PublishNew(e: Engine, id: PacketId, qos: QoS, dup: bool, sent: bool)
    requires qos != QoS0 && id != 0 && !HasId(e.out, id) && |e.out| < e.capacity
    ensures PublishCall(e, id, qos, dup, Success, sent)
            == if sent then
                 var r := Record(id, qos, if qos == QoS1 then PubAckPending else PubRecPending);
                 Result(Success, e.(out := e.out + [r]).Emit(Reserved(id)).Emit(PublishSent(id, qos, dup)))
               else
                 Result(SendFailed, e.(out := e.out + [Record(id, qos, PublishSend)]).Emit(Reserved(id)))
  {
    var r := Record(id, qos, if qos == QoS1 then PubAckPending else PubRecPending);
    var out := e.out + [Record(id, qos, PublishSend)];
    assert forall j :: 0 <= j < |e.out| ==> out[j].packetId != id;
    IndexOfFirst(out, |e.out|);
    assert out[|e.out| := r] == e.out + [r];
  }

  /** A message with a record: written again when it is a duplicate, and then marked as sent unless its record is
      one of another quality of service or past its PUBREC. */
  lemma {:induction false} PublishAgain(e: Engine, k: nat, qos: QoS, dup: bool, sent: bool)
    requires Inv(e) && k < |e.out| && qos != QoS0
    ensures var r := e.out[k];
            var pending := if qos == QoS1 then PubAckPending else PubRecPending;
            PublishCall(e, r.packetId, qos, dup, Success, sent)
            == if !dup then Result(StateCollision, e)
               else if !sent then Result(SendFailed, e)
               else
                 var f := e.Emit(PublishSent(r.packetId, qos, dup));
                 if r.qos != qos then Result(BadParameter, f)
                 else if r.state != PublishSend && r.state != pending then Result(IllegalState, f)
                 else Result(Success, f.(out := e.out[k := Record(r.packetId, qos, pending)]))
  {
    IndexOfUnique(e.out, k);
    assert OutgoingRecord(e.out[k]);
  }

  lemma {:induction false} PublishRefused(e: Engine, id: PacketId, qos: QoS, dup: bool, serialized: Status, sent: bool)
    requires !Publishable(e, id, qos, dup, serialized)
    ensures var r := PublishCall(e, id, qos, dup, serialized, sent);
            && r.engine == e
            && r.status == if qos != QoS0 && id == 0 then BadParameter
                           else if serialized != Success then serialized
                           else if HasId(e.out, id) then StateCollision else NoMemory
  {}

  /** A PUBLISH is written exactly when it is publishable and the transport takes it, and never twice. */
  lemma {:induction false} PublishWritten(e: Engine, id: PacketId, qos: QoS, dup: bool, serialized: Status, sent: bool, a: Action)
    requires Inv(e)
    ensures var reserved := qos != QoS0 && id != 0 && !HasId(e.out, id) && |e.out| < e.capacity;
            var again := qos != QoS0 && id != 0 && HasId(e.out, id) && dup;
            Count(Step(e, PublishRequested(id, qos, dup, serialized, sent)).trace, a)
            == Count(e.trace, a)
               + (if a == PublishSent(id, qos, dup) && serialized == Success && sent && (qos == QoS0 || reserved || again) then 1 else 0)
               + (if a == Reserved(id) && serialized == Success && reserved then 1 else 0)
  {
    hide PublishCall, Inv;
    if !Publishable(e, id, qos, dup, serialized) {
      PublishRefused(e, id, qos, dup, serialized, sent);
    } else if qos == QoS0 {
      PublishUnrecorded(e, id, dup, sent);
    } else if HasId(e.out, id) {
      var k :| 0 <= k < |e.out| && e.out[k].packetId == id;
      PublishAgain(e, k, qos, dup, sent);
    } else {
      PublishNew(e, id, qos, dup, sent);
    }
  }

  /** Success above quality of service 0 leaves the one record of the id waiting for its PUBACK or PUBREC; and
      no other record is touched in any case. */
  lemma {:induction false} PublishRecorded(e: Engine, id: PacketId, qos: QoS, dup: bool, serialized: Status, sent: bool)
    requires Inv(e)
    ensures var r := PublishCall(e, id, qos, dup, serialized, sent);
            && (r.status == Success && qos != QoS0 ==>
                  Record(id, qos, if qos == QoS1 then PubAckPending else PubRecPending) in r.engine.out)
            && (r.status == Success ==> sent && serialized == Success)
            && r.engine.inc == e.inc && |e.out| <= |r.engine.out| <= |e.out| + 1
            && forall k :: 0 <= k < |e.out| ==>
                 && r.engine.out[k].packetId == e.out[k].packetId
                 && (e.out[k].packetId != id ==> r.engine.out[k] == e.out[k])
  {
    hide PublishCall, InOrder;
    var r := PublishCall(e, id, qos, dup, serialized, sent);
    if !Publishable(e, id, qos, dup, serialized) {
      PublishRefused(e, id, qos, dup, serialized, sent);
    } else if qos == QoS0 {
      PublishUnrecorded(e, id, dup, sent);
    } else if HasId(e.out, id) {
      var k :| 0 <= k < |e.out| && e.out[k].packetId == id;
      PublishAgain(e, k, qos, dup, sent);
      if r.status == Success { assert r.engine.out[k] == Record(id, qos, if qos == QoS1 then PubAckPending else PubRecPending); }
    } else {
      PublishNew(e, id, qos, dup, sent);
      if r.status == Success { assert r.engine.out[|e.out|] == Record(id, qos, if qos == QoS1 then PubAckPending else PubRecPending); }
    }
  }

  // ----- an arriving PUBLISH

  /** A message that is no duplicate and for which there is room. */
  predicate IsNew(e: Engine, id: PacketId, qos: QoS) {
    qos == QoS0 || (id != 0 && !HasId(e.inc, id) && |e.inc| < e.capacity)
  }

  lemma {:induction false} ArrivedUnrecorded(e: Engine, id: PacketId, sent: bool)
    ensures IncomingPublish(e, id, QoS0, sent) == Result(Success, e.Emit(Delivered(id, QoS0)))
  {}

  /** Sending the first acknowledgement for the record of an incoming message. */
  lemma {:induction false} Acknowledged(e: Engine, k: nat, qos: QoS)
    requires DistinctIds(e.inc) && k < |e.inc| && IncomingRecord(e.inc[k]) && qos != QoS0
    ensures var r := e.inc[k];
            var f := e.Emit(AckSent(if qos == QoS1 then Puback else Pubrec, r.packetId));
            SendAcks(e, r.packetId, if qos == QoS1 then PubAckSend else PubRecSend, true)
            == if r.qos != qos || r.state == PubCompSend then Result(IllegalState, f)
               else if qos == QoS1 then Result(Success, f.(inc := e.inc[..k] + e.inc[k + 1..]))
               else Result(Success, f.(inc := e.inc[k := Record(r.packetId, QoS2, PubRelPending)]))
  {
    IndexOfUnique(e.inc, k);
  }

  lemma {:induction false} ArrivedNew(e: Engine, id: PacketId, qos: QoS)
    requires DistinctIds(e.inc) && qos != QoS0 && IsNew(e, id, qos)
    ensures IncomingPublish(e, id, qos, false)
            == Result(SendFailed, e.(inc := e.inc + [Record(id, qos, if qos == QoS1 then PubAckSend else PubRecSend)])
                                   .Emit(Delivered(id, qos)))
    ensures qos == QoS1 ==>
              IncomingPublish(e, id, qos, true) == Result(Success, e.Emit(Delivered(id, QoS1)).Emit(AckSent(Puback, id)))
    ensures qos == QoS2 ==>
              IncomingPublish(e, id, qos, true)
              == Result(Success, e.(inc := e.inc + [Record(id, QoS2, PubRelPending)])
                                  .Emit(Delivered(id, QoS2)).Emit(AckSent(Pubrec, id)))
  {
    var inc := e.inc + [Record(id, qos, if qos == QoS1 then PubAckSend else PubRecSend)];
    assert forall j :: 0 <= j < |e.inc| ==> inc[j] == e.inc[j] && inc[j].packetId != id;
    assert inc[..|e.inc|] + inc[|e.inc| + 1..] == e.inc;
    assert inc[|e.inc| := Record(id, QoS2, PubRelPending)] == e.inc + [Record(id, QoS2, PubRelPending)];
    var f := e.(inc := inc).Emit(Delivered(id, qos));
    Acknowledged(f, |e.inc|, qos);
    hide SendAcks, UpdateAck;
    assert UpdatePublish(e, id, Receive, qos).engine == e.(inc := inc);
    assert IncomingPublish(e, id, qos, true) == SendAcks(f, id, if qos == QoS1 then PubAckSend else PubRecSend, true);
    SendAcksFailed(f, id, qos);
  }

  lemma {:induction false} SendAcksFailed(e: Engine, id: PacketId, qos: QoS)
    requires qos != QoS0
    ensures SendAcks(e, id, if qos == QoS1 then PubAckSend else PubRecSend, false) == Result(SendFailed, e)
  {}

  /** A duplicate is acknowledged again and not delivered. The record moves on as behind a first one, unless it is
      one of another quality of service or its PUBREL has already come. */
  lemma {:induction false} ArrivedAgain(e: Engine, k: nat, qos: QoS, sent: bool)
    requires Inv(e) && k < |e.inc| && qos != QoS0
    ensures var r := e.inc[k];
            IncomingPublish(e, r.packetId, qos, sent)
            == if !sent then Result(SendFailed, e)
               else
                 var f := e.Emit(AckSent(if qos == QoS1 then Puback else Pubrec, r.packetId));
                 if r.qos != qos || r.state == PubCompSend then Result(IllegalState, f)
                 else if qos == QoS1 then Result(Success, f.(inc := e.inc[..k] + e.inc[k + 1..]))
                 else Result(Success, f.(inc := e.inc[k := Record(r.packetId, QoS2, PubRelPending)]))
  {
    assert IncomingRecord(e.inc[k]) && HasId(e.inc, e.inc[k].packetId);
    Acknowledged(e, k, qos);
    SendAcksFailed(e, e.inc[k].packetId, qos);
    hide SendAcks;
  }

  lemma {:induction false} ArrivedRefused(e: Engine, id: PacketId, qos: QoS, sent: bool)
    requires !IsNew(e, id, qos) && (id == 0 || !HasId(e.inc, id))
    ensures IncomingPublish(e, id, qos, sent) == Result(if id == 0 then BadParameter else NoMemory, e)
  {}

  /** Every new message is handed to the application exactly once, and nothing else is. It is acknowledged as its
      quality of service demands whenever the transport takes the acknowledgement, and so is every duplicate. */
  lemma {:induction false} PublishDelivered(e: Engine, id: PacketId, qos: QoS, sent: bool, a: Action)
    requires Inv(e)
    ensures var stored := qos != QoS0 && id != 0 && !HasId(e.inc, id) && |e.inc| < e.capacity;
            var again := qos != QoS0 && id != 0 && HasId(e.inc, id);
            Count(Step(e, PublishArrived(id, qos, sent)).trace, a)
            == Count(e.trace, a)
               + (if a == Delivered(id, qos) && (qos == QoS0 || stored) then 1 else 0)
               + (if a == AckSent(if qos == QoS1 then Puback else Pubrec, id) && sent && (stored || again) then 1 else 0)
  {
    hide IncomingPublish, InOrder;
    if qos == QoS0 {
      ArrivedUnrecorded(e, id, sent);
    } else if IsNew(e, id, qos) {
      ArrivedNew(e, id, qos);
    } else if id != 0 && HasId(e.inc, id) {
      var k :| 0 <= k < |e.inc| && e.inc[k].packetId == id;
      ArrivedAgain(e, k, qos, sent);
    } else {
      ArrivedRefused(e, id, qos, sent);
    }
  }

  // ----- an arriving acknowledgement

  /** The record waits for this acknowledgement. */
  predicate Expects(r: Record, ack: AckType) {
    match ack
    case Puback => r.qos == QoS1 && r.state == PubAckPending
    case Pubrec => r.qos == QoS2 && r.state == PubRecPending
    case Pubrel => r.qos == QoS2 && (r.state == PubRelPending || r.state == PubCompSend)
    case Pubcomp => r.qos == QoS2 && r.state == PubCompPending
  }

  /** What an acknowledgement moves: PUBREL is about incoming messages, the other three about outgoing ones. */
  lemma {:induction false} AckTable(r: Record, ack: AckType, op: Operation)
    requires if IsPublishOutgoing(ack, op) then OutgoingRecord(r) else IncomingRecord(r)
    ensures var next := CalculateStateAck(ack, op, r.qos);
            ValidTransitionAck(r.state, next) <==>
            (r.state, ack, op, next) in {
              (PubAckPending, Puback, Receive, PublishDone), (PubAckSend, Puback, Send, PublishDone),
              (PubRecPending, Pubrec, Receive, PubRelSend), (PubRecSend, Pubrec, Send, PubRelPending),
              (PubRelPending, Pubrec, Send, PubRelPending),
              (PubRelSend, Pubrel, Send, PubCompPending), (PubCompPending, Pubrel, Send, PubCompPending),
              (PubRelPending, Pubrel, Receive, PubCompSend), (PubCompSend, Pubrel, Receive, PubCompSend),
              (PubCompPending, Pubcomp, Receive, PublishDone), (PubCompSend, Pubcomp, Send, PublishDone)}
    ensures IsPublishOutgoing(ack, op) <==>
            (ack, op) in {(Puback, Receive), (Pubrec, Receive), (Pubrel, Send), (Pubcomp, Receive)}
  {}

  lemma {:induction false} EndExpected(e: Engine, k: nat, ack: AckType, sent: bool)
    requires Inv(e) && k < |e.out| && Expects(e.out[k], ack) && (ack == Puback || ack == Pubcomp)
    ensures var id := e.out[k].packetId;
            IncomingAck(e, id, ack, sent)
            == Result(Success, e.(out := e.out[..k] + e.out[k + 1..]).Emit(AckReceived(ack, id)))
  {
    EndUpdates(e.Emit(AckReceived(ack, e.out[k].packetId)), k, ack);
    hide UpdateAck, Inv;
  }

  lemma {:induction false} EndUpdates(e: Engine, k: nat, ack: AckType)
    requires DistinctIds(e.out) && k < |e.out| && !IsFree(e.out[k])
    requires Expects(e.out[k], ack) && (ack == Puback || ack == Pubcomp)
    ensures UpdateAck(e, e.out[k].packetId, ack, Receive)
            == Outcome(Success, PublishDone, e.(out := e.out[..k] + e.out[k + 1..]))
  {
    IndexOfUnique(e.out, k);
  }

  /** A PUBREC moves its record behind all others, where it keeps whether the PUBREL has been sent. */
  lemma {:induction false} PubrecExpected(e: Engine, k: nat, sent: bool)
    requires Inv(e) && k < |e.out| && Expects(e.out[k], Pubrec)
    ensures var id := e.out[k].packetId;
            var f := e.Emit(AckReceived(Pubrec, id)).Emit(PubrecAccepted(id));
            var rest := e.out[..k] + e.out[k + 1..];
            IncomingAck(e, id, Pubrec, sent)
            == if sent then Result(Success, f.(out := rest + [Record(id, QoS2, PubCompPending)]).Emit(AckSent(Pubrel, id)))
               else Result(SendFailed, f.(out := rest + [Record(id, QoS2, PubRelSend)]))
  {
    hide UpdateAck, InOrder;
    var id, rest := e.out[k].packetId, e.out[..k] + e.out[k + 1..];
    var e1 := e.Emit(AckReceived(Pubrec, id));
    PubrecMovesRecord(e1, k);
    RemovedIsGone(e.out, k);
    var g := e1.(out := rest + [Record(id, QoS2, PubRelSend)]).Emit(PubrecAccepted(id));
    PubrelSentFor(g, |rest|);
    assert g.out[|rest| := Record(id, QoS2, PubCompPending)] == rest + [Record(id, QoS2, PubCompPending)];
    PubrelFailed(g, id);
    if sent { PubrelWritten(g, |rest|); }
  }

  lemma {:induction false} PubrelFailed(e: Engine, id: PacketId)
    ensures SendAcks(e, id, PubRelSend, false) == Result(SendFailed, e)
  {}

  lemma {:induction false} PubrelWritten(e: Engine, k: nat)
    requires DistinctIds(e.out) && k < |e.out| && !IsFree(e.out[k])
    requires e.out[k].qos == QoS2 && (e.out[k].state == PubRelSend || e.out[k].state == PubCompPending)
    ensures var id := e.out[k].packetId;
            SendAcks(e, id, PubRelSend, true)
            == Result(Success, e.(out := e.out[k := Record(id, QoS2, PubCompPending)]).Emit(AckSent(Pubrel, id)))
  {
    IndexOfUnique(e.out, k);
  }

  /** A PUBREL is answered by PUBCOMP, and the record goes away; or it keeps that the PUBCOMP is still to be sent. */
  lemma {:induction false} PubrelExpected(e: Engine, k: nat, sent: bool)
    requires Inv(e) && k < |e.inc| && Expects(e.inc[k], Pubrel)
    ensures var id := e.inc[k].packetId;
            var f := e.Emit(AckReceived(Pubrel, id));
            IncomingAck(e, id, Pubrel, sent)
            == if sent then Result(Success, f.(inc := e.inc[..k] + e.inc[k + 1..]).Emit(AckSent(Pubcomp, id)))
               else Result(SendFailed, f.(inc := e.inc[k := Record(id, QoS2, PubCompSend)]))
  {
    hide InOrder;
    var id, inc := e.inc[k].packetId, e.inc[k := Record(e.inc[k].packetId, QoS2, PubCompSend)];
    IndexOfUnique(e.inc, k);
    PubcompWritten(e.(inc := inc).Emit(AckReceived(Pubrel, id)), k, sent);
    assert inc[..k] + inc[k + 1..] == e.inc[..k] + e.inc[k + 1..];
    hide SendAcks;
  }

  lemma {:induction false} PubcompWritten(e: Engine, k: nat, sent: bool)
    requires DistinctIds(e.inc) && k < |e.inc| && !IsFree(e.inc[k])
    requires e.inc[k].qos == QoS2 && e.inc[k].state == PubCompSend
    ensures var id := e.inc[k].packetId;
            SendAcks(e, id, PubCompSend, sent)
            == if sent then Result(Success, e.(inc := e.inc[..k] + e.inc[k + 1..]).Emit(AckSent(Pubcomp, id)))
               else Result(SendFailed, e)
  {
    IndexOfUnique(e.inc, k);
  }

  lemma {:induction false} AckUnexpected(e: Engine, id: PacketId, ack: AckType, sent: bool)
    requires Inv(e)
    requires forall r <- if ack == Pubrel then e.inc else e.out :: r.packetId == id ==> !Expects(r, ack)
    ensures IncomingAck(e, id, ack, sent)
            == Result(if id == 0 then BadParameter
                      else if HasId(if ack == Pubrel then e.inc else e.out, id) then IllegalState else BadResponse,
                      e.Emit(AckReceived(ack, id)))
  {
    hide InOrder;
    var records := if ack == Pubrel then e.inc else e.out;
    var k := IndexOf(records, id);
    if k < |records| {
      assert records[k] in records;
      AckTable(records[k], ack, Receive);
    }
  }

  predicate Awaited(e: Engine, id: PacketId, ack: AckType) {
    exists r <- if ack == Pubrel then e.inc else e.out :: r.packetId == id && Expects(r, ack)
  }

  /** An acknowledgement that a record waits for is answered exactly once, PUBREC by PUBREL and PUBREL by PUBCOMP,
      when the transport takes the answer; nothing else is sent, and nothing is delivered. */
  lemma {:induction false} AckAnswered(e: Engine, id: PacketId, ack: AckType, sent: bool, a: Action)
    requires Inv(e)
    ensures Count(Step(e, AckArrived(id, ack, sent)).trace, a)
            == Count(e.trace, a)
               + (if a == AckReceived(ack, id) then 1 else 0)
               + (if a == PubrecAccepted(id) && ack == Pubrec && Record(id, QoS2, PubRecPending) in e.out then 1 else 0)
               + (if a == AckSent(Pubrel, id) && ack == Pubrec && Record(id, QoS2, PubRecPending) in e.out && sent then 1 else 0)
               + (if a == AckSent(Pubcomp, id) && ack == Pubrel && sent
                     && (Record(id, QoS2, PubRelPending) in e.inc || Record(id, QoS2, PubCompSend) in e.inc) then 1 else 0)
  {
    hide IncomingAck, Inv;
    if !Awaited(e, id, ack) {
      AckUnexpected(e, id, ack, sent);
    } else {
      var records := if ack == Pubrel then e.inc else e.out;
      var k :| 0 <= k < |records| && records[k].packetId == id && Expects(records[k], ack);
      match ack
      case Pubrec =>
        PubrecExpected(e, k, sent);
        var t := e.trace.Then(AckReceived(Pubrec, id));
        assert Count(t.Then(PubrecAccepted(id)), a) == Count(t, a) + if a == PubrecAccepted(id) then 1 else 0;
      case Pubrel => PubrelExpected(e, k, sent);
      case _ => EndExpected(e, k, ack, sent);
    }
  }

  // ----- a reconnect

  /** How many of the writes from number i on succeed before the first one fails, of n. */
  function Writes(link: nat -> bool, i: nat, n: nat): (m: nat)
    ensures m <= n
    ensures forall j :: i <= j < i + m ==> link(j)
    ensures m < n ==> !link(i + m)
    decreases n
  {
    if n == 0 || !link(i) then 0 else 1 + Writes(link, i + 1, n - 1)
  }

  function WithPubrels(trace: History, ids: seq<PacketId>): History
    decreases |ids|
  {
    if ids == [] then trace else WithPubrels(trace.Then(AckSent(Pubrel, ids[0])), ids[1..])
  }

  /** Each id has a record between its PUBREC and its PUBCOMP. */
  predicate AllPending(out: seq<Record>, ids: seq<PacketId>) {
    forall j :: 0 <= j < |ids| ==> MayResend(out, ids[j])
  }

  predicate MayResend(out: seq<Record>, id: PacketId) {
    id != 0 && (Record(id, QoS2, PubRelSend) in out || Record(id, QoS2, PubCompPending) in out)
  }

  function Resent(r: Record, ids: seq<PacketId>): Record {
    if r.packetId in ids then Record(r.packetId, QoS2, PubCompPending) else r
  }

  predicate ResentRecords(before: seq<Record>, after: seq<Record>, ids: seq<PacketId>) {
    |after| == |before| && forall k :: 0 <= k < |before| ==> after[k] == Resent(before[k], ids)
  }

  lemma {:induction false} OneResent(out: seq<Record>, k: nat, ids: seq<PacketId>)
    requires DistinctIds(out) && k < |out| && ids != [] && out[k].packetId == ids[0] && AllPending(out, ids)
    ensures var t := out[k := Record(ids[0], QoS2, PubCompPending)]; DistinctIds(t) && AllPending(t, ids[1..])
  {
    var t := out[k := Record(ids[0], QoS2, PubCompPending)];
    forall l | 0 <= l < |ids[1..]| ensures MayResend(t, ids[1..][l]) {
      var id := ids[l + 1];
      assert MayResend(out, id);
      var r := if Record(id, QoS2, PubRelSend) in out then Record(id, QoS2, PubRelSend) else Record(id, QoS2, PubCompPending);
      assert r in out;
      var j :| 0 <= j < |out| && out[j] == r;
      assert t[j] == if j == k then Record(ids[0], QoS2, PubCompPending) else r;
      assert t[j] in t;
    }
  }

  lemma {:induction false} ResentJoin(a: seq<Record>, k: nat, c: seq<Record>, id: PacketId, ids: seq<PacketId>)
    requires DistinctIds(a) && k < |a| && a[k].packetId == id
    requires ResentRecords(a[k := Record(id, QoS2, PubCompPending)], c, ids)
    ensures ResentRecords(a, c, [id] + ids)
  {}

  /** PUBRELs go out for the ids in their order up to the first failing write, no other action is taken, and only
      the records of these ids are touched. */
  lemma {:induction false} ResendOutcome(e: Engine, ids: seq<PacketId>, link: nat -> bool, i: nat)
    requires DistinctIds(e.out) && AllPending(e.out, ids)
    ensures var r, n := ResendPubrels(e, ids, link, i), Writes(link, i, |ids|);
            && r.status == (if n == |ids| then Success else SendFailed)
            && r.engine.trace == WithPubrels(e.trace, ids[..n])
            && r.engine.inc == e.inc && r.engine.capacity == e.capacity
            && ResentRecords(e.out, r.engine.out, ids[..n])
    decreases |ids|
  {
    hide DistinctIds, AllPending, SendAcks;
    var n := Writes(link, i, |ids|);
    if ids != [] {
      var id := ids[0];
      var k := PendingRecord(e.out, ids);
      PubrelFailed(e, id);
      if link(i) {
        PubrelWritten(e, k);
        var out := e.out[k := Record(id, QoS2, PubCompPending)];
        OneResent(e.out, k, ids);
        var f := e.(out := out).Emit(AckSent(Pubrel, id));
        ResendOutcome(f, ids[1..], link, i + 1);
        assert ids[..n] == [id] + ids[1..][..n - 1];
        ResentJoin(e.out, k, ResendPubrels(f, ids[1..], link, i + 1).engine.out, id, ids[1..][..n - 1]);
      }
    }
  }

  lemma {:induction false} PendingRecord(out: seq<Record>, ids: seq<PacketId>) returns (k: nat)
    requires ids != [] && AllPending(out, ids)
    ensures k < |out| && out[k].packetId == ids[0] && out[k].qos == QoS2 && !IsFree(out[k])
    ensures out[k].state == PubRelSend || out[k].state == PubCompPending
  {
    assert MayResend(out, ids[0]);
    k :| 0 <= k < |out| && (out[k] == Record(ids[0], QoS2, PubRelSend) || out[k] == Record(ids[0], QoS2, PubCompPending));
  }

  lemma {:induction false} WalkPending(out: seq<Record>, capacity: nat, slots: seq<Record>)
    requires Records(out, capacity, false) && out == Live(slots)
    ensures AllPending(out, Walk(slots, 0, PUBREL_STATES))
  {
    hide Walk, Matching, Live, OutgoingRecord, DistinctIds;
    var ids, all := Walk(slots, 0, PUBREL_STATES), Matching(out, PUBREL_STATES);
    assert slots[0..] == slots;
    WalkIsPrefix(slots, 0, PUBREL_STATES);
    forall j | 0 <= j < |ids| ensures MayResend(out, ids[j]) {
      assert all[j] == ids[j];
      MatchingFrom(out, PUBREL_STATES, j);
      var i :| 0 <= i < |out| && out[i].state in PUBREL_STATES && out[i].packetId == ids[j];
      PubrelPhaseRecord(out[i]);
      assert out[i] in out;
    }
  }

  lemma {:induction false} PubrelPhaseRecord(r: Record)
    requires OutgoingRecord(r) && r.state in PUBREL_STATES
    ensures r.packetId != 0 && (r == Record(r.packetId, QoS2, PubRelSend) || r == Record(r.packetId, QoS2, PubCompPending))
  {}

  /** In every reachable state, for every slot layout: on a kept session a PUBREL is written for each id of the walk
      in its order, until a write fails, and for no other; exactly the records of these ids then wait for
      PUBCOMP. */
  lemma {:induction false} ResumptionSends(capacity: nat, evs: seq<Event>, slots: seq<Record>, link: nat -> bool)
    requires Live(slots) == Run(Start(capacity), evs).out
    ensures var e, ids := Run(Start(capacity), evs), Walk(slots, 0, {PubRelSend, PubCompPending});
            var r, n := ResendPubrels(e, ids, link, 0), Writes(link, 0, |ids|);
            && r.status == (if n == |ids| then Success else SendFailed)
            && r.engine.trace == WithPubrels(e.trace, ids[..n])
            && r.engine.inc == e.inc && ResentRecords(e.out, r.engine.out, ids[..n])
  {
    hide Inv;
    var e := Run(Start(capacity), evs);
    RunInvariant(capacity, evs);
    InvRecords(e);
    WalkPending(e.out, e.capacity, slots);
    assert PUBREL_STATES == {PubRelSend, PubCompPending};
    ResendOutcome(e, Walk(slots, 0, PUBREL_STATES), link, 0);
  }

  lemma {:induction false} InvRecords(e: Engine)
    requires Inv(e)
    ensures Records(e.out, e.capacity, false) && DistinctIds(e.out)
  {}

  /** No live record in a wanted state is left out of what has to be resent. */
  lemma {:induction false} MatchingAll(live: seq<Record>, want: set<PublishState>, k: nat)
    requires k < |live| && live[k].state in want
    ensures live[k].packetId in Matching(live, want)
  {
    if k > 0 { MatchingAll(live[1..], want, k - 1); }
  }
}
