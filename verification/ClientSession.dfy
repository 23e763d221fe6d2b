/** The handlers of the client around the publish state engine: what an arriving packet, a PUBLISH call and a
    reconnect do to the records, to the application and to the transport. Whether a transport write
    succeeds is an input. */
module ClientSession {
  import opened MqttTypes
  import opened PublishRecords
  import opened PublishEngine

  datatype Result = Result(status: Status, engine: Engine)

  /** Send the acknowledgement that a record state calls for, then record that it was sent. */
  function SendAcks(e: Engine, id: PacketId, state: PublishState, sent: bool): Result {
    var ack := AckToSend(state);
    if ack == [] then Result(Success, e)
    else if !sent || id == INVALID_ID then Result(SendFailed, e)
    else
      var o := UpdateAck(e.Emit(AckSent(ack[0], id)), id, ack[0], Send);
      Result(o.status, o.engine)
  }

  function IncomingPublish(e: Engine, id: PacketId, qos: QoS, sent: bool): Result {
    var o := UpdatePublish(e, id, Receive, qos);
    if o.status == Success then
      SendAcks(o.engine.Emit(Delivered(id, qos)), id, o.state, sent)
    else if o.status == StateCollision then
      SendAcks(e, id, CalculateStatePublish(Receive, qos), sent)
    else
      Result(o.status, e)
  }

  function IncomingAck(e: Engine, id: PacketId, ack: AckType, sent: bool): Result {
    var o := UpdateAck(e.Emit(AckReceived(ack, id)), id, ack, Receive);
    if o.status == Success then SendAcks(o.engine, id, o.state, sent) else Result(o.status, o.engine)
  }

  /** `serialized` is the outcome of writing the packet header, which is not the business of the engine. */
  function PublishCall(e: Engine, id: PacketId, qos: QoS, dup: bool, serialized: Status, sent: bool): Result {
    if qos != QoS0 && id == INVALID_ID then Result(BadParameter, e)
    else if serialized != Success then Result(serialized, e)
    else
      var r := Reserve(e, id, qos);
      if r.status != Success && !(r.status == StateCollision && dup) then Result(r.status, r.engine)
      else if !sent then Result(SendFailed, r.engine)
      else
        var o := UpdatePublish(r.engine.Emit(PublishSent(id, qos, dup)), id, Send, qos);
        Result(o.status, o.engine)
  }

  /** Resend PUBRELs for the given ids until a write fails; `link(i)` says whether write i succeeds. */
  function ResendPubrels(e: Engine, ids: seq<PacketId>, link: nat -> bool, i: nat): Result
    decreases |ids|
  {
    if ids == [] then Result(Success, e)
    else
      var r := SendAcks(e, ids[0], PubRelSend, link(i));
      if r.status == Success then ResendPubrels(r.engine, ids[1..], link, i + 1) else r
  }

  function ClearSession(e: Engine): Engine {
    e.(out := [], inc := []).Emit(SessionCleared)
  }

  // ----- the handlers

  method SendPublishAcks(ctx: Context, id: PacketId, state: PublishState, sent: bool) returns (status: Status)
    requires ctx.Valid()
    modifies ctx, ctx.outgoing, ctx.incoming
    ensures ctx.Valid()
    ensures Result(status, ctx.Abs()) == SendAcks(old(ctx.Abs()), id, state, sent)
    ensures state == PubRelSend ==>
              forall i, j :: 0 <= i < j < ctx.outgoing.Length && old(ctx.outgoing[i].packetId) == id ==>
                ctx.outgoing[j] == old(ctx.outgoing[j])
  {
    hide Live, DistinctIds, AckRecords, ValidTransitionAck;
    status := Success;
    var ack := AckToSend(state);
    if ack != [] {
      if sent && id != INVALID_ID {
        ctx.trace := ctx.trace.Then(AckSent(ack[0], id));
        var newState;
        status, newState := ctx.UpdateStateAck(id, ack[0], Send);
      } else {
        status := SendFailed;
      }
    }
  }

  method HandleIncomingPublish(ctx: Context, id: PacketId, qos: QoS, sent: bool) returns (status: Status)
    requires ctx.Valid()
    modifies ctx, ctx.outgoing, ctx.incoming
    ensures ctx.Valid()
    ensures Result(status, ctx.Abs()) == IncomingPublish(old(ctx.Abs()), id, qos, sent)
  {
    var state;
    status, state := ctx.UpdateStatePublish(id, Receive, qos);
    var duplicatePublish := false;
    if status == StateCollision {
      status := Success;
      duplicatePublish := true;
      state := CalculateStatePublish(Receive, qos);
    }
    if status == Success {
      if !duplicatePublish {
        ctx.trace := ctx.trace.Then(Delivered(id, qos));
      }
      status := SendPublishAcks(ctx, id, state, sent);
    }
  }

  method HandlePublishAcks(ctx: Context, id: PacketId, ack: AckType, sent: bool) returns (status: Status)
    requires ctx.Valid()
    modifies ctx, ctx.outgoing, ctx.incoming
    ensures ctx.Valid()
    ensures Result(status, ctx.Abs()) == IncomingAck(old(ctx.Abs()), id, ack, sent)
  {
    ctx.trace := ctx.trace.Then(AckReceived(ack, id));
    var state;
    status, state := ctx.UpdateStateAck(id, ack, Receive);
    if status == Success {
      status := SendPublishAcks(ctx, id, state, sent);
    }
  }

  method Publish(ctx: Context, id: PacketId, qos: QoS, dup: bool, serialized: Status, sent: bool)
    returns (status: Status)
    requires ctx.Valid()
    modifies ctx, ctx.outgoing, ctx.incoming
    ensures ctx.Valid()
    ensures Result(status, ctx.Abs()) == PublishCall(old(ctx.Abs()), id, qos, dup, serialized, sent)
  {
    if qos != QoS0 && id == INVALID_ID {
      return BadParameter;
    }
    status := serialized;
    if status == Success && qos != QoS0 {
      status := ctx.ReserveState(id, qos);
      if status == StateCollision && dup {
        status := Success;
      }
    }
    if status == Success {
      if sent {
        ctx.trace := ctx.trace.Then(PublishSent(id, qos, dup));
      } else {
        status := SendFailed;
      }
    }
    if status == Success && qos != QoS0 {
      var newState;
      status, newState := ctx.UpdateStatePublish(id, Send, qos);
    }
  }

  /** After CONNACK: resend the PUBRELs of a kept session, or forget everything. */
  method HandleSessionResumption(ctx: Context, sessionPresent: bool, link: nat -> bool) returns (status: Status)
    requires ctx.Valid()
    modifies ctx, ctx.outgoing, ctx.incoming
    ensures ctx.Valid()
    ensures Result(status, ctx.Abs()) ==
              if sessionPresent then ResendPubrels(old(ctx.Abs()), Walk(old(ctx.outgoing[..]), 0, PUBREL_STATES), link, 0)
              else Result(Success, Engine([], [], old(ctx.Abs().capacity), old(ctx.trace).Then(SessionCleared)))
  {
    status := Success;
    if sessionPresent {
      ghost var start, ids := ctx.Abs(), Walk(ctx.outgoing[..], 0, PUBREL_STATES);
      var cursor, i := 0, 0;
      var id;
      id, cursor := ctx.PubrelToResend(cursor);
      while id != INVALID_ID && status == Success
        invariant ctx.Valid() && 0 <= cursor <= ctx.outgoing.Length && i >= 0
        invariant id != INVALID_ID ==> cursor > 0 && ctx.outgoing[cursor - 1].packetId == id
        invariant ResendPubrels(start, ids, link, 0) ==
                  if status == Success
                  then ResendPubrels(ctx.Abs(), Selected(ctx.outgoing[..], id, cursor, PUBREL_STATES), link, i)
                  else Result(status, ctx.Abs())
        decreases ctx.outgoing.Length - cursor, id
      {
        ghost var before := ctx.outgoing[..];
        status := SendPublishAcks(ctx, id, PubRelSend, link(i));
        WalkLocal(before, ctx.outgoing[..], cursor, PUBREL_STATES);
        id, cursor := ctx.PubrelToResend(cursor);
        i := i + 1;
      }
    } else {
      ClearRecords(ctx.outgoing);
      ClearRecords(ctx.incoming);
      ctx.trace := ctx.trace.Then(SessionCleared);
    }
  }

  lemma {:induction false} WalkLocal(s: seq<Record>, t: seq<Record>, from: nat, want: set<PublishState>)
    requires from <= |s| == |t|
    requires forall i :: from <= i < |s| ==> s[i] == t[i]
    ensures Walk(s, from, want) == Walk(t, from, want)
    decreases |s| - from
  {
    if from < |s| {
      WalkLocal(s, t, from + 1, want);
    }
  }
}
