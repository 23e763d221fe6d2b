/** The vocabulary of the coreMQTT publish state engine and its pure transition tables. */
module MqttTypes {

  /** A 16-bit packet identifier; 0 marks an empty record slot. */
  type PacketId = x: int | 0 <= x < 0x1_0000

  const INVALID_ID: PacketId := 0

  datatype QoS = QoS0 | QoS1 | QoS2

  datatype PublishState =
    | StateNull
    | PublishSend
    | PubAckSend
    | PubRecSend
    | PubRelSend
    | PubCompSend
    | PubAckPending
    | PubRecPending
    | PubRelPending
    | PubCompPending
    | PublishDone

  datatype AckType = Puback | Pubrec | Pubrel | Pubcomp

  datatype Operation = Send | Receive

  datatype Status =
    | Success
    | BadParameter
    | NoMemory
    | SendFailed
    | BadResponse
    | IllegalState
    | StateCollision

  /** May a PUBLISH move a record from `current` to `next`? */
  predicate ValidTransitionPublish(current: PublishState, next: PublishState, op: Operation, qos: QoS) {
    match current
    case StateNull => op == Receive && (next == PubAckSend || next == PubRecSend)
    case PublishSend => (qos == QoS1 && next == PubAckPending) || (qos == QoS2 && next == PubRecPending)
    case PubAckPending => next == PubAckPending
    case PubRecPending => next == PubRecPending
    case _ => false
  }

  /** May an acknowledgement move a record from `current` to `next`? */
  predicate ValidTransitionAck(current: PublishState, next: PublishState) {
    match current
    case PubAckSend => next == PublishDone
    case PubAckPending => next == PublishDone
    case PubRecSend => next == PubRelPending
    case PubRelPending => next == PubCompSend || next == PubRelPending
    case PubCompSend => next == PublishDone || next == PubCompSend
    case PubRecPending => next == PubRelSend
    case PubRelSend => next == PubCompPending
    case PubCompPending => next == PublishDone || next == PubCompPending
    case _ => false
  }

  /** Does the acknowledgement belong to a PUBLISH this client sent? */
  predicate IsPublishOutgoing(ack: AckType, op: Operation) {
    if ack == Pubrel then op == Send else op == Receive
  }

  function CalculateStatePublish(op: Operation, qos: QoS): PublishState {
    match qos
    case QoS0 => PublishDone
    case QoS1 => if op == Send then PubAckPending else PubAckSend
    case QoS2 => if op == Send then PubRecPending else PubRecSend
  }

  function CalculateStateAck(ack: AckType, op: Operation, qos: QoS): PublishState {
    if qos != (if ack == Puback then QoS1 else QoS2) then
      StateNull
    else
      match ack
      case Puback => PublishDone
      case Pubrec => if op == Send then PubRelPending else PubRelSend
      case Pubrel => if op == Send then PubCompPending else PubCompSend
      case Pubcomp => PublishDone
  }

  /** The acknowledgement a record in state `s` calls for, if any. */
  function AckToSend(s: PublishState): (ack: seq<AckType>)
    ensures |ack| <= 1
  {
    match s
    case PubAckSend => [Puback]
    case PubRecSend => [Pubrec]
    case PubRelSend => [Pubrel]
    case PubCompSend => [Pubcomp]
    case _ => []
  }
}
