/** Writing and reading PUBLISH packets, section 3.3 of MQTT 3.1.1. */
module PublishPacket {
  import opened Bytes
  import opened MqttTypes
  import opened RemainingLength

  /** A message. Its topic is at most 65535 bytes long: the source keeps the length in 16 bits. */
  datatype PublishInfo = PublishInfo(qos: QoS, retain: bool, dup: bool, topic: seq<Byte>, payload: seq<Byte>)

  predicate Fits(info: PublishInfo) { |info.topic| < 0x1_0000 }

  const TYPE_PUBLISH: Byte := 0x30
  const FLAG_RETAIN: nat := 0
  const FLAG_QOS1: nat := 1
  const FLAG_QOS2: nat := 2
  const FLAG_DUP: nat := 3

  // ----- bits

  function Weight(position: nat): (w: nat)
    requires position < 8
    ensures w > 0
  {
    if position == 0 then 1 else 2 * Weight(position - 1)
  }

  predicate CheckBit(x: Byte, position: nat)
    requires position < 8
  {
    x / Weight(position) % 2 == 1
  }

  function SetBit(x: Byte, position: nat): Byte
    requires position < 4
  {
    assert Weight(0) == 1 && Weight(1) == 2 && Weight(2) == 4 && Weight(3) == 8;
    if CheckBit(x, position) then x else x + Weight(position)
  }

  // ----- the layout

  function Uint16(n: nat): (s: seq<Byte>)
    requires n < 0x1_0000
    ensures |s| == 2
  {
    [n / 256, n % 256]
  }

  function Uint16Value(high: Byte, low: Byte): nat { high * 256 + low }

  function QosBits(qos: QoS): nat {
    match qos case QoS0 => 0 case QoS1 => 2 case QoS2 => 4
  }

  /** The four low bits of the first byte. */
  function Flags(info: PublishInfo): (f: nat)
    ensures f < 16
  {
    (if info.dup then 8 else 0) + QosBits(info.qos) + if info.retain then 1 else 0
  }

  function VariableHeader(info: PublishInfo, id: PacketId): seq<Byte>
    requires Fits(info)
  {
    Uint16(|info.topic|) + (info.topic + if info.qos == QoS0 then [] else Uint16(id))
  }

  function Length(info: PublishInfo): nat {
    |info.topic| + 2 + (if info.qos == QoS0 then 0 else 2) + |info.payload|
  }

  function Header(info: PublishInfo, id: PacketId): (s: seq<Byte>)
    requires Fits(info)
    ensures |s| == 1 + |Encoded(Length(info))| + Length(info) - |info.payload|
  {
    [TYPE_PUBLISH + Flags(info)] + (Encoded(Length(info)) + VariableHeader(info, id))
  }

  function Packet(info: PublishInfo, id: PacketId): (s: seq<Byte>)
    requires Fits(info)
    ensures |s| == 1 + |Encoded(Length(info))| + Length(info)
  {
    Header(info, id) + info.payload
  }

  // ----- sizing

  predicate SizeAccepted(info: PublishInfo) {
    info.topic != [] && 1 + |Encoded(Length(info))| + Length(info) <= MAX_LENGTH
  }

  /** The packet as a whole, not only its remaining length, must stay below the limit of the standard. */
  method GetPublishPacketSize(info: PublishInfo) returns (status: Status, remainingLength: nat, packetSize: nat)
    requires Fits(info)
    ensures status == Success <==> SizeAccepted(info)
    ensures status == Success ==> remainingLength == Length(info) && packetSize == |Packet(info, INVALID_ID)|
    ensures status != Success ==> status == BadParameter
  {
    SizeExact(Length(info));
    status, remainingLength, packetSize := BadParameter, 0, 0;
    if |info.topic| != 0 {
      var size := |info.topic| + 2;
      if info.qos != QoS0 { size := size + 2; }
      var payloadLimit: int := MAX_LENGTH - size - 1;
      if |info.payload| <= payloadLimit {
        size := size + |info.payload|;
        payloadLimit := payloadLimit - EncodedSize(size);
        if |info.payload| <= payloadLimit {
          status, remainingLength := Success, size;
          packetSize := size + 1 + EncodedSize(size);
        }
      }
    }
  }

  /** Of the packets whose remaining length the standard allows, those are refused whose remaining length is
      one of the five largest. */
  lemma {:induction false} SizeLimit(info: PublishInfo)
    requires Fits(info) && info.topic != [] && Length(info) <= MAX_LENGTH
    ensures SizeAccepted(info) <==> Length(info) <= MAX_LENGTH - 5
  {
    hide Encoded;
    SizeExact(Length(info));
  }

  /** There are such packets. */
  lemma {:induction false} RefusedAlthoughAllowed(n: nat) returns (info: PublishInfo)
    requires n < 5
    ensures Fits(info) && Length(info) == MAX_LENGTH - n && !SizeAccepted(info)
  {
    info := PublishInfo(QoS0, false, false, [65], seq(MAX_LENGTH - n - 3, i => 0));
    SizeLimit(info);
  }

  // ----- writing

  method EncodeUint16(a: array<Byte>, at: nat, n: nat, ghost before: seq<Byte>, ghost done: seq<Byte>)
    returns (end: nat)
    requires n < 0x1_0000 && Written(a[..], before, done) && at == |done| && at + 2 <= a.Length
    modifies a
    ensures end == at + 2 && Written(a[..], before, done + Uint16(n))
  {
    end := PutByte(a, at, n / 256, before, done);
    end := PutByte(a, end, n % 256, before, done + [n / 256]);
    assert done + Uint16(n) == done + [n / 256] + [n % 256];
  }

  method EncodeString(a: array<Byte>, at: nat, text: seq<Byte>, ghost before: seq<Byte>, ghost done: seq<Byte>)
    returns (end: nat)
    requires |text| < 0x1_0000 && Written(a[..], before, done) && at == |done| && at + 2 + |text| <= a.Length
    modifies a
    ensures end == at + 2 + |text| && Written(a[..], before, done + Uint16(|text|) + text)
  {
    end := EncodeUint16(a, at, |text|, before, done);
    end := CopyBytes(a, end, text, before, done + Uint16(|text|));
  }

  method PublishFlags(info: PublishInfo) returns (flags: Byte)
    ensures flags == TYPE_PUBLISH + Flags(info)
    ensures flags / 16 == 3
    ensures flags / 2 % 4 == match info.qos case QoS0 => 0 case QoS1 => 1 case QoS2 => 2
    ensures (flags / 8 % 2 == 1 <==> info.dup) && (flags % 2 == 1 <==> info.retain)
  {
    assert Weight(0) == 1 && Weight(1) == 2 && Weight(2) == 4 && Weight(3) == 8;
    flags := TYPE_PUBLISH;
    if info.qos == QoS1 { flags := SetBit(flags, FLAG_QOS1); }
    else if info.qos == QoS2 { flags := SetBit(flags, FLAG_QOS2); }
    if info.retain { flags := SetBit(flags, FLAG_RETAIN); }
    if info.dup { flags := SetBit(flags, FLAG_DUP); }
  }

  lemma {:induction false} HeaderParts(info: PublishInfo, id: PacketId)
    requires Fits(info)
    ensures var h := [] + [TYPE_PUBLISH + Flags(info)] + Encoded(Length(info)) + Uint16(|info.topic|) + info.topic;
            Header(info, id) == if info.qos == QoS0 then h else h + Uint16(id)
  {}

  /** The caller passes the length that GetPublishPacketSize computed. */
  method SerializePublishCommon(info: PublishInfo, remainingLength: nat, id: PacketId, a: array<Byte>, withPayload: bool)
    requires Fits(info) && remainingLength == Length(info)
    requires (info.qos == QoS0 || id != INVALID_ID) && (info.dup ==> info.qos != QoS0)
    requires |if withPayload then Packet(info, id) else Header(info, id)| <= a.Length
    modifies a
    ensures var p := if withPayload then Packet(info, id) else Header(info, id);
            Written(a[..], old(a[..]), p)
  {
    hide Encoded, Flags, Written, Header, Packet, Uint16, Length;
    HeaderParts(info, id);
    PacketParts(info, id);
    ghost var before, done := a[..], [];
    var flags := PublishFlags(info);
    WrittenNothing(before);
    var i := PutByte(a, 0, flags, before, done);
    done := done + [flags];
    i := EncodeRemainingLength(a, i, remainingLength, before, done);
    done := done + Encoded(remainingLength);
    i := EncodeString(a, i, info.topic, before, done);
    done := done + Uint16(|info.topic|) + info.topic;
    if info.qos != QoS0 {
      i := EncodeUint16(a, i, id, before, done);
      done := done + Uint16(id);
    }
    if |info.payload| > 0 && withPayload {
      i := CopyBytes(a, i, info.payload, before, done);
      done := done + info.payload;
    }
  }

  lemma {:induction false} PacketParts(info: PublishInfo, id: PacketId)
    requires Fits(info)
    ensures Packet(info, id) == Header(info, id) + info.payload
    ensures info.payload == [] ==> Packet(info, id) == Header(info, id)
  {}

  /** What both serializers check of their arguments. */
  predicate IsSendable(info: PublishInfo, id: PacketId) {
    info.topic != [] && (info.qos != QoS0 ==> id != INVALID_ID) && (info.dup ==> info.qos != QoS0)
  }

  method SerializePublish(info: PublishInfo, id: PacketId, remainingLength: nat, a: array<Byte>) returns (status: Status)
    requires Fits(info) && remainingLength == Length(info) <= MAX_LENGTH
    modifies a
    ensures status == if !IsSendable(info, id) then BadParameter
                      else if |Packet(info, id)| > a.Length then NoMemory else Success
    ensures status == Success ==> a[..] == Packet(info, id) + old(a[|Packet(info, id)|..])
    ensures status != Success ==> a[..] == old(a[..])
  {
    hide Packet, Header;
    SizeExact(remainingLength);
    if |info.topic| == 0 { return BadParameter; }
    if info.qos != QoS0 && id == INVALID_ID { return BadParameter; }
    if info.dup && info.qos == QoS0 { return BadParameter; }
    var packetSize := 1 + EncodedSize(remainingLength) + remainingLength;
    if packetSize > a.Length { return NoMemory; }
    SerializePublishCommon(info, remainingLength, id, a, true);
    return Success;
  }

  /** Writes everything but the payload, which the caller sends from where it is. */
  method SerializePublishHeader(info: PublishInfo, id: PacketId, remainingLength: nat, a: array<Byte>)
    returns (status: Status, headerSize: nat)
    requires Fits(info) && remainingLength == Length(info) <= MAX_LENGTH
    modifies a
    ensures status == if !IsSendable(info, id) then BadParameter
                      else if |Header(info, id)| > a.Length then NoMemory else Success
    ensures status == Success ==> headerSize <= a.Length && a[..headerSize] + info.payload == Packet(info, id)
    ensures status == Success ==> a[headerSize..] == old(a[headerSize..])
    ensures status != Success ==> a[..] == old(a[..])
  {
    hide Header;
    SizeExact(remainingLength);
    headerSize := 0;
    if |info.topic| == 0 { return BadParameter, 0; }
    if info.qos != QoS0 && id == INVALID_ID { return BadParameter, 0; }
    if info.dup && info.qos == QoS0 { return BadParameter, 0; }
    var packetSize := 1 + EncodedSize(remainingLength) + remainingLength - |info.payload|;
    if packetSize > a.Length { return NoMemory, 0; }
    SerializePublishCommon(info, remainingLength, id, a, false);
    assert a[..packetSize] == Header(info, id);
    return Success, packetSize;
  }

  // ----- reading

  predicate IncomingPacketValid(t: Byte) {
    var kind := t / 16;
    kind == 2 || kind == 3 || kind == 4 || kind == 5 || kind == 7 || kind == 9 || kind == 11 || kind == 13
    || (kind == 6 && t / 2 % 2 == 1)
  }

  datatype Incoming = NoData | ReceiveFailed | Malformed | Incoming(kind: Byte, length: nat)

  /** `incoming` is what the transport delivers before a call to it returns `failure` instead of one byte. */
  method GetIncomingPacketTypeAndLength(incoming: seq<Byte>, failure: int) returns (r: Incoming)
    requires failure != 1
    ensures r.NoData? <==> incoming == [] && failure == 0
    ensures r.ReceiveFailed? <==> incoming == [] && failure != 0
    ensures r.Incoming? <==>
              && incoming != [] && Decoded(incoming[1..]) != INVALID_LENGTH
              && (incoming[0] / 16 in {2, 3, 4, 5, 7, 9, 11, 13} || (incoming[0] / 16 == 6 && incoming[0] / 2 % 2 == 1))
    ensures r.Incoming? ==>
              && r.kind == incoming[0] && r.length <= MAX_LENGTH
              && [r.kind] + Encoded(r.length) <= incoming
  {
    hide Decoded, Encoded;
    if |incoming| == 0 {
      return if failure == 0 then NoData else ReceiveFailed;
    }
    if !IncomingPacketValid(incoming[0]) {
      return Malformed;
    }
    var length, used := GetRemainingLength(incoming[1..]);
    DecodedExact(incoming[1..], 0);
    if length == INVALID_LENGTH {
      return Malformed;
    }
    DecodedExact(incoming[1..], length);
    assert incoming == [incoming[0]] + incoming[1..];
    return Incoming(incoming[0], length);
  }

  /** The flags and the data of a PUBLISH packet say this message and identifier. A topic may be empty
      as long as there is a payload. */
  predicate Says(kind: Byte, data: seq<Byte>, info: PublishInfo, id: PacketId) {
    && Fits(info) && kind % 16 == Flags(info) && data == VariableHeader(info, id) + info.payload
    && (info.qos == QoS0 <==> id == INVALID_ID) && (info.topic != [] || info.payload != [])
  }

  predicate PublishLengthOk(remainingLength: nat, qos: QoS, qos0Minimum: nat) {
    remainingLength >= if qos == QoS0 then qos0Minimum else qos0Minimum + 2
  }

  method ProcessPublishFlags(flags: Byte) returns (ok: bool, qos: QoS, retain: bool, dup: bool)
    requires flags < 16
    ensures ok <==> flags / 2 % 4 != 3
    ensures ok ==> flags / 2 % 4 == match qos case QoS0 => 0 case QoS1 => 1 case QoS2 => 2
    ensures ok ==> (flags / 8 % 2 == 1 <==> dup) && (flags % 2 == 1 <==> retain)
  {
    assert Weight(0) == 1 && Weight(1) == 2 && Weight(2) == 4 && Weight(3) == 8;
    ok, qos := true, QoS0;
    if CheckBit(flags, FLAG_QOS2) {
      if CheckBit(flags, FLAG_QOS1) { ok := false; } else { qos := QoS2; }
    } else if CheckBit(flags, FLAG_QOS1) {
      qos := QoS1;
    }
    retain := CheckBit(flags, FLAG_RETAIN);
    dup := CheckBit(flags, FLAG_DUP);
  }

  /** What the bytes of such a packet are, one by one. */
  lemma {:induction false} SaysShape(kind: Byte, data: seq<Byte>, info: PublishInfo, id: PacketId)
    requires Says(kind, data, info, id)
    ensures var t := |info.topic|;
            var h := 2 + t + if info.qos == QoS0 then 0 else 2;
            && h <= |data| && |data| >= 3 + (h - 2 - t)
            && Uint16Value(data[0], data[1]) == t && data[2..2 + t] == info.topic && data[h..] == info.payload
            && (info.qos != QoS0 ==> Uint16Value(data[2 + t], data[3 + t]) == id)
  {}

  lemma {:induction false} FourParts(a: seq<Byte>, b: seq<Byte>, c: seq<Byte>, d: seq<Byte>)
    ensures var s := a + (b + c) + d;
            && s[..|a|] == a && s[|a|..|a| + |b|] == b
            && s[|a| + |b|..|a| + |b| + |c|] == c && s[|a| + |b| + |c|..] == d
  {}

  /** And bytes of that shape make such a packet. */
  lemma {:induction false} ShapeSays(kind: Byte, data: seq<Byte>, info: PublishInfo, id: PacketId)
    requires var t := |info.topic|;
             var h := 2 + t + if info.qos == QoS0 then 0 else 2;
             && h <= |data| && |data| >= 3 + (h - 2 - t)
             && Uint16Value(data[0], data[1]) == t && data[2..2 + t] == info.topic && data[h..] == info.payload
             && (info.qos != QoS0 ==> Uint16Value(data[2 + t], data[3 + t]) == id)
    requires kind % 16 == Flags(info) && (info.qos == QoS0 <==> id == INVALID_ID)
    ensures Says(kind, data, info, id)
  {
    hide Flags;
    var t := |info.topic|;
    assert data[..2] == Uint16(t);
    if info.qos == QoS0 {
      assert data == data[..2] + (data[2..2 + t] + []) + data[2 + t..];
    } else {
      assert data[2 + t..4 + t] == Uint16(id);
      assert data == data[..2] + (data[2..2 + t] + data[2 + t..4 + t]) + data[4 + t..];
    }
  }

  lemma {:induction false} FlagsDetermine(a: PublishInfo, b: PublishInfo)
    requires Flags(a) == Flags(b)
    ensures a.qos == b.qos && a.retain == b.retain && a.dup == b.dup
    ensures Flags(a) / 2 % 4 != 3
  {}

  /** A packet says at most one thing. */
  lemma {:induction false} SaysUnique(kind: Byte, data: seq<Byte>, a: PublishInfo, x: PacketId, b: PublishInfo, y: PacketId)
    requires Says(kind, data, a, x) && Says(kind, data, b, y)
    ensures a == b && x == y
  {
    hide Flags;
    SaysShape(kind, data, a, x);
    SaysShape(kind, data, b, y);
    FlagsDetermine(a, b);
  }

  /** Either the one message that the packet says, or a refusal when it says none. */
  method DeserializePublish(kind: Byte, data: seq<Byte>) returns (status: Status, info: PublishInfo, id: PacketId)
    ensures status == BadParameter <==> kind / 16 != 3
    ensures status == Success ==> Says(kind, data, info, id)
    ensures status == Success ==>
              && kind / 2 % 4 == (match info.qos case QoS0 => 0 case QoS1 => 1 case QoS2 => 2)
              && (kind / 8 % 2 == 1 <==> info.dup) && (kind % 2 == 1 <==> info.retain)
    ensures status == BadResponse ==> forall i, x :: !Says(kind, data, i, x)
    ensures status == BadParameter || status == BadResponse || status == Success
  {
    hide Says, Flags;
    info, id := PublishInfo(QoS0, false, false, [], []), INVALID_ID;
    if kind / 16 != TYPE_PUBLISH / 16 {
      return BadParameter, info, id;
    }
    status := BadResponse;
    forall i, x | Says(kind, data, i, x) ensures Accepts(kind, data) { SaysAccepts(kind, data, i, x); }
    var ok, qos, retain, dup := ProcessPublishFlags(kind % 16);
    if !ok { return; }
    FlagsOf(kind % 16, qos, retain, dup);
    if !PublishLengthOk(|data|, qos, 3) { return; }
    var topicLength := Uint16Value(data[0], data[1]);
    if !PublishLengthOk(|data|, qos, topicLength + 2) { return; }
    var payload := 2 + topicLength;
    if qos != QoS0 {
      id := Uint16Value(data[payload], data[payload + 1]);
      payload := payload + 2;
      if id == 0 { return; }
    }
    info := PublishInfo(qos, retain, dup, data[2..2 + topicLength], data[payload..]);
    ShapeSays(kind, data, info, id);
    SaidFlags(kind, data, info, id);
    status := Success;
  }

  lemma {:induction false} FlagsOf(flags: Byte, qos: QoS, retain: bool, dup: bool)
    requires flags < 16 && flags / 2 % 4 == match qos case QoS0 => 0 case QoS1 => 1 case QoS2 => 2
    requires (flags / 8 % 2 == 1 <==> dup) && (flags % 2 == 1 <==> retain)
    ensures forall topic, payload :: Flags(PublishInfo(qos, retain, dup, topic, payload)) == flags
    ensures flags / 2 % 4 * 2 == QosBits(qos)
  {}

  /** The checks of the deserializer: the quality of service, both lengths, and the identifier. */
  predicate Accepts(kind: Byte, data: seq<Byte>) {
    var bits := kind % 16 / 2 % 4;
    var more := if bits == 0 then 0 else 2;
    && bits != 3 && |data| >= 3 + more
    && |data| >= Uint16Value(data[0], data[1]) + 2 + more
    && (bits != 0 ==> var k := 2 + Uint16Value(data[0], data[1]); Uint16Value(data[k], data[k + 1]) != 0)
  }

  lemma {:induction false} SaysAccepts(kind: Byte, data: seq<Byte>, info: PublishInfo, id: PacketId)
    requires Says(kind, data, info, id)
    ensures Accepts(kind, data)
  {}

  // ----- the layout of section 3.3, byte by byte

  /** The packet type, the two bits of the quality of service and the two other flags of the first byte. */
  lemma {:induction false} FirstByte(info: PublishInfo, id: PacketId)
    requires Fits(info)
    ensures var b := Packet(info, id)[0];
            && b == Header(info, id)[0] && b / 16 == 3
            && b / 2 % 4 == (match info.qos case QoS0 => 0 case QoS1 => 1 case QoS2 => 2)
            && (b / 8 % 2 == 1 <==> info.dup) && (b % 2 == 1 <==> info.retain)
  {
    hide Encoded, VariableHeader, Length;
  }

  /** The same of a packet that says a message. */
  lemma {:induction false} SaidFlags(kind: Byte, data: seq<Byte>, info: PublishInfo, id: PacketId)
    requires Says(kind, data, info, id)
    ensures kind / 2 % 4 == match info.qos case QoS0 => 0 case QoS1 => 1 case QoS2 => 2
    ensures (kind / 8 % 2 == 1 <==> info.dup) && (kind % 2 == 1 <==> info.retain)
  {
    hide VariableHeader;
    LowBits(kind);
  }

  lemma {:induction false} LowBits(kind: Byte)
    ensures kind / 2 % 4 == kind % 16 / 2 % 4 && kind / 8 % 2 == kind % 16 / 8 % 2 && kind % 2 == kind % 16 % 2
  {
    var high, low := kind / 16, kind % 16;
    assert kind / 2 == 8 * high + low / 2 && kind / 8 == 2 * high + low / 8;
  }

  /** What stands where behind the remaining length: lengths and identifiers have their high byte first. */
  lemma {:induction false} DataLayout(info: PublishInfo, id: PacketId)
    requires Fits(info)
    ensures var data, t := VariableHeader(info, id) + info.payload, |info.topic|;
            var h := 2 + t + if info.qos == QoS0 then 0 else 2;
            && |data| == Length(info) && h <= |data|
            && data[0] == t / 256 && data[1] == t % 256 && data[2..2 + t] == info.topic && data[h..] == info.payload
            && (info.qos != QoS0 ==> data[h - 2] == id / 256 && data[h - 1] == id % 256)
  {
    FourParts(Uint16(|info.topic|), info.topic, if info.qos == QoS0 then [] else Uint16(id), info.payload);
  }

  /** And where that starts. */
  lemma {:induction false} PacketLayout(info: PublishInfo, id: PacketId)
    requires Fits(info) && Length(info) <= MAX_LENGTH
    ensures var p, n := Packet(info, id), Length(info);
            var l := if n < 128 then 2 else if n < 16384 then 3 else if n < 2097152 then 4 else 5;
            |p| == l + n && p[l..] == VariableHeader(info, id) + info.payload
  {
    hide Encoded, Flags, VariableHeader, Length;
    SizeExact(Length(info));
    DataLayout(info, id);
    var head, v := [TYPE_PUBLISH + Flags(info)] + Encoded(Length(info)), VariableHeader(info, id);
    assert Packet(info, id) == head + (v + info.payload);
  }

  /** A packet in the manner of section 3.3: topic "a/b", quality of service 1, identifier 10. */
  lemma {:induction false} ExamplePacket()
    ensures var info := PublishInfo(QoS1, true, false, [97, 47, 98], [104, 105]);
            && Packet(info, 10) == [0x33, 9, 0, 3, 97, 47, 98, 0, 10, 104, 105]
            && Says(0x33, [0, 3, 97, 47, 98, 0, 10, 104, 105], info, 10)
    ensures var info := PublishInfo(QoS2, false, true, [97], []);
            && Packet(info, 258) == [0x3C, 5, 0, 1, 97, 1, 2]
            && Says(0x3C, [0, 1, 97, 1, 2], info, 258)
  {}

  // ----- round trips

  /** What was written is what is read: the packet starts with a valid type and the encoding of the length
      of the rest, and that rest says the message. */
  lemma {:induction false} PublishRoundTrip(info: PublishInfo, id: PacketId)
    requires Fits(info) && IsSendable(info, id) && Length(info) <= MAX_LENGTH
    ensures var p := Packet(info, id);
            var n := Decoded(p[1..]);
            var data := p[1 + EncodedSize(n)..];
            && IncomingPacketValid(p[0]) && p[0] / 16 == TYPE_PUBLISH / 16 && n == Length(info) == |data|
            && Says(p[0], data, info, if info.qos == QoS0 then INVALID_ID else id)
  {
    hide Decoded, Encoded, EncodedSize, Flags;
    var p, n := Packet(info, id), Length(info);
    var data := VariableHeader(info, id) + info.payload;
    SizeExact(n);
    assert p == [p[0]] + (Encoded(n) + data);
    assert p[1..] == Encoded(n) + data;
    DecodedExact(p[1..], n);
    assert p[1 + EncodedSize(n)..] == data;
  }

  /** The other way round: what is read and may be sent is written back to the very same bytes. Only an
      empty topic, and the duplicate flag of a QoS 0 message, are read but never written. */
  lemma {:induction false} WireRoundTrip(kind: Byte, data: seq<Byte>, info: PublishInfo, id: PacketId)
    requires Says(kind, data, info, id) && kind / 16 == TYPE_PUBLISH / 16
    ensures Packet(info, id) == [kind] + Encoded(|data|) + data && |data| == Length(info)
    ensures IsSendable(info, id) <==> info.topic != [] && !(info.dup && info.qos == QoS0)
  {}

  /** Both exceptions occur. */
  lemma {:induction false} ReadButNeverSent()
    ensures Says(TYPE_PUBLISH, [0, 0, 65], PublishInfo(QoS0, false, false, [], [65]), INVALID_ID)
    ensures Says(TYPE_PUBLISH + 8, [0, 1, 65], PublishInfo(QoS0, false, true, [65], []), INVALID_ID)
  {}
}
