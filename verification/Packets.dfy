/** The typed wire packet of src/bitchat/protocol/packet.py and its validity rules. */
module Packets {
  import opened Wrappers
  import opened ByteStrings

  const CURRENT_PROTOCOL_VERSION := 1
  const SENDER_ID_SIZE := 8
  const RECIPIENT_ID_SIZE := 8
  const SIGNATURE_SIZE := 64
  const MAX_PAYLOAD := 65535
  const FLAG_HAS_RECIPIENT := 1
  const FLAG_HAS_SIGNATURE := 2
  const FLAG_IS_COMPRESSED := 4
  const BROADCAST_RECIPIENT: Bytes := [255, 255, 255, 255, 255, 255, 255, 255]

  datatype MessageType =
    | Announce | KeyExchange | Leave | Message
    | FragmentStart | FragmentContinue | FragmentEnd
    | ChannelAnnounce | ChannelRetention
    | DeliveryAck | DeliveryStatusRequest | ReadReceipt
    | NoiseHandshakeInit | NoiseHandshakeResp | NoiseEncrypted | NoiseIdentityAnnounce
    | VersionHello | VersionAck | ProtocolAck | ProtocolNack | SystemValidation | HandshakeRequest
  {
    /** The byte that names this type on the wire. */
    function Code(): Byte {
      match this
      case Announce => 0x01
      case KeyExchange => 0x02
      case Leave => 0x03
      case Message => 0x04
      case FragmentStart => 0x05
      case FragmentContinue => 0x06
      case FragmentEnd => 0x07
      case ChannelAnnounce => 0x08
      case ChannelRetention => 0x09
      case DeliveryAck => 0x0A
      case DeliveryStatusRequest => 0x0B
      case ReadReceipt => 0x0C
      case NoiseHandshakeInit => 0x10
      case NoiseHandshakeResp => 0x11
      case NoiseEncrypted => 0x12
      case NoiseIdentityAnnounce => 0x13
      case VersionHello => 0x20
      case VersionAck => 0x21
      case ProtocolAck => 0x22
      case ProtocolNack => 0x23
      case SystemValidation => 0x24
      case HandshakeRequest => 0x25
    }

    predicate IsFragment() {
      FragmentStart? || FragmentContinue? || FragmentEnd?
    }
  }

  /** `MessageType(value)`: the type named by a byte, if there is one. */
  function TypeOfCode(b: Byte): (t: Option<MessageType>)
    ensures t.Some? ==> t.value.Code() == b
    ensures forall m: MessageType :: m.Code() == b ==> t == Some(m)
  {
    if b == 0x01 then Some(Announce)
    else if b == 0x02 then Some(KeyExchange)
    else if b == 0x03 then Some(Leave)
    else if b == 0x04 then Some(Message)
    else if b == 0x05 then Some(FragmentStart)
    else if b == 0x06 then Some(FragmentContinue)
    else if b == 0x07 then Some(FragmentEnd)
    else if b == 0x08 then Some(ChannelAnnounce)
    else if b == 0x09 then Some(ChannelRetention)
    else if b == 0x0A then Some(DeliveryAck)
    else if b == 0x0B then Some(DeliveryStatusRequest)
    else if b == 0x0C then Some(ReadReceipt)
    else if b == 0x10 then Some(NoiseHandshakeInit)
    else if b == 0x11 then Some(NoiseHandshakeResp)
    else if b == 0x12 then Some(NoiseEncrypted)
    else if b == 0x13 then Some(NoiseIdentityAnnounce)
    else if b == 0x20 then Some(VersionHello)
    else if b == 0x21 then Some(VersionAck)
    else if b == 0x22 then Some(ProtocolAck)
    else if b == 0x23 then Some(ProtocolNack)
    else if b == 0x24 then Some(SystemValidation)
    else if b == 0x25 then Some(HandshakeRequest)
    else None
  }

  /** `flags & bit` for a single-bit mask. */
  predicate HasFlag(flags: int, bit: nat)
    requires bit > 0
  {
    (flags / bit) % 2 == 1
  }

  /** The flags are the lowest three bits of their byte. */
  lemma FlagsExactly(flags: int, recipient: bool, signature: bool, compressed: bool, rest: nat)
    requires flags
             == (if recipient then 1 else 0) + (if signature then 2 else 0) + (if compressed then 4 else 0) + 8 * rest
    ensures HasFlag(flags, FLAG_HAS_RECIPIENT) <==> recipient
    ensures HasFlag(flags, FLAG_HAS_SIGNATURE) <==> signature
    ensures HasFlag(flags, FLAG_IS_COMPRESSED) <==> compressed
  {}

  datatype BitchatPacket = BitchatPacket(
    version: int,
    messageType: MessageType,
    ttl: int,
    timestamp: int,
    flags: int,
    senderId: Bytes,
    recipientId: Option<Bytes>,
    payload: Bytes,
    signature: Option<Bytes>)
  {
    /** What the constructor checks: a packet object exists only if this holds. */
    predicate Valid() {
      && 0 <= version < 256
      && 0 <= ttl < 256
      && 0 <= timestamp < 0x1_0000_0000_0000_0000
      && 0 <= flags < 256
      && |senderId| == SENDER_ID_SIZE
      && (recipientId.Some? ==> |recipientId.value| == RECIPIENT_ID_SIZE)
      && (recipientId.Some? <==> HasFlag(flags, FLAG_HAS_RECIPIENT))
      && |payload| <= MAX_PAYLOAD
      && (signature.Some? ==> |signature.value| == SIGNATURE_SIZE)
      && (signature.Some? <==> HasFlag(flags, FLAG_HAS_SIGNATURE))
    }
  }

  datatype InvalidPacket = InvalidPacket

  /** `BitchatPacket(...)`: the object, or InvalidPacketError. */
  function Construct(p: BitchatPacket): Result<BitchatPacket, InvalidPacket> {
    if p.Valid() then Success(p) else Failure(InvalidPacket)
  }

  /** `BitchatPacket.create`: flags are computed from which optional parts are given. */
  function Create(messageType: MessageType, senderId: Bytes, payload: Bytes, recipientId: Option<Bytes>,
                  signature: Option<Bytes>, ttl: int, timestamp: int, version: int, isCompressed: bool)
    : Result<BitchatPacket, InvalidPacket>
  {
    var flags :=
      (if recipientId.Some? then FLAG_HAS_RECIPIENT else 0)
      + (if signature.Some? then FLAG_HAS_SIGNATURE else 0)
      + (if isCompressed then FLAG_IS_COMPRESSED else 0);
    Construct(BitchatPacket(version, messageType, ttl, timestamp, flags, senderId, recipientId, payload, signature))
  }

  /** The factory never fails on account of its flags: it fails exactly on a field out of range,
      and the flags it computes say what the packet carries. */
  lemma CreateComputesConsistentFlags(messageType: MessageType, senderId: Bytes, payload: Bytes,
                                      recipientId: Option<Bytes>, signature: Option<Bytes>,
                                      ttl: int, timestamp: int, version: int, isCompressed: bool)
    ensures var r := Create(messageType, senderId, payload, recipientId, signature, ttl, timestamp, version,
                            isCompressed);
            && (r.Success? <==>
                && 0 <= version < 256 && 0 <= ttl < 256 && 0 <= timestamp < 0x1_0000_0000_0000_0000
                && |senderId| == 8 && |payload| <= 65535
                && (recipientId.Some? ==> |recipientId.value| == 8)
                && (signature.Some? ==> |signature.value| == 64))
            && (r.Success? ==>
                && r.value.Valid()
                && r.value.payload == payload && r.value.recipientId == recipientId
                && (HasFlag(r.value.flags, FLAG_IS_COMPRESSED) <==> isCompressed)
                && r.value.flags == (if recipientId.Some? then 1 else 0) + (if signature.Some? then 2 else 0)
                                    + (if isCompressed then 4 else 0))
  {}
}
