/** Defensive packet parsing, from src/bitchat/protocol/decoder.py, and the exactness of the codec. */
module Decoder {
  import opened Wrappers
  import opened ByteStrings
  import opened Packets
  import opened Encoder

  const FIXED_HEADER_SIZE := 14
  const MINIMUM_PACKET_SIZE := 22

  datatype DecodeError = TooSmall | UnsupportedVersion | UnknownType | Truncated | MalformedPadding | FailedValidation

  /** The unpadded length that a header announces. */
  function ExpectedSize(flags: Byte, payloadLen: nat): nat {
    FIXED_HEADER_SIZE + SENDER_ID_SIZE
    + (if HasFlag(flags, FLAG_HAS_RECIPIENT) then RECIPIENT_ID_SIZE else 0)
    + payloadLen
    + (if HasFlag(flags, FLAG_HAS_SIGNATURE) then SIGNATURE_SIZE else 0)
  }

  /** The fields cut out of an unpadded buffer. */
  function Fields(messageType: MessageType, unpadded: Bytes): BitchatPacket
    requires |unpadded| >= 14
    requires |unpadded| == ExpectedSize(unpadded[11], FromBigEndian(unpadded[12..14]))
  {
    var flags := unpadded[11];
    var payloadLen := FromBigEndian(unpadded[12..14]);
    var hasRecipient := HasFlag(flags, FLAG_HAS_RECIPIENT);
    var hasSignature := HasFlag(flags, FLAG_HAS_SIGNATURE);
    var payloadStart := if hasRecipient then 30 else 22;
    var payloadEnd := payloadStart + payloadLen;
    BitchatPacket(
      unpadded[0], messageType, unpadded[2], FromBigEndian(unpadded[3..11]), flags,
      unpadded[14..22],
      if hasRecipient then Some(unpadded[22..30]) else None,
      unpadded[payloadStart..payloadEnd],
      if hasSignature then Some(unpadded[payloadEnd..payloadEnd + 64]) else None)
  }

  function DecodePacket(data: Bytes): Result<BitchatPacket, DecodeError> {
    if |data| < MINIMUM_PACKET_SIZE then Failure(TooSmall)
    else if data[0] != CURRENT_PROTOCOL_VERSION then Failure(UnsupportedVersion)
    else match TypeOfCode(data[1])
    case None => Failure(UnknownType)
    case Some(messageType) =>
      var expected := ExpectedSize(data[11], FromBigEndian(data[12..14]));
      if |data| < expected then Failure(Truncated)
      else if |data| > expected
              && (|data| - expected > MAX_PADDING_SIZE
                  || data[|data| - 1] != |data| - expected || data[|data| - 1] == 0)
      then Failure(MalformedPadding)
      else
        var unpadded := data[..expected];
        SliceOfPrefix(data, expected, 12, 14);
        match Construct(Fields(messageType, unpadded))
        case Success(p) => Success(p)
        case Failure(_) => Failure(FailedValidation)
  }

  // ---- the header ----

  lemma HeaderBytes(p: BitchatPacket)
    requires p.Valid()
    ensures var h := Header(p);
            && h[0] == p.version && h[1] == p.messageType.Code() && h[2] == p.ttl
            && h[3..11] == BigEndian(p.timestamp, 8) && h[11] == p.flags && h[12..14] == BigEndian(|p.payload|, 2)
            && FromBigEndian(h[3..11]) == p.timestamp && FromBigEndian(h[12..14]) == |p.payload|
  {
    assert Pow256(2) == 65536 by { assert Pow256(1) == 256; }
    Pow256Eight();
    BigEndianRoundTrip(p.timestamp, 8);
    BigEndianRoundTrip(|p.payload|, 2);
  }

  lemma EncodedSize(p: BitchatPacket)
    requires p.Valid()
    ensures |EncodeUnpadded(p)| == ExpectedSize(p.flags, |p.payload|)
    ensures 22 <= |EncodeUnpadded(p)| <= 65629
  {}

  /** Where each field of an unpadded encoding lies. */
  lemma EncodedLayout(p: BitchatPacket)
    requires p.Valid()
    ensures var e := EncodeUnpadded(p);
            && |e| == ExpectedSize(e[11], FromBigEndian(e[12..14]))
            && e[..14] == Header(p) && e[1] == p.messageType.Code()
            && Fields(p.messageType, e) == p
  {
    var e := EncodeUnpadded(p);
    EncodedSize(p);
    HeaderBytes(p);
    PiecesOfFive(Header(p), p.senderId, OptionalBytes(p.recipientId), p.payload, OptionalBytes(p.signature));
    SliceOfPrefix(e, 14, 3, 11);
    SliceOfPrefix(e, 14, 12, 14);
    assert e[11] == e[..14][11] && e[0] == e[..14][0] && e[1] == e[..14][1] && e[2] == e[..14][2];
    var end := |e| - |OptionalBytes(p.signature)|;
    assert p.signature.Some? ==> e[end..end + 64] == e[end..];
  }

  /** Cutting the fields out of a buffer and writing them down again gives the buffer back. */
  lemma FieldsEncodeBack(messageType: MessageType, u: Bytes)
    requires |u| >= 14
    requires |u| == ExpectedSize(u[11], FromBigEndian(u[12..14]))
    requires u[1] == messageType.Code()
    ensures Fields(messageType, u).Valid()
    ensures EncodeUnpadded(Fields(messageType, u)) == u
  {
    var p := Fields(messageType, u);
    FromBigEndianRoundTrip(u[3..11]);
    FromBigEndianRoundTrip(u[12..14]);
    assert Pow256(2) == 65536 by { assert Pow256(1) == 256; }
    Pow256Eight();
    assert Header(p) == u[..14] by {
      assert u[..14] == [u[0], u[1], u[2]] + u[3..11] + [u[11]] + u[12..14];
    }
    var start := if p.recipientId.Some? then 30 else 22;
    var end := start + |p.payload|;
    CutInFive(u, 14, 22, start, end);
    assert OptionalBytes(p.recipientId) == u[22..start];
    assert OptionalBytes(p.signature) == u[end..];
  }

  // ---- main results ----

  /** `data` is the encoding of the version-1 packet `p`, bare or followed by `k` bytes the last of which is `k`. */
  ghost predicate IsWireFormOf(data: Bytes, p: BitchatPacket) {
    && p.Valid() && p.version == CURRENT_PROTOCOL_VERSION
    && EncodeUnpadded(p) <= data
    && var k := |data| - |EncodeUnpadded(p)|;
       k <= MAX_PADDING_SIZE && (k > 0 ==> data[|data| - 1] == k)
  }

  /** The decoder accepts exactly the wire forms, and returns the packet they encode. */
  lemma DecodeExact(data: Bytes, p: BitchatPacket)
    ensures DecodePacket(data) == Success(p) <==> IsWireFormOf(data, p)
  {
    if IsWireFormOf(data, p) {
      var e := EncodeUnpadded(p);
      EncodedSize(p);
      EncodedLayout(p);
      assert data[..|e|] == e;
      SliceOfPrefix(data, |e|, 12, 14);
      assert data[0] == e[0] && data[1] == e[1] && data[11] == e[11];
      assert e[0] == e[..14][0];
      HeaderBytes(p);
      assert TypeOfCode(data[1]) == Some(p.messageType);
    }
    if DecodePacket(data) == Success(p) {
      var expected := ExpectedSize(data[11], FromBigEndian(data[12..14]));
      var u := data[..expected];
      SliceOfPrefix(data, expected, 12, 14);
      FieldsEncodeBack(p.messageType, u);
      assert EncodeUnpadded(p) == u;
    }
  }

  /** The branch that rejects the decoded fields is never taken. */
  lemma FinalValidationNeverFails(data: Bytes)
    ensures DecodePacket(data) != Failure(FailedValidation)
  {
    if |data| >= MINIMUM_PACKET_SIZE && data[0] == CURRENT_PROTOCOL_VERSION && TypeOfCode(data[1]).Some? {
      var expected := ExpectedSize(data[11], FromBigEndian(data[12..14]));
      if expected <= |data| {
        var u := data[..expected];
        SliceOfPrefix(data, expected, 12, 14);
        FieldsEncodeBack(TypeOfCode(data[1]).value, u);
      }
    }
  }

  /** The length that a header of 22 bytes announces, written out. */
  function Announced(data: Bytes): nat
    requires |data| >= 22
  {
    22 + (if data[11] % 2 == 1 then 8 else 0) + (256 * (data[12] as int) + data[13] as int)
    + (if data[11] / 2 % 2 == 1 then 64 else 0)
  }

  /** The bytes after the announced length are 1 to 255, and the last of them counts them. */
  predicate PaddedTo(data: Bytes, size: nat)
    requires 22 <= size < |data|
  {
    data[|data| - 1] == |data| - size
  }

  lemma AnnouncedIsExpected(data: Bytes)
    requires |data| >= 22
    ensures Announced(data) == ExpectedSize(data[11], FromBigEndian(data[12..14]))
  {
    var length := data[12..14];
    assert length[..1] == [data[12]] && [data[12]][..0] == [];
    assert FromBigEndian([data[12]]) == data[12];
  }

  /** Each error, exactly. */
  lemma RefusedExactly(data: Bytes)
    ensures var r := DecodePacket(data);
            && (r == Failure(TooSmall) <==> |data| < 22)
            && (r == Failure(UnsupportedVersion) <==> |data| >= 22 && data[0] != 1)
            && (r == Failure(UnknownType) <==> |data| >= 22 && data[0] == 1 && TypeOfCode(data[1]) == None)
            && (r == Failure(Truncated) <==>
                  |data| >= 22 && data[0] == 1 && TypeOfCode(data[1]).Some? && |data| < Announced(data))
            && (r == Failure(MalformedPadding) <==>
                  |data| >= 22 && data[0] == 1 && TypeOfCode(data[1]).Some? && |data| > Announced(data)
                  && !PaddedTo(data, Announced(data)))
  {
    FinalValidationNeverFails(data);
    if |data| >= 22 {
      AnnouncedIsExpected(data);
    }
  }

  /** Decoding undoes encoding for every padding choice; only version 1 comes back. */
  lemma DecodeEncode(p: BitchatPacket, addPadding: bool, noise: Bytes)
    requires p.Valid() && NoiseFits(p, addPadding, noise)
    ensures DecodePacket(Encode(p, addPadding, noise)) == Success(p) <==> p.version == CURRENT_PROTOCOL_VERSION
  {
    var wire := Encode(p, addPadding, noise);
    EncodedSize(p);
    assert EncodeUnpadded(p) <= wire;
    DecodeExact(wire, p);
  }

  /** Two packets never share a wire form, so whatever padding is chosen the sender's packet is the one read. */
  lemma WireFormsAreUnambiguous(data: Bytes, p: BitchatPacket, q: BitchatPacket)
    requires IsWireFormOf(data, p) && IsWireFormOf(data, q)
    ensures p == q
  {
    DecodeExact(data, p);
    DecodeExact(data, q);
  }

  /** The exact size of a padded encoding, and its count byte. */
  lemma PaddedWireExactly(p: BitchatPacket, noise: Bytes)
    requires p.Valid() && NoiseFits(p, true, noise)
    ensures var size, wire := |EncodeUnpadded(p)|, Encode(p, true, noise);
            && EncodeUnpadded(p) <= wire
            && (forall b: nat :: Fills(size, b) ==> |wire| == b && wire[b - 1] == b - size)
            && ((forall b: nat :: !Fills(size, b)) ==> |wire| == size)
  {
    PaddedExactly(EncodeUnpadded(p), noise);
  }

  /** A padded encoding fills a whole block whenever it is padded at all. */
  lemma EncodedWireSize(p: BitchatPacket, addPadding: bool, noise: Bytes)
    requires p.Valid() && NoiseFits(p, addPadding, noise)
    ensures var size := |Encode(p, addPadding, noise)|;
            && |EncodeUnpadded(p)| <= size <= 65629
            && (size > |EncodeUnpadded(p)| ==> size in BLOCK_SIZES)
  {
    EncodedSize(p);
    OptimalBlockIsSmallest(|EncodeUnpadded(p)|);
  }
}
