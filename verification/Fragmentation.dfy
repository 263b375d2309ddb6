/** Cutting an encoded packet into fragment packets, from src/bitchat/protocol/fragmentation.py. */
module Fragmentation {
  import opened Wrappers
  import opened ByteStrings
  import opened Packets
  import opened Encoder
  import Decoder

  const FRAGMENTATION_THRESHOLD := 500
  const FRAGMENT_CHUNK_SIZE := 150
  const FRAGMENT_HEADER_SIZE := 13
  const FRAGMENT_ID_SIZE := 8
  const MAX_FRAGMENTS_PER_ASSEMBLY := 1000

  datatype FragmentError =
    | InvalidFragment       // InvalidFragmentError
    | PayloadTooShort       // FragmentPayloadError
    | LimitExceeded         // FragmentLimitExceededError
    | BadChunkSize          // ValueError
    | BadSender             // PacketEncodingError
    | BadField              // InvalidPacketError from the fragment's own packet
    | NothingToEvict        // KeyError: popitem on an empty assembly table

  predicate ShouldFragment(encoded: Bytes) {
    |encoded| > FRAGMENTATION_THRESHOLD
  }

  // ---- chunks ----

  /** The slices data[i : i + size] for i = 0, size, 2 * size, ... */
  function Chunks(data: Bytes, size: nat): seq<Bytes>
    requires size >= 1
  {
    if data == [] then []
    else if |data| <= size then [data]
    else [data[..size]] + Chunks(data[size..], size)
  }

  function SplitChunks(data: Bytes, chunkSize: int): Result<seq<Bytes>, FragmentError> {
    if chunkSize < 1 then Failure(BadChunkSize)
    else
      var chunks := Chunks(data, chunkSize);
      if |chunks| > 0xFFFF then Failure(LimitExceeded)
      else if |chunks| > MAX_FRAGMENTS_PER_ASSEMBLY then Failure(LimitExceeded)
      else Success(chunks)
  }

  lemma {:induction false} ChunksJoin(data: Bytes, size: nat)
    requires size >= 1
    ensures Concat(Chunks(data, size)) == data
  {
    if data == [] {
    } else if |data| <= size {
      assert [data][1..] == [];
    } else {
      ChunksJoin(data[size..], size);
      assert data == data[..size] + data[size..];
    }
  }

  /** Every chunk but the last is full and the last is not empty. */
  ghost predicate FullExceptLast(chunks: seq<Bytes>, size: nat) {
    && (forall i :: 0 <= i < |chunks| ==> 1 <= |chunks[i]| <= size)
    && (forall i :: 0 <= i < |chunks| - 1 ==> |chunks[i]| == size)
  }

  lemma {:induction false} ChunkSizes(data: Bytes, size: nat)
    requires size >= 1
    ensures FullExceptLast(Chunks(data, size), size)
  {
    if |data| > size {
      ChunkSizes(data[size..], size);
      assert Chunks(data[size..], size) != [];
    }
  }

  /** As many fragments as it takes: the length divided by the chunk size, rounded up. */
  lemma {:induction false} ChunkCount(data: Bytes)
    ensures |Chunks(data, FRAGMENT_CHUNK_SIZE)| == (|data| + 149) / 150
  {
    if |data| > 150 {
      ChunkCount(data[150..]);
    }
  }

  // ---- the 13-byte fragment header ----

  datatype FragmentInfo = FragmentInfo(fragmentId: Bytes, index: int, total: int, originalType: int, chunk: Bytes)

  function FragmentBytes(f: FragmentInfo): Bytes
    requires 0 <= f.index && 0 <= f.total && 0 <= f.originalType < 256
  {
    f.fragmentId + BigEndian(f.index, 2) + BigEndian(f.total, 2) + [f.originalType] + f.chunk
  }

  function CreateFragmentPayload(f: FragmentInfo): Result<Bytes, FragmentError> {
    if |f.fragmentId| != FRAGMENT_ID_SIZE then Failure(InvalidFragment)
    else if f.total <= 0 then Failure(InvalidFragment)
    else if f.total > 0xFFFF then Failure(LimitExceeded)
    else if f.total > MAX_FRAGMENTS_PER_ASSEMBLY then Failure(LimitExceeded)
    else if !(0 <= f.index < f.total) then Failure(InvalidFragment)
    else if !(0 <= f.originalType <= 255) then Failure(InvalidFragment)
    else Success(FragmentBytes(f))
  }

  function ParseFragmentPayload(payload: Bytes): Result<FragmentInfo, FragmentError> {
    if |payload| < FRAGMENT_HEADER_SIZE then Failure(PayloadTooShort)
    else
      var index := FromBigEndian(payload[8..10]);
      var total := FromBigEndian(payload[10..12]);
      if total <= 0 then Failure(InvalidFragment)
      else if !(0 <= index < total) then Failure(InvalidFragment)
      else if total > MAX_FRAGMENTS_PER_ASSEMBLY then Failure(LimitExceeded)
      else Success(FragmentInfo(payload[..8], index, total, payload[12], payload[13..]))
  }

  /** Where the fields of a fragment payload stand; its numbers have the most significant byte first. */
  lemma FragmentLayout(f: FragmentInfo)
    requires 0 <= f.index < 65536 && 0 <= f.total < 65536 && 0 <= f.originalType < 256 && |f.fragmentId| == 8
    ensures var b := FragmentBytes(f);
            && |b| == 13 + |f.chunk| && b[..8] == f.fragmentId
            && f.index == 256 * (b[8] as int) + b[9] && f.total == 256 * (b[10] as int) + b[11]
            && b[12] == f.originalType && b[13..] == f.chunk
  {
    TwoBytes(f.index);
    TwoBytes(f.total);
  }

  lemma TwoBytes(n: nat)
    requires n < 65536
    ensures var b := BigEndian(n, 2); n == 256 * (b[0] as int) + b[1]
  {
    assert BigEndian(n / 256, 1) == [] + [n / 256 % 256];
  }

  /** Parsing and creating fragment payloads are inverse to each other, failures included. */
  lemma FragmentPayloadRoundTrip(f: FragmentInfo, payload: Bytes)
    ensures ParseFragmentPayload(payload) == Success(f) <==> CreateFragmentPayload(f) == Success(payload)
  {
    assert Pow256(2) == 65536 by { assert Pow256(1) == 256; }
    if CreateFragmentPayload(f) == Success(payload) {
      BigEndianRoundTrip(f.index, 2);
      BigEndianRoundTrip(f.total, 2);
      assert payload[..8] == f.fragmentId;
      assert payload[8..10] == BigEndian(f.index, 2);
      assert payload[10..12] == BigEndian(f.total, 2);
      assert payload[13..] == f.chunk;
    }
    if ParseFragmentPayload(payload) == Success(f) {
      FromBigEndianRoundTrip(payload[8..10]);
      FromBigEndianRoundTrip(payload[10..12]);
      assert payload == payload[..8] + payload[8..10] + payload[10..12] + [payload[12]] + payload[13..];
    }
  }

  // ---- fragment packets ----

  function FragmentType(index: nat, total: nat): MessageType {
    if index == 0 then FragmentStart
    else if index == total - 1 then FragmentEnd
    else FragmentContinue
  }

  /** The first fragment starts a message and the last one ends it; a single one only starts it. */
  lemma FragmentTypeExactly(index: nat, total: nat)
    requires index < total
    ensures var t := FragmentType(index, total);
            && (t == FragmentStart <==> index == 0)
            && (t == FragmentEnd <==> index > 0 && index + 1 == total)
            && (t == FragmentContinue <==> 0 < index < total - 1)
  {}

  /** What the fragments of one packet have in common. */
  datatype FragmentStamp = FragmentStamp(
      senderId: Bytes, originalType: int, fragmentId: Bytes, ttl: int, timestamp: int)
  {
    predicate Valid() {
      && |senderId| == SENDER_ID_SIZE && |fragmentId| == FRAGMENT_ID_SIZE
      && 0 <= originalType < 256 && 0 <= ttl < 256 && 0 <= timestamp < 0x1_0000_0000_0000_0000
    }
  }

  function FragmentPacket(stamp: FragmentStamp, chunks: seq<Bytes>, index: nat): BitchatPacket
    requires stamp.Valid() && index < |chunks|
  {
    BitchatPacket(
      CURRENT_PROTOCOL_VERSION, FragmentType(index, |chunks|), stamp.ttl, stamp.timestamp, 0, stamp.senderId, None,
      FragmentBytes(FragmentInfo(stamp.fragmentId, index, |chunks|, stamp.originalType, chunks[index])), None)
  }

  function FragmentPackets(stamp: FragmentStamp, chunks: seq<Bytes>): seq<BitchatPacket>
    requires stamp.Valid()
  {
    seq(|chunks|, i requires 0 <= i < |chunks| => FragmentPacket(stamp, chunks, i))
  }

  /** The value or the error that `fragment_encoded_packet` yields. */
  function Fragments(encoded: Bytes, stamp: FragmentStamp): Result<seq<BitchatPacket>, FragmentError> {
    if !ShouldFragment(encoded) then Success([])
    else if |stamp.senderId| != SENDER_ID_SIZE then Failure(BadSender)
    else if |stamp.fragmentId| != FRAGMENT_ID_SIZE then Failure(InvalidFragment)
    else match SplitChunks(encoded, FRAGMENT_CHUNK_SIZE)
    case Failure(e) => Failure(e)
    case Success(chunks) =>
      if !(0 <= stamp.originalType <= 255) then Failure(InvalidFragment)
      else if !stamp.Valid() then Failure(BadField)
      else Success(FragmentPackets(stamp, chunks))
  }

  method FragmentEncodedPacket(encoded: Bytes, stamp: FragmentStamp)
    returns (r: Result<seq<BitchatPacket>, FragmentError>)
    ensures r == Fragments(encoded, stamp)
  {
    if !ShouldFragment(encoded) {
      return Success([]);
    }
    if |stamp.senderId| != SENDER_ID_SIZE {
      return Failure(BadSender);
    }
    if |stamp.fragmentId| != FRAGMENT_ID_SIZE {
      return Failure(InvalidFragment);
    }
    var split := SplitChunks(encoded, FRAGMENT_CHUNK_SIZE);
    if split.Failure? {
      return Failure(split.error);
    }
    var chunks := split.value;
    var total := |chunks|;
    ChunkSizes(encoded, FRAGMENT_CHUNK_SIZE);
    ChunkCount(encoded);
    var fragments: seq<BitchatPacket> := [];
    for index := 0 to total
      invariant index > 0 ==> stamp.Valid()
      invariant index == 0 ==> fragments == []
      invariant stamp.Valid() ==> fragments == FragmentPackets(stamp, chunks)[..index]
    {
      var fragType :=
        if index == 0 then FragmentStart else if index == total - 1 then FragmentEnd else FragmentContinue;
      var payload := CreateFragmentPayload(
        FragmentInfo(stamp.fragmentId, index, total, stamp.originalType, chunks[index]));
      if payload.Failure? {
        return Failure(payload.error);
      }
      var fragment := Construct(BitchatPacket(
        CURRENT_PROTOCOL_VERSION, fragType, stamp.ttl, stamp.timestamp, 0, stamp.senderId, None, payload.value, None));
      if fragment.Failure? {
        return Failure(BadField);
      }
      assert fragment.value == FragmentPacket(stamp, chunks, index);
      fragments := fragments + [fragment.value];
    }
    assert fragments == FragmentPackets(stamp, chunks);
    return Success(fragments);
  }

  // ---- main results ----

  /** The limits of the reassembler are out of reach of the fragmenter: at least 4 and at most 438 fragments,
      each a valid version-1 packet of at most 185 bytes on the wire, so that none is itself fragmented. */
  lemma FragmentsWithinLimits(encoded: Bytes, stamp: FragmentStamp)
    requires ShouldFragment(encoded) && |encoded| <= 65629 && stamp.Valid()
    ensures var chunks := Chunks(encoded, FRAGMENT_CHUNK_SIZE);
            && Fragments(encoded, stamp) == Success(FragmentPackets(stamp, chunks))
            && 4 <= |chunks| <= 438
            && forall i :: 0 <= i < |chunks| ==>
                 var f := FragmentPacket(stamp, chunks, i);
                 && f.Valid() && f.version == CURRENT_PROTOCOL_VERSION
                 && |EncodeUnpadded(f)| <= 185 && !ShouldFragment(EncodeUnpadded(f))
  {
    ChunkSizes(encoded, FRAGMENT_CHUNK_SIZE);
    ChunkCount(encoded);
  }

  /** A fragment's wire form decodes to a packet whose payload names its place and carries its chunk. */
  lemma FragmentOnTheWire(encoded: Bytes, stamp: FragmentStamp, i: nat)
    requires ShouldFragment(encoded) && |encoded| <= 65629 && stamp.Valid()
    requires i < |Chunks(encoded, FRAGMENT_CHUNK_SIZE)|
    ensures var chunks := Chunks(encoded, FRAGMENT_CHUNK_SIZE);
            var f := FragmentPacket(stamp, chunks, i);
            && f.Valid() && Decoder.DecodePacket(EncodeUnpadded(f)) == Success(f)
            && ParseFragmentPayload(f.payload)
               == Success(FragmentInfo(stamp.fragmentId, i, |chunks|, stamp.originalType, chunks[i]))
  {
    FragmentsWithinLimits(encoded, stamp);
    var chunks := Chunks(encoded, FRAGMENT_CHUNK_SIZE);
    var f := FragmentPacket(stamp, chunks, i);
    assert Encode(f, false, []) == EncodeUnpadded(f);
    Decoder.DecodeEncode(f, false, []);
    FragmentPayloadRoundTrip(FragmentInfo(stamp.fragmentId, i, |chunks|, stamp.originalType, chunks[i]), f.payload);
  }

  // ---- what is refused ----

  lemma SplitRefusedExactly(data: Bytes, chunkSize: int)
    ensures var r := SplitChunks(data, chunkSize);
            && (r == Failure(BadChunkSize) <==> chunkSize < 1)
            && (r == Failure(LimitExceeded) <==> chunkSize >= 1 && |data| > 1000 * chunkSize)
            && (r.Success? <==> chunkSize >= 1 && |data| <= 1000 * chunkSize)
  {
    if chunkSize >= 1 {
      MoreChunks(data, chunkSize, 1000);
    }
  }

  lemma {:induction false} MoreChunks(data: Bytes, size: nat, n: nat)
    requires size >= 1
    ensures |Chunks(data, size)| > n <==> |data| > n * size
  {
    if n > 0 && |data| > size {
      MoreChunks(data[size..], size, n - 1);
      assert n * size == (n - 1) * size + size;
    } else if n > 0 {
      assert n * size >= size;
    }
  }

  /** A payload names a place only if it has 13 bytes, and its index is below its total, which is at most 1000. */
  lemma ParseRefusedExactly(payload: Bytes)
    ensures var r, long := ParseFragmentPayload(payload), |payload| >= 13;
            var index := if long then 256 * (payload[8] as int) + payload[9] as int else 0;
            var total := if long then 256 * (payload[10] as int) + payload[11] as int else 0;
            && (r == Failure(PayloadTooShort) <==> !long)
            && (r == Failure(InvalidFragment) <==> long && index >= total)
            && (r == Failure(LimitExceeded) <==> long && index < total && total > 1000)
            && (r.Success? <==> long && index < total <= 1000)
            && (r.Success? ==>
                  r.value == FragmentInfo(payload[..8], index, total, payload[12], payload[13..]))
  {
    if |payload| >= 13 {
      BigTwo(payload, 8);
      BigTwo(payload, 10);
    }
  }

  lemma BigTwo(b: Bytes, at: nat)
    requires at + 2 <= |b|
    ensures FromBigEndian(b[at..at + 2]) == 256 * (b[at] as int) + b[at + 1] as int
  {
    var two := b[at..at + 2];
    assert two[..1] == [b[at]] && [b[at]][..0] == [];
    assert FromBigEndian([b[at]]) == b[at];
  }

  /** A payload is made exactly for an id of 8 bytes, at most 1000 fragments, an index among them and a type of one
      byte. */
  lemma CreateRefusedExactly(f: FragmentInfo)
    ensures var r, right := CreateFragmentPayload(f), |f.fragmentId| == 8 && f.total >= 1;
            && (r == Failure(LimitExceeded) <==> right && f.total > 1000)
            && (r == Failure(InvalidFragment) <==>
                  !right || (f.total <= 1000 && !(0 <= f.index < f.total && 0 <= f.originalType <= 255)))
            && (r.Success? <==> right && f.total <= 1000 && 0 <= f.index < f.total && 0 <= f.originalType <= 255)
  {}

  /** Up to 500 bytes are not fragmented; beyond, the sender id, the fragment id and the size have to be right. */
  lemma FragmentedExactly(encoded: Bytes, stamp: FragmentStamp)
    ensures var r, large, sender := Fragments(encoded, stamp), |encoded| > 500, |stamp.senderId| == 8;
            && (r == Success([]) <==> !large)
            && (r == Failure(BadSender) <==> large && !sender)
            && (r == Failure(LimitExceeded) <==>
                  large && sender && |stamp.fragmentId| == 8 && |encoded| > 150_000)
            && (r.Success? && large ==> |r.value| == (|encoded| + 149) / 150)
  {
    SplitRefusedExactly(encoded, FRAGMENT_CHUNK_SIZE);
    ChunkCount(encoded);
  }
}
