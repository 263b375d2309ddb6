/** Packet serialisation and random block padding, from src/bitchat/protocol/encoder.py. */
module Encoder {
  import opened Wrappers
  import opened ByteStrings
  import opened Packets

  const BLOCK_SIZES: seq<nat> := [256, 512, 1024, 2048]
  const PADDING_OVERHEAD_ESTIMATE := 16
  const MAX_PADDING_SIZE := 255

  /** The first block of the list that `total` bytes fit in. */
  function FirstFit(blocks: seq<nat>, total: nat): Option<nat> {
    if blocks == [] then None
    else if total <= blocks[0] then Some(blocks[0])
    else FirstFit(blocks[1..], total)
  }

  function OptimalBlockSize(unpaddedSize: nat): nat {
    match FirstFit(BLOCK_SIZES, unpaddedSize + PADDING_OVERHEAD_ESTIMATE)
    case Some(block) => block
    case None => unpaddedSize
  }

  lemma {:induction false} FirstFitIsSmallest(blocks: seq<nat>, total: nat)
    requires forall i, j :: 0 <= i < j < |blocks| ==> blocks[i] <= blocks[j]
    ensures match FirstFit(blocks, total)
            case None => forall c :: c in blocks ==> c < total
            case Some(b) => b in blocks && total <= b && forall c :: c in blocks && total <= c ==> b <= c
  {
    if blocks != [] {
      FirstFitIsSmallest(blocks[1..], total);
      assert forall c :: c in blocks <==> c == blocks[0] || c in blocks[1..];
    }
  }

  /** The chosen block is the smallest listed one with room for the overhead, if any has. */
  lemma OptimalBlockIsSmallest(unpaddedSize: nat)
    ensures var b := OptimalBlockSize(unpaddedSize);
            if unpaddedSize + 16 > 2048 then b == unpaddedSize
            else b in BLOCK_SIZES && unpaddedSize + 16 <= b
                 && forall c :: c in BLOCK_SIZES && unpaddedSize + 16 <= c ==> b <= c
  {
    FirstFitIsSmallest(BLOCK_SIZES, unpaddedSize + PADDING_OVERHEAD_ESTIMATE);
    assert BLOCK_SIZES[3] in BLOCK_SIZES;
  }

  /** How many padding bytes `pad_packet_data` appends to `size` bytes (0 when it appends none). */
  function PaddingNeeded(size: nat): (n: nat)
    ensures n <= MAX_PADDING_SIZE
  {
    var target := OptimalBlockSize(size);
    if size >= target || target - size > MAX_PADDING_SIZE then 0 else target - size
  }

  /** How many random bytes the operating system is asked for. */
  function NoiseLength(size: nat): nat {
    if PaddingNeeded(size) == 0 then 0 else PaddingNeeded(size) - 1
  }

  function PadPacketData(data: Bytes, noise: Bytes): Bytes
    requires |noise| == NoiseLength(|data|)
  {
    var n := PaddingNeeded(|data|);
    if n == 0 then data else data + noise + [n]
  }

  predicate IsBlock(b: nat) {
    b == 256 || b == 512 || b == 1024 || b == 2048
  }

  /** `b` is the smallest block with room for `size` bytes and 16 more, and one count byte can say how much it adds. */
  ghost predicate Fills(size: nat, b: nat) {
    IsBlock(b) && size + 16 <= b && b - size <= 255 && forall c: nat :: IsBlock(c) && size + 16 <= c ==> b <= c
  }

  /** The sizes that are padded, block by block; all others stay as they are. */
  lemma FillsExactly(size: nat, b: nat)
    ensures Fills(size, b) <==>
            || (b == 256 && 1 <= size <= 240) || (b == 512 && 257 <= size <= 496)
            || (b == 1024 && 769 <= size <= 1008) || (b == 2048 && 1793 <= size <= 2032)
  {
    assert IsBlock(256) && IsBlock(512) && IsBlock(1024) && IsBlock(2048);
  }

  lemma NeededExactly(size: nat, b: nat)
    ensures Fills(size, b) <==> b == size + PaddingNeeded(size) && PaddingNeeded(size) > 0
  {
    FillsExactly(size, b);
    OptimalBlockIsSmallest(size);
    BlocksListed();
    if PaddingNeeded(size) > 0 {
      FillsExactly(size, size + PaddingNeeded(size));
    }
  }

  lemma BlocksListed()
    ensures forall c: nat :: c in BLOCK_SIZES <==> IsBlock(c)
  {
    assert BLOCK_SIZES[0] == 256 && BLOCK_SIZES[1] == 512 && BLOCK_SIZES[2] == 1024 && BLOCK_SIZES[3] == 2048;
  }

  /** Padding fills the block, and its last byte says by how much; data that fills no block is left alone. */
  lemma PaddedExactly(data: Bytes, noise: Bytes)
    requires |noise| == NoiseLength(|data|)
    ensures var wire := PadPacketData(data, noise);
            && (forall b: nat :: Fills(|data|, b) ==>
                  wire == data + noise + [b - |data|] && |wire| == b && |noise| == b - |data| - 1)
            && ((forall b: nat :: !Fills(|data|, b)) ==> wire == data && noise == [])
  {
    forall b: nat ensures Fills(|data|, b) <==> b == |data| + PaddingNeeded(|data|) && PaddingNeeded(|data|) > 0 {
      NeededExactly(|data|, b);
    }
    assert PaddingNeeded(|data|) > 0 ==> Fills(|data|, |data| + PaddingNeeded(|data|));
  }

  /** The fixed 14-byte header: version, type, ttl, timestamp, flags, payload length. */
  function Header(p: BitchatPacket): (h: Bytes)
    requires p.Valid()
    ensures |h| == 14
  {
    [p.version, p.messageType.Code(), p.ttl] + BigEndian(p.timestamp, 8) + [p.flags] + BigEndian(|p.payload|, 2)
  }

  function OptionalBytes(o: Option<Bytes>): Bytes {
    match o case None => [] case Some(b) => b
  }

  function EncodeUnpadded(p: BitchatPacket): Bytes
    requires p.Valid()
  {
    Header(p) + p.senderId + OptionalBytes(p.recipientId) + p.payload + OptionalBytes(p.signature)
  }

  predicate NoiseFits(p: BitchatPacket, addPadding: bool, noise: Bytes)
    requires p.Valid()
  {
    addPadding ==> |noise| == NoiseLength(|EncodeUnpadded(p)|)
  }

  function Encode(p: BitchatPacket, addPadding: bool, noise: Bytes): Bytes
    requires p.Valid() && NoiseFits(p, addPadding, noise)
  {
    if addPadding then PadPacketData(EncodeUnpadded(p), noise) else EncodeUnpadded(p)
  }

  /** `encode_packet`: collects the parts in a list and joins them. */
  method EncodePacket(p: BitchatPacket, addPadding: bool, noise: Bytes) returns (wire: Bytes)
    requires p.Valid() && NoiseFits(p, addPadding, noise)
    ensures wire == Encode(p, addPadding, noise)
  {
    var parts: seq<Bytes> := [Header(p), p.senderId];
    ConcatAppend([Header(p)], p.senderId);
    assert Concat(parts) == Header(p) + p.senderId;
    if HasFlag(p.flags, FLAG_HAS_RECIPIENT) {
      ConcatAppend(parts, p.recipientId.value);
      parts := parts + [p.recipientId.value];
    }
    ConcatAppend(parts, p.payload);
    parts := parts + [p.payload];
    if HasFlag(p.flags, FLAG_HAS_SIGNATURE) {
      ConcatAppend(parts, p.signature.value);
      parts := parts + [p.signature.value];
    }
    var rawUnpadded := Concat(parts);
    assert rawUnpadded == EncodeUnpadded(p);
    wire := if addPadding then PadPacketData(rawUnpadded, noise) else rawUnpadded;
  }
}
