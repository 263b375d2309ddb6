/** Packets over a LAN connection: encode, frame, stream in arbitrary chunks, extract, decode
    (src/bitchat/network/connection.py). */
module LanStream {
  import opened Wrappers
  import opened ByteStrings
  import opened Packets
  import opened Encoder
  import opened Decoder
  import opened Framing

  /** The bytes `send_packet` writes for one packet, or the FramingError it raises. */
  function PacketFrame(p: BitchatPacket): Result<Bytes, FramingError>
    requires p.Valid()
  {
    EncodeFrame(EncodeUnpadded(p))
  }

  /** The decodable packets among some payloads, in order. */
  function DecodeAll(payloads: seq<Bytes>): seq<BitchatPacket> {
    if payloads == [] then []
    else
      (match DecodePacket(payloads[0]) case Success(p) => [p] case Failure(_) => []) + DecodeAll(payloads[1..])
  }

  class LanConnection {
    const framer: StreamFramer
    var isConnected: bool
    var received: seq<BitchatPacket>  // every call of on_packet_received

    constructor ()
      ensures fresh(framer) && framer.buffer == [] && framer.maxFrameSize == MAX_FRAME_SIZE
      ensures isConnected && received == []
    {
      framer := new StreamFramer(MAX_FRAME_SIZE);
      isConnected, received := true, [];
    }

    /** One turn of the read loop; an empty chunk is the end of the stream, a framing error ends the loop too,
        and both close the connection. */
    method ReadChunk(chunk: Bytes)
      requires isConnected
      modifies this, framer
      ensures var e := Extract(old(framer.buffer) + chunk, framer.maxFrameSize);
              if chunk == [] || e.failed
              then !isConnected && received == old(received) && framer.buffer == []
              else isConnected && received == old(received) + DecodeAll(e.frames) && framer.buffer == e.rest
    {
      if chunk == [] {
        Close();
        return;
      }
      var payloads := framer.Feed(chunk);
      if payloads.Failure? {
        Close();
        return;
      }
      Deliver(payloads.value);
    }

    method Deliver(payloads: seq<Bytes>)
      modifies this`received
      ensures received == old(received) + DecodeAll(payloads)
    {
      for i := 0 to |payloads|
        invariant received + DecodeAll(payloads[i..]) == old(received) + DecodeAll(payloads)
      {
        var decoded := DecodePacket(payloads[i]);
        assert payloads[i..][1..] == payloads[i + 1..];
        if decoded.Success? {
          received := received + [decoded.value];
        }
      }
      assert payloads[|payloads|..] == [];
    }

    method Close()
      modifies this`isConnected, framer
      ensures !isConnected
      ensures framer.buffer == if old(isConnected) then [] else old(framer.buffer)
    {
      if isConnected {
        isConnected := false;
        framer.Clear();
      }
    }
  }

  // ---- main results ----

  /** A valid packet can be sent over the LAN exactly when its encoding fits a frame. The largest valid packets do
      not: the 16-bit payload field allows encodings of up to 65629 bytes, the frame limit is 65536. */
  lemma SendableExactly(p: BitchatPacket)
    requires p.Valid()
    ensures PacketFrame(p).Success? <==>
            |p.payload| + (if p.recipientId.Some? then 8 else 0) + (if p.signature.Some? then 64 else 0) <= 65514
  {
    EncodedSize(p);
  }

  function Payloads(packets: seq<BitchatPacket>): seq<Bytes>
    requires forall p :: p in packets ==> p.Valid()
  {
    seq(|packets|, i requires 0 <= i < |packets| => EncodeUnpadded(packets[i]))
  }

  lemma {:induction false} DecodeAllOfPayloads(packets: seq<BitchatPacket>)
    requires forall p :: p in packets ==> p.Valid() && p.version == CURRENT_PROTOCOL_VERSION
    ensures DecodeAll(Payloads(packets)) == packets
  {
    if packets != [] {
      DecodeAllOfPayloads(packets[1..]);
      assert Payloads(packets)[1..] == Payloads(packets[1..]);
      assert Encode(packets[0], false, []) == EncodeUnpadded(packets[0]);
      DecodeEncode(packets[0], false, []);
    }
  }

  /** Delivery over TCP: the frames of any list of valid version-1 packets, cut into any chunks, are received as that
      list; and at every moment before, what has been received is its beginning. */
  lemma LanDelivery(packets: seq<BitchatPacket>, chunks: seq<Bytes>)
    requires forall p :: p in packets ==> p.Valid() && p.version == CURRENT_PROTOCOL_VERSION && PacketFrame(p).Success?
    requires Concat(chunks) <= FrameStream(Payloads(packets))
    ensures var fed := Feeds([], chunks, MAX_FRAME_SIZE);
            && !fed.failed && DecodeAll(fed.frames) <= packets
            && (Concat(chunks) == FrameStream(Payloads(packets)) ==> DecodeAll(fed.frames) == packets && fed.rest == [])
  {
    var payloads := Payloads(packets);
    forall i | 0 <= i < |payloads| ensures |payloads[i]| <= MAX_FRAME_SIZE {
      assert packets[i] in packets;
    }
    StreamPrefix(payloads, chunks, MAX_FRAME_SIZE);
    var fed := Feeds([], chunks, MAX_FRAME_SIZE);
    assert fed.frames == Payloads(packets[..|fed.frames|]);
    DecodeAllOfPayloads(packets[..|fed.frames|]);
    if Concat(chunks) == FrameStream(payloads) {
      StreamRoundTrip(payloads, chunks, MAX_FRAME_SIZE);
    }
  }
}
