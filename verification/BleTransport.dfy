/** The BLE carrier: encode, fragment and write on one side, decode, reassemble and dispatch on the other
    (src/bitchat/ble/transport.py). */
module BleTransport {
  import opened Wrappers
  import opened ByteStrings
  import opened Packets
  import opened Encoder
  import opened Decoder
  import opened Fragmentation
  import opened Reassembly

  datatype SendError = NotReady | CannotFragment(error: FragmentError)

  const DEFAULT_TTL := 7

  function StampFor(p: BitchatPacket, senderId: Bytes, fragmentId: Bytes, timestamp: int): FragmentStamp {
    FragmentStamp(senderId, p.messageType.Code(), fragmentId, DEFAULT_TTL, timestamp)
  }

  /** The wires of a list of fragment packets: encoded without padding. */
  function FragmentWires(fragments: seq<BitchatPacket>): seq<Bytes>
    requires forall f :: f in fragments ==> f.Valid()
  {
    seq(|fragments|, i requires 0 <= i < |fragments| => EncodeUnpadded(fragments[i]))
  }

  /** What `send_packet` writes to the connection, in order. */
  function Wires(p: BitchatPacket, addPadding: bool, noise: Bytes, stamp: FragmentStamp): Result<seq<Bytes>, SendError>
    requires p.Valid() && NoiseFits(p, addPadding, noise)
  {
    var encoded := Encode(p, addPadding, noise);
    if !ShouldFragment(encoded) then Success([encoded])
    else match Fragments(encoded, stamp)
    case Failure(e) => Failure(CannotFragment(e))
    case Success(fragments) =>
      assert forall f :: f in fragments ==> f.Valid() by {
        EncodedWireSize(p, addPadding, noise);
        FragmentsWithinLimits(encoded, stamp);
      }
      Success(FragmentWires(fragments))
  }

  /** A packet goes out as a single wire exactly if its encoding has at most 500 bytes, and as it is. */
  lemma OneWireExactly(p: BitchatPacket, addPadding: bool, noise: Bytes, stamp: FragmentStamp)
    requires p.Valid() && NoiseFits(p, addPadding, noise)
    ensures var r, encoded := Wires(p, addPadding, noise, stamp), Encode(p, addPadding, noise);
            && (r == Success([encoded]) <==> |encoded| <= 500)
            && (r.Success? && |encoded| > 500 ==> 4 <= |r.value| <= 438)
  {
    var encoded := Encode(p, addPadding, noise);
    EncodedWireSize(p, addPadding, noise);
    FragmentedExactly(encoded, stamp);
    assert forall wires: seq<Bytes> :: |wires| >= 2 ==> wires != [encoded];
  }

  /** `_process_raw_bytes`: the table afterwards and the packets dispatched. */
  function Receive(t: Table, limits: Limits, raw: Bytes, now: real): (Table, seq<BitchatPacket>) {
    match DecodePacket(raw)
    case Failure(_) => (t, [])
    case Success(packet) =>
      if packet.messageType.IsFragment() then
        var (t', r) := AddPacket(t, limits, packet, now);
        if r.Success? && r.value.Some? then
          match DecodePacket(r.value.value)
          case Success(full) => (t', [full])
          case Failure(_) => (t', [])
        else (t', [])
      else (t, [packet])
  }

  class BLETransport {
    const senderId: Bytes
    const queueMaxSize: int
    const reassembler: FragmentReassembler
    var receiveQueue: seq<Bytes>
    var dispatched: seq<BitchatPacket>  // every call of _dispatch_packet

    ghost predicate Valid()
      reads this, reassembler, reassembler.States()
    {
      |senderId| == SENDER_ID_SIZE && reassembler.Valid()
    }

    constructor (senderId: Bytes, queueMaxSize: int, limits: Limits)
      requires |senderId| == SENDER_ID_SIZE
      ensures Valid() && fresh(reassembler)
      ensures this.senderId == senderId && this.queueMaxSize == queueMaxSize
      ensures reassembler.contents == EMPTY && reassembler.limits == limits && receiveQueue == [] && dispatched == []
    {
      this.senderId, this.queueMaxSize := senderId, queueMaxSize;
      receiveQueue, dispatched := [], [];
      reassembler := new FragmentReassembler(limits);
    }

    /** `_handle_incoming_notification`: a full queue drops the bytes (a bound below 1 means no bound). */
    method HandleIncomingNotification(raw: Bytes)
      modifies this`receiveQueue
      ensures receiveQueue ==
              if 0 < queueMaxSize <= old(|receiveQueue|) then old(receiveQueue) else old(receiveQueue) + [raw]
    {
      if queueMaxSize <= 0 || |receiveQueue| < queueMaxSize {
        receiveQueue := receiveQueue + [raw];
      }
    }

    /** One turn of the receive worker. */
    method ReceiveNext(now: real)
      requires Valid() && receiveQueue != []
      modifies this, reassembler, reassembler.States()
      ensures Valid() && fresh(reassembler.States() - old(reassembler.States()))
      ensures receiveQueue == old(receiveQueue)[1..]
      ensures var (t, out) := Receive(old(reassembler.contents), reassembler.limits, old(receiveQueue)[0], now);
              reassembler.contents == t && dispatched == old(dispatched) + out
    {
      var raw := receiveQueue[0];
      receiveQueue := receiveQueue[1..];
      ProcessRawBytes(raw, now);
    }

    method ProcessRawBytes(raw: Bytes, now: real)
      requires Valid()
      modifies this`dispatched, reassembler, reassembler.States()
      ensures Valid() && fresh(reassembler.States() - old(reassembler.States()))
      ensures var (t, out) := Receive(old(reassembler.contents), reassembler.limits, raw, now);
              reassembler.contents == t && dispatched == old(dispatched) + out
    {
      var decoded := DecodePacket(raw);
      if decoded.Failure? {
        return;
      }
      if decoded.value.messageType.IsFragment() {
        var r := reassembler.AddFragmentPacket(decoded.value, now);
        if r.Failure? {
          return;
        }
        if r.value.Some? {
          var full := DecodePacket(r.value.value);
          if full.Success? {
            dispatched := dispatched + [full.value];
          }
        }
      } else {
        dispatched := dispatched + [decoded.value];
      }
    }

    /** `send_packet`; `fragmentId` and `timestamp` stand for the random id and the clock. */
    method SendPacket(p: BitchatPacket, addPadding: bool, noise: Bytes, fragmentId: Bytes, timestamp: int, ready: bool)
      returns (r: Result<seq<Bytes>, SendError>)
      requires Valid() && p.Valid() && NoiseFits(p, addPadding, noise)
      ensures r == if ready then Wires(p, addPadding, noise, StampFor(p, senderId, fragmentId, timestamp))
                   else Failure(NotReady)
    {
      if !ready {
        return Failure(NotReady);
      }
      var encoded := EncodePacket(p, addPadding, noise);
      if !ShouldFragment(encoded) {
        return Success([encoded]);
      }
      var stamp := StampFor(p, senderId, fragmentId, timestamp);
      var fragments := FragmentEncodedPacket(encoded, stamp);
      if fragments.Failure? {
        return Failure(CannotFragment(fragments.error));
      }
      assert forall f :: f in fragments.value ==> f.Valid() by {
        EncodedWireSize(p, addPadding, noise);
        FragmentsWithinLimits(encoded, stamp);
      }
      var written := EncodeFragments(fragments.value);
      return Success(written);
    }
  }

  /** The loop that encodes the fragments one by one, without padding. */
  method EncodeFragments(fragments: seq<BitchatPacket>) returns (written: seq<Bytes>)
    requires forall f :: f in fragments ==> f.Valid()
    ensures written == FragmentWires(fragments)
  {
    written := [];
    for i := 0 to |fragments|
      invariant written == FragmentWires(fragments)[..i]
    {
      var wire := EncodePacket(fragments[i], false, []);
      written := written + [wire];
    }
  }
}
