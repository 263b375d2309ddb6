/** Delivery over BLE of a packet that fits in one wire, and what becomes of one whose type the receiver takes for a
    fragment (src/bitchat/ble/transport.py). */
module SmallPackets {
  import opened Wrappers
  import opened ByteStrings
  import opened OrderedDicts
  import opened Packets
  import opened Encoder
  import opened Decoder
  import opened Fragmentation
  import opened Reassembly
  import opened ReassemblyProperties
  import opened BleTransport

  // ---- when a fragment completes an assembly ----

  /** The packet type agrees with the place that the payload claims. */
  predicate PlaceAgrees(messageType: MessageType, f: FragmentInfo) {
    && (f.index == 0 ==> messageType.FragmentStart?)
    && (f.index == f.total - 1 ==> messageType.FragmentEnd?)
    && (0 < f.index < f.total - 1 ==> messageType.FragmentContinue?)
  }

  /** The table holds an assembly of the same message in which just this chunk is missing, and there is room for it. */
  ghost predicate Completes(t: Table, limits: Limits, x: Input) {
    && x.key in t.vals
    && var a := t.vals[x.key];
       && a.total == x.total && a.originalType == x.originalType && a.totalBytes + |x.chunk| <= limits.maxBytes
       && (forall i :: 0 <= i < x.total ==> (i in a.chunks <==> i != x.index))
  }

  function CompletedChunks(t: Table, x: Input): map<int, Bytes>
    requires x.key in t.vals
  {
    t.vals[x.key].chunks[x.index := x.chunk]
  }

  /** Bytes are handed back just when the last chunk of an assembly with at least two comes in, and they are its chunks
      joined. */
  lemma InsertCompletes(t: Table, limits: Limits, x: Input)
    requires TableInv(t, limits) && 0 <= x.index < x.total && x.total >= 2
    ensures var r := Insert(t, limits, x).1;
            if Completes(t, limits, x)
            then
              && AllPresent(CompletedChunks(t, x), x.total)
              && r == Success(Some(Joined(CompletedChunks(t, x), x.total)))
            else r.Failure? || r == Success(None)
  {
    if x.total > limits.maxFragments {
    } else if x.key in t.vals {
      ExtendCompletes(t, limits, x);
    } else if |t.keys| >= limits.maxActive && t.keys == [] {
    } else {
      StartCompletesNothing(MakeRoom(t, limits), limits, x);
    }
  }

  lemma StartCompletesNothing(room: Table, limits: Limits, x: Input)
    requires x.total >= 2
    ensures var r := Store(room.Put(x.key, NewAssembly(x)), limits, x).1; r.Failure? || r == Success(None)
  {
    var chunks := map[][x.index := x.chunk];
    assert chunks.Keys == {x.index};
  }

  lemma ExtendCompletes(t: Table, limits: Limits, x: Input)
    requires TableInv(t, limits) && 0 <= x.index < x.total <= limits.maxFragments && x.key in t.vals
    ensures var r := Insert(t, limits, x).1;
            if Completes(t, limits, x)
            then
              && AllPresent(CompletedChunks(t, x), x.total)
              && r == Success(Some(Joined(CompletedChunks(t, x), x.total)))
            else r.Failure? || r == Success(None)
  {
    var a := t.vals[x.key];
    if a.total == x.total && a.originalType == x.originalType && x.index !in a.chunks {
      var chunks := CompletedChunks(t, x);
      MissingIndexUnreachable(chunks, x.total);
      if AllPresent(chunks, x.total) {
        forall i | 0 <= i < x.total ensures i in a.chunks <==> i != x.index {
          assert i in chunks;
        }
      }
    }
  }

  // ---- main result ----

  /** The packet is the last fragment missing of a message that the table holds, and that message is the packet
      itself. */
  ghost predicate CompletesItself(t: Table, limits: Limits, p: BitchatPacket, now: real) {
    && ParseFragmentPayload(p.payload).Success?
    && var f := ParseFragmentPayload(p.payload).value;
       var x := PacketInput(p.senderId, f, now);
       && PlaceAgrees(p.messageType, f) && Completes(t, limits, x)
       && AllPresent(CompletedChunks(t, x), x.total) && IsWireFormOf(Joined(CompletedChunks(t, x), x.total), p)
  }

  lemma FragmentDispatched(t: Table, limits: Limits, p: BitchatPacket, now: real)
    requires TableInv(t, limits) && p.messageType.IsFragment()
    ensures var r := AddPacket(t, limits, p, now).1;
            r.Success? && r.value.Some? && DecodePacket(r.value.value) == Success(p) <==>
              CompletesItself(t, limits, p, now)
  {
    if ParseFragmentPayload(p.payload).Success? {
      var f := ParseFragmentPayload(p.payload).value;
      var x := PacketInput(p.senderId, f, now);
      if PlaceAgrees(p.messageType, f) {
        InsertCompletes(t, limits, x);
        if Completes(t, limits, x) {
          DecodeExact(Joined(CompletedChunks(t, x), x.total), p);
        }
      }
    }
  }

  /** A packet that fits in one wire goes out as that wire. Unless its type is one that the receiver takes for a
      fragment, it is dispatched at once, and only it, whatever the table holds; otherwise it is dispatched exactly if
      it completes an assembly in the table whose chunks, joined, are a wire form of the packet itself. */
  lemma SmallPacketDelivery(p: BitchatPacket, addPadding: bool, noise: Bytes, stamp: FragmentStamp,
                            t: Table, limits: Limits, now: real)
    requires p.Valid() && p.version == CURRENT_PROTOCOL_VERSION && NoiseFits(p, addPadding, noise)
    requires !ShouldFragment(Encode(p, addPadding, noise)) && TableInv(t, limits)
    ensures var wire := Encode(p, addPadding, noise);
            && Wires(p, addPadding, noise, stamp) == Success([wire])
            && if p.messageType.IsFragment()
               then Receive(t, limits, wire, now).1 == [p] <==> CompletesItself(t, limits, p, now)
               else Receive(t, limits, wire, now) == (t, [p])
  {
    DecodeEncode(p, addPadding, noise);
    if p.messageType.IsFragment() {
      FragmentDispatched(t, limits, p, now);
    }
  }

  // ---- a packet of a fragment type that is dispatched ----

  const SENDER: Bytes := [1, 1, 1, 1, 1, 1, 1, 1]
  const FRAGMENT_ID: Bytes := [2, 2, 2, 2, 2, 2, 2, 2]

  function Fragment(messageType: MessageType, index: nat, chunk: Bytes): BitchatPacket
    requires index < 2
  {
    BitchatPacket(1, messageType, DEFAULT_TTL, 0, 0, SENDER, None,
                  FragmentBytes(FragmentInfo(FRAGMENT_ID, index, 2, Message.Code(), chunk)), None)
  }

  /** The second of two fragments, with one byte in it: 36 bytes on the wire, that one last. */
  function Last(b: Byte): BitchatPacket {
    Fragment(FragmentEnd, 1, [b])
  }

  /** The first of the two, with all the other bytes of that wire in it. */
  function First(b: Byte): BitchatPacket
    requires Last(b).Valid() && |EncodeUnpadded(Last(b))| == 36
  {
    Fragment(FragmentStart, 0, EncodeUnpadded(Last(b))[..35])
  }

  lemma FragmentReceived(t: Table, limits: Limits, messageType: MessageType, index: nat, chunk: Bytes, now: real)
    requires index < 2 && |chunk| <= 100 && messageType == (if index == 0 then FragmentStart else FragmentEnd)
    ensures var p := Fragment(messageType, index, chunk);
            var x := PacketInput(SENDER, FragmentInfo(FRAGMENT_ID, index, 2, Message.Code(), chunk), now);
            && p.Valid() && |EncodeUnpadded(p)| == 35 + |chunk|
            && ParseFragmentPayload(p.payload) == Success(FragmentInfo(FRAGMENT_ID, index, 2, Message.Code(), chunk))
            && DecodePacket(EncodeUnpadded(p)) == Success(p)
            && Receive(t, limits, EncodeUnpadded(p), now).0 == Insert(t, limits, x).0
  {
    var p := Fragment(messageType, index, chunk);
    FragmentPayloadRoundTrip(FragmentInfo(FRAGMENT_ID, index, 2, Message.Code(), chunk), p.payload);
    assert Encode(p, false, []) == EncodeUnpadded(p);
    DecodeEncode(p, false, []);
  }

  /** What the table holds after the first fragment. */
  lemma FirstReceived(chunk: Bytes, now: real)
    requires 0 < |chunk| <= 100
    ensures var x := PacketInput(SENDER, FragmentInfo(FRAGMENT_ID, 0, 2, Message.Code(), chunk), now);
            var t := Insert(EMPTY, DEFAULT_LIMITS, x).0;
            && TableInv(t, DEFAULT_LIMITS) && x.key in t.vals
            && t.vals[x.key] == Assembly(2, Message.Code(), map[0 := chunk], now, |chunk|)
  {
    var x := PacketInput(SENDER, FragmentInfo(FRAGMENT_ID, 0, 2, Message.Code(), chunk), now);
    InsertKeepsInvariant(EMPTY, DEFAULT_LIMITS, x);
    var chunks := map[][x.index := x.chunk];
    assert chunks.Keys == {x.index};
    assert chunks == map[0 := chunk];
  }

  lemma SecondOfTwo(t: Table, limits: Limits, x: Input, first: Bytes)
    requires x.key in t.vals && x.index == 1 && x.total == 2
    requires t.vals[x.key].total == 2 && t.vals[x.key].originalType == x.originalType
    requires t.vals[x.key].chunks == map[0 := first] && t.vals[x.key].totalBytes + |x.chunk| <= limits.maxBytes
    ensures Completes(t, limits, x) && AllPresent(CompletedChunks(t, x), 2)
    ensures Joined(CompletedChunks(t, x), 2) == first + x.chunk
  {
    assert Joined(CompletedChunks(t, x), 1) == [] + first;
  }

  lemma WireFormOfItself(p: BitchatPacket)
    requires p.Valid() && p.version == CURRENT_PROTOCOL_VERSION
    ensures IsWireFormOf(EncodeUnpadded(p), p)
  {}

  lemma LastOnTheWire(b: Byte)
    ensures Last(b).Valid() && |EncodeUnpadded(Last(b))| == 36
    ensures EncodeUnpadded(Last(b)) == EncodeUnpadded(Last(b))[..35] + [b]
  {
    FragmentReceived(EMPTY, DEFAULT_LIMITS, FragmentEnd, 1, [b], 0.0);
  }

  lemma LastCompletesItself(t: Table, b: Byte, before: real, now: real)
    requires Last(b).Valid() && |EncodeUnpadded(Last(b))| == 36
    requires TableInv(t, DEFAULT_LIMITS) && AssemblyKey(SENDER, FRAGMENT_ID) in t.vals
    requires t.vals[AssemblyKey(SENDER, FRAGMENT_ID)]
             == Assembly(2, Message.Code(), map[0 := EncodeUnpadded(Last(b))[..35]], before, 35)
    ensures CompletesItself(t, DEFAULT_LIMITS, Last(b), now)
  {
    var p := Last(b);
    var x := PacketInput(SENDER, FragmentInfo(FRAGMENT_ID, 1, 2, Message.Code(), [b]), now);
    FragmentReceived(t, DEFAULT_LIMITS, FragmentEnd, 1, [b], now);
    LastOnTheWire(b);
    SecondOfTwo(t, DEFAULT_LIMITS, x, EncodeUnpadded(p)[..35]);
    WireFormOfItself(p);
  }

  /** Two small packets: the second has the type of a fragment and is dispatched, because together with the first it
      makes up its own wire form. */
  lemma FragmentTypeDispatched(b: Byte, before: real, now: real)
    ensures Last(b).Valid() && |EncodeUnpadded(Last(b))| == 36 && First(b).Valid()
    ensures var t := Receive(EMPTY, DEFAULT_LIMITS, EncodeUnpadded(First(b)), before).0;
            TableInv(t, DEFAULT_LIMITS) && Receive(t, DEFAULT_LIMITS, EncodeUnpadded(Last(b)), now).1 == [Last(b)]
  {
    LastOnTheWire(b);
    var chunk := EncodeUnpadded(Last(b))[..35];
    FragmentReceived(EMPTY, DEFAULT_LIMITS, FragmentStart, 0, chunk, before);
    FirstReceived(chunk, before);
    var t := Receive(EMPTY, DEFAULT_LIMITS, EncodeUnpadded(First(b)), before).0;
    LastCompletesItself(t, b, before, now);
    FragmentReceived(t, DEFAULT_LIMITS, FragmentEnd, 1, [b], now);
    FragmentDispatched(t, DEFAULT_LIMITS, Last(b), now);
  }
}
