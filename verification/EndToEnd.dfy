/** End-to-end delivery over BLE: what is sent is dispatched, exactly once, in spite of reordering, repetition and
    other traffic through the same reassembler. */
module EndToEnd {
  import opened Wrappers
  import opened ByteStrings
  import opened Lists
  import opened OrderedDicts
  import opened Packets
  import opened Encoder
  import opened Decoder
  import opened Fragmentation
  import opened Reassembly
  import opened ReassemblyProperties
  import opened BleTransport

  /** What reaches the receiver: one of the wires of the packet followed here, or anything else. */
  datatype Event = Ours(index: nat, now: real) | Other(raw: Bytes, now: real)

  /** The chunks of a message that are at the receiver. */
  function Partial(chunks: seq<Bytes>, got: set<int>): map<int, Bytes>
    requires forall i :: i in got ==> 0 <= i < |chunks|
  {
    map i | i in got :: chunks[i]
  }

  /** The message being followed: its chunks and where they are collected. */
  datatype Transfer = Transfer(encoded: Bytes, stamp: FragmentStamp) {
    predicate Valid() {
      ShouldFragment(encoded) && |encoded| <= 65629 && stamp.Valid()
    }

    function ChunkSeq(): seq<Bytes> {
      Chunks(encoded, FRAGMENT_CHUNK_SIZE)
    }

    function Key(): AssemblyKey {
      AssemblyKey(stamp.senderId, stamp.fragmentId)
    }

    function Wire(i: nat): Bytes
      requires Valid() && i < |ChunkSeq()|
    {
      FragmentsWithinLimits(encoded, stamp);
      EncodeUnpadded(FragmentPacket(stamp, ChunkSeq(), i))
    }

    function ChunkInput(i: nat, now: real): Input
      requires i < |ChunkSeq()|
    {
      Input(Key(), i, |ChunkSeq()|, stamp.originalType, ChunkSeq()[i], now)
    }
  }

  /** The keys under which the receiver files `raw`: none or one. */
  function AddressedKeys(raw: Bytes): set<AssemblyKey> {
    match DecodePacket(raw)
    case Failure(_) => {}
    case Success(p) =>
      if p.messageType.IsFragment() && ParseFragmentPayload(p.payload).Success?
      then {AssemblyKey(p.senderId, ParseFragmentPayload(p.payload).value.fragmentId)}
      else {}
  }

  function OtherKeys(events: seq<Event>): set<AssemblyKey> {
    if events == [] then {}
    else (if events[0].Other? then AddressedKeys(events[0].raw) else {}) + OtherKeys(events[1..])
  }

  /** The events bring every one of the `n` wires, in any order and with any repeats up to the moment the last
      missing one comes. */
  predicate Brings(events: seq<Event>, got: set<int>, n: nat) {
    if events == [] then got == Indices(n)
    else if events[0].Ours? then
      events[0].index < n && got != Indices(n) && Brings(events[1..], got + {events[0].index}, n)
    else Brings(events[1..], got, n)
  }

  function RawOf(m: Transfer, e: Event): Bytes
    requires m.Valid() && (e.Ours? ==> e.index < |m.ChunkSeq()|)
  {
    if e.Ours? then m.Wire(e.index) else e.raw
  }

  predicate InRange(m: Transfer, events: seq<Event>) {
    forall e :: e in events && e.Ours? ==> e.index < |m.ChunkSeq()|
  }

  /** The packets that the receiver dispatches on our wires, and its final table. */
  function Deliver(t: Table, limits: Limits, m: Transfer, events: seq<Event>): (Table, seq<BitchatPacket>)
    requires m.Valid() && InRange(m, events)
    decreases events
  {
    if events == [] then (t, [])
    else
      var (t', out) := Receive(t, limits, RawOf(m, events[0]), events[0].now);
      var (final, rest) := Deliver(t', limits, m, events[1..]);
      (final, (if events[0].Ours? then out else []) + rest)
  }

  /** The receiver holds exactly the chunks `got` of the message. */
  ghost predicate Holds(t: Table, m: Transfer, got: set<int>) {
    var n := |m.ChunkSeq()|;
    && (forall i :: i in got ==> 0 <= i < n)
    && if got == {} || got == Indices(n) then m.Key() !in t.vals
       else
         && m.Key() in t.vals
         && t.vals[m.Key()].total == n && t.vals[m.Key()].originalType == m.stamp.originalType
         && t.vals[m.Key()].chunks == Partial(m.ChunkSeq(), got)
  }

  ghost predicate Roomy(limits: Limits) {
    limits.maxActive >= 1 && limits.maxFragments >= 438 && limits.maxBytes >= 65629
  }

  // ---- one of our wires arrives ----

  /** A wire of the message reaches the table as the chunk it carries. */
  lemma WireIsChunk(t: Table, limits: Limits, m: Transfer, i: nat, now: real)
    requires m.Valid() && i < |m.ChunkSeq()|
    ensures var (t', r) := Insert(t, limits, m.ChunkInput(i, now));
            Receive(t, limits, m.Wire(i), now)
            == (t', if r.Success? && r.value.Some? && DecodePacket(r.value.value).Success?
                    then [DecodePacket(r.value.value).value] else [])
  {
    FragmentsWithinLimits(m.encoded, m.stamp);
    FragmentOnTheWire(m.encoded, m.stamp, i);
    var f := FragmentPacket(m.stamp, m.ChunkSeq(), i);
    assert AddPacket(t, limits, f, now) == Insert(t, limits, m.ChunkInput(i, now));
  }

  lemma {:induction false} PartialLengths(chunks: seq<Bytes>, got: set<int>, n: nat)
    requires n <= |chunks| && forall i :: i in got ==> 0 <= i < |chunks|
    ensures Lengths(Partial(chunks, got), n) <= |Concat(chunks[..n])|
  {
    if n > 0 {
      PartialLengths(chunks, got, n - 1);
      assert chunks[..n] == chunks[..n - 1] + [chunks[n - 1]];
      ConcatAppend(chunks[..n - 1], chunks[n - 1]);
    }
  }

  lemma PartialFits(m: Transfer, got: set<int>)
    requires m.Valid() && forall i :: i in got ==> 0 <= i < |m.ChunkSeq()|
    ensures Lengths(Partial(m.ChunkSeq(), got), |m.ChunkSeq()|) <= |m.encoded|
  {
    var chunks := m.ChunkSeq();
    PartialLengths(chunks, got, |chunks|);
    assert chunks[..|chunks|] == chunks;
    ChunksJoin(m.encoded, FRAGMENT_CHUNK_SIZE);
  }

  lemma PartialSize(chunks: seq<Bytes>, got: set<int>)
    requires forall i :: i in got ==> 0 <= i < |chunks|
    ensures |Partial(chunks, got)| == |got|
  {
    assert Partial(chunks, got).Keys == got;
  }

  lemma {:induction false} FullJoin(chunks: seq<Bytes>, c: map<int, Bytes>, n: nat)
    requires n <= |chunks| && forall i :: 0 <= i < n ==> i in c && c[i] == chunks[i]
    ensures AllPresent(c, n) && Joined(c, n) == Concat(chunks[..n])
  {
    if n > 0 {
      FullJoin(chunks, c, n - 1);
      assert chunks[..n] == chunks[..n - 1] + [chunks[n - 1]];
      ConcatAppend(chunks[..n - 1], chunks[n - 1]);
    }
  }

  /** Adding chunk `i` to a table that holds `got` under the key. */
  lemma StoreOurs(t: Table, limits: Limits, m: Transfer, got: set<int>, i: nat, now: real)
    requires m.Valid() && Roomy(limits) && i < |m.ChunkSeq()| && i !in got
    requires forall j :: j in got ==> 0 <= j < |m.ChunkSeq()|
    requires m.Key() in t.vals
    requires var a := t.vals[m.Key()];
             && a.total == |m.ChunkSeq()| && a.originalType == m.stamp.originalType
             && a.chunks == Partial(m.ChunkSeq(), got) && a.totalBytes == Lengths(a.chunks, a.total)
    ensures var (t', r) := Store(t, limits, m.ChunkInput(i, now));
            && Holds(t', m, got + {i})
            && r == Success(if got + {i} == Indices(|m.ChunkSeq()|) then Some(m.encoded) else None)
  {
    var chunks, x, got' := m.ChunkSeq(), m.ChunkInput(i, now), got + {i};
    var n, a := |chunks|, t.vals[m.Key()];
    LengthsAdd(a.chunks, i, chunks[i], n);
    assert a.chunks[i := chunks[i]] == Partial(chunks, got');
    PartialFits(m, got');
    PartialSize(chunks, got');
    MissingIndexUnreachable(Partial(chunks, got'), n);
    var all := Indices(n);
    IndicesSize(n);
    assert IsRange(all, n);
    SubsetSize(got', all);
    if got' == all {
      FullJoin(chunks, Partial(chunks, got'), n);
      assert chunks[..n] == chunks;
      ChunksJoin(m.encoded, FRAGMENT_CHUNK_SIZE);
    }
  }

  /** What one of our wires does to a receiver that holds `got`. */
  lemma ReceiveOurs(t: Table, limits: Limits, m: Transfer, got: set<int>, i: nat, now: real)
    requires m.Valid() && Roomy(limits) && TableInv(t, limits) && Holds(t, m, got)
    requires i < |m.ChunkSeq()| && got != Indices(|m.ChunkSeq()|)
    ensures var (t', out) := Receive(t, limits, m.Wire(i), now);
            && TableInv(t', limits) && Holds(t', m, got + {i})
            && (m.Key() in t'.vals ==> After(t'.keys, m.Key()) == {})
            && out == if got + {i} == Indices(|m.ChunkSeq()|) && DecodePacket(m.encoded).Success?
                      then [DecodePacket(m.encoded).value] else []
  {
    var x := m.ChunkInput(i, now);
    FragmentsWithinLimits(m.encoded, m.stamp);
    WireIsChunk(t, limits, m, i, now);
    InsertKeepsInvariant(t, limits, x);
    if got == {} {
      FirstOfOurs(t, limits, m, i, now);
    } else if i in got {
      RepeatOfOurs(t, limits, m, got, i, now);
    } else {
      NextOfOurs(t, limits, m, got, i, now);
    }
  }

  lemma FirstOfOurs(t: Table, limits: Limits, m: Transfer, i: nat, now: real)
    requires m.Valid() && Roomy(limits) && TableInv(t, limits) && m.Key() !in t.vals
    requires i < |m.ChunkSeq()| && 4 <= |m.ChunkSeq()| <= 438
    ensures var (t', r) := Insert(t, limits, m.ChunkInput(i, now));
            && Holds(t', m, {i}) && r == Success(None) && {i} != Indices(|m.ChunkSeq()|)
            && (m.Key() in t'.vals ==> After(t'.keys, m.Key()) == {})
  {
    var x := m.ChunkInput(i, now);
    var room := MakeRoom(t, limits);
    MakeRoomKeepsInvariant(t, limits);
    var started := room.Put(x.key, NewAssembly(x));
    LengthsOfNothing(|m.ChunkSeq()|);
    assert NewAssembly(x).chunks == Partial(m.ChunkSeq(), {});
    StoreOurs(started, limits, m, {}, i, now);
    assert {} + {i} == {i};
    IndicesSize(|m.ChunkSeq()|);
    AfterFreshKey(room.keys, x.key);
  }

  lemma {:induction false} AfterFreshKey<K>(keys: seq<K>, k: K)
    requires k !in keys
    ensures After(keys + [k], k) == {}
  {
    AfterAppend(keys, k, k);
  }

  lemma RepeatOfOurs(t: Table, limits: Limits, m: Transfer, got: set<int>, i: nat, now: real)
    requires m.Valid() && Roomy(limits) && TableInv(t, limits) && Holds(t, m, got)
    requires |m.ChunkSeq()| <= 438 && i in got && i < |m.ChunkSeq()| && got != Indices(|m.ChunkSeq()|)
    ensures var (t', r) := Insert(t, limits, m.ChunkInput(i, now));
            && Holds(t', m, got) && got + {i} == got && r == Success(None)
            && After(t'.keys, m.Key()) == {}
  {
    assert got + {i} == got;
    WithoutMembers(t.keys, m.Key());
    AfterFreshKey(Without(t.keys, m.Key()), m.Key());
  }

  lemma NextOfOurs(t: Table, limits: Limits, m: Transfer, got: set<int>, i: nat, now: real)
    requires m.Valid() && Roomy(limits) && TableInv(t, limits) && Holds(t, m, got)
    requires |m.ChunkSeq()| <= 438 && got != {} && i !in got && i < |m.ChunkSeq()| && got != Indices(|m.ChunkSeq()|)
    ensures var (t', r) := Insert(t, limits, m.ChunkInput(i, now));
            && Holds(t', m, got + {i})
            && r == Success(if got + {i} == Indices(|m.ChunkSeq()|) then Some(m.encoded) else None)
            && (m.Key() in t'.vals ==> After(t'.keys, m.Key()) == {})
  {
    var moved := t.MoveToEnd(m.Key());
    StoreOurs(moved, limits, m, got, i, now);
    WithoutMembers(t.keys, m.Key());
    AfterFreshKey(Without(t.keys, m.Key()), m.Key());
    assert Store(moved, limits, m.ChunkInput(i, now)).0.keys in {moved.keys, Without(moved.keys, m.Key())};
  }

  // ---- other traffic ----

  /** What anything else does to a receiver that holds `got`, as long as it cannot fill the table. */
  lemma ReceiveOther(
      t: Table, limits: Limits, m: Transfer, got: set<int>, raw: Bytes, now: real, touched: set<AssemblyKey>)
    requires TableInv(t, limits) && Holds(t, m, got)
    requires m.Key() in t.vals ==> After(t.keys, m.Key()) <= touched
    requires m.Key() !in AddressedKeys(raw) && |touched + AddressedKeys(raw)| < limits.maxActive
    ensures var t' := Receive(t, limits, raw, now).0;
            && TableInv(t', limits) && Holds(t', m, got)
            && (m.Key() in t'.vals ==> After(t'.keys, m.Key()) <= touched + AddressedKeys(raw))
  {
    var decoded := DecodePacket(raw);
    if decoded.Success? && decoded.value.messageType.IsFragment()
       && ParseFragmentPayload(decoded.value.payload).Success? {
      var p := decoded.value;
      var x := PacketInput(p.senderId, ParseFragmentPayload(p.payload).value, now);
      var k := m.Key();
      assert AddressedKeys(raw) == {x.key};
      assert AddPacket(t, limits, p, now).0 in {t, Insert(t, limits, x).0};
      InsertKeepsInvariant(t, limits, x);
      if k in t.vals {
        InsertIsolated(t, limits, x, k);
        if k !in Insert(t, limits, x).0.vals {
          SubsetSize(After(t.keys, k) + {x.key}, touched + AddressedKeys(raw));
          assert false;
        }
      } else {
        InsertAddsOnlyItsKey(t, limits, x, k);
      }
    }
  }

  lemma InsertAddsOnlyItsKey(t: Table, limits: Limits, x: Input, k: AssemblyKey)
    requires k !in t.vals && k != x.key
    ensures k !in Insert(t, limits, x).0.vals
  {
    if x.total <= 0 || !(0 <= x.index < x.total) || x.total > limits.maxFragments {
    } else if x.key in t.vals {
      StoreAddsNoKey(t.MoveToEnd(x.key), limits, x, k);
    } else if |t.keys| < limits.maxActive || t.keys != [] {
      StoreAddsNoKey(MakeRoom(t, limits).Put(x.key, NewAssembly(x)), limits, x, k);
    }
  }

  lemma StoreAddsNoKey(t: Table, limits: Limits, x: Input, k: AssemblyKey)
    requires x.key in t.vals && k !in t.vals
    ensures k !in Store(t, limits, x).0.vals
  {}

  // ---- main results ----

  /** By induction over the events: from a receiver that holds `got`, one dispatch of the packet is still due,
      unless all chunks are in. */
  lemma {:induction false} DeliverFrom(
      t: Table, limits: Limits, m: Transfer, got: set<int>, events: seq<Event>, touched: set<AssemblyKey>)
    requires m.Valid() && InRange(m, events) && Roomy(limits) && TableInv(t, limits) && Holds(t, m, got)
    requires DecodePacket(m.encoded).Success?
    requires m.Key() in t.vals ==> After(t.keys, m.Key()) <= touched
    requires Brings(events, got, |m.ChunkSeq()|)
    requires m.Key() !in OtherKeys(events) && |touched + OtherKeys(events)| < limits.maxActive
    ensures var (t', out) := Deliver(t, limits, m, events);
            && m.Key() !in t'.vals
            && out == if got == Indices(|m.ChunkSeq()|) then [] else [DecodePacket(m.encoded).value]
    decreases events
  {
    var n := |m.ChunkSeq()|;
    if events == [] {
      NothingHeldAtTheEnd(t, m, got);
    } else {
      var e, rest := events[0], events[1..];
      var t' := Receive(t, limits, RawOf(m, e), e.now).0;
      if e.Ours? {
        ReceiveOurs(t, limits, m, got, e.index, e.now);
        DeliverFrom(t', limits, m, got + {e.index}, rest, touched);
      } else {
        OtherKeysFirst(events, touched);
        ReceiveOther(t, limits, m, got, e.raw, e.now, touched);
        DeliverFrom(t', limits, m, got, rest, touched + AddressedKeys(e.raw));
      }
    }
  }

  lemma OtherKeysFirst(events: seq<Event>, touched: set<AssemblyKey>)
    requires events != [] && events[0].Other?
    ensures var first := AddressedKeys(events[0].raw);
            && first <= OtherKeys(events)
            && touched + first + OtherKeys(events[1..]) == touched + OtherKeys(events)
            && |touched + first| <= |touched + OtherKeys(events)|
  {
    SubsetSize(touched + AddressedKeys(events[0].raw), touched + OtherKeys(events));
  }

  lemma NothingHeldAtTheEnd(t: Table, m: Transfer, got: set<int>)
    requires Holds(t, m, got) && got == Indices(|m.ChunkSeq()|)
    ensures m.Key() !in t.vals
  {}

  /** End-to-end delivery of a fragmented packet: for every valid version-1 packet too large for one wire, every
      padding, and every order of arrival of its wires, with repeats before completion and with other traffic under
      fewer than `maxActive` other keys in between, the receiver dispatches exactly that packet, exactly once. */
  lemma EndToEndDelivery(p: BitchatPacket, addPadding: bool, noise: Bytes, stamp: FragmentStamp,
                         t: Table, limits: Limits, events: seq<Event>)
    requires p.Valid() && p.version == CURRENT_PROTOCOL_VERSION && NoiseFits(p, addPadding, noise)
    requires stamp.Valid() && ShouldFragment(Encode(p, addPadding, noise))
    requires TableInv(t, limits) && Roomy(limits)
    requires AssemblyKey(stamp.senderId, stamp.fragmentId) !in t.vals
    requires var m := Transfer(Encode(p, addPadding, noise), stamp);
             && Brings(events, {}, |m.ChunkSeq()|)
             && m.Key() !in OtherKeys(events) && |OtherKeys(events)| < limits.maxActive
    ensures var m := Transfer(Encode(p, addPadding, noise), stamp);
            && m.Valid() && InRange(m, events)
            && Wires(p, addPadding, noise, stamp)
               == Success(seq(|m.ChunkSeq()|, i requires 0 <= i < |m.ChunkSeq()| => m.Wire(i)))
            && 4 <= |m.ChunkSeq()| <= 438
            && Deliver(t, limits, m, events).1 == [p]
            && m.Key() !in Deliver(t, limits, m, events).0.vals
  {
    var m := Transfer(Encode(p, addPadding, noise), stamp);
    WiresOfTransfer(p, addPadding, noise, stamp);
    DecodeEncode(p, addPadding, noise);
    BringsInRange(m, events, {});
    assert {} + OtherKeys(events) == OtherKeys(events);
    NotEmptyRange(|m.ChunkSeq()|);
    DeliverFrom(t, limits, m, {}, events, {});
  }

  /** The wires of a packet are those of the transfer that is followed. */
  lemma WiresOfTransfer(p: BitchatPacket, addPadding: bool, noise: Bytes, stamp: FragmentStamp)
    requires p.Valid() && NoiseFits(p, addPadding, noise)
    requires stamp.Valid() && ShouldFragment(Encode(p, addPadding, noise))
    ensures var m := Transfer(Encode(p, addPadding, noise), stamp);
            && m.Valid() && 4 <= |m.ChunkSeq()| <= 438
            && Wires(p, addPadding, noise, stamp)
               == Success(seq(|m.ChunkSeq()|, i requires 0 <= i < |m.ChunkSeq()| => m.Wire(i)))
  {
    var encoded := Encode(p, addPadding, noise);
    var m := Transfer(encoded, stamp);
    EncodedWireSize(p, addPadding, noise);
    FragmentsWithinLimits(encoded, stamp);
    assert FragmentWires(FragmentPackets(stamp, m.ChunkSeq()))
        == seq(|m.ChunkSeq()|, i requires 0 <= i < |m.ChunkSeq()| => m.Wire(i));
  }

  lemma NotEmptyRange(n: nat)
    requires n > 0
    ensures Indices(n) != {}
  {
    IndicesSize(n);
  }

  lemma {:induction false} BringsInRange(m: Transfer, events: seq<Event>, got: set<int>)
    requires Brings(events, got, |m.ChunkSeq()|)
    ensures InRange(m, events)
  {
    if events != [] {
      BringsInRange(m, events[1..], if events[0].Ours? then got + {events[0].index} else got);
      assert forall e :: e in events ==> e == events[0] || e in events[1..];
    }
  }
}
