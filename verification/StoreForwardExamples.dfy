/** Runs that lose a packet, with the default caps and with a cap of one packet
    (src/bitchat/mesh/store_forward.py:15-25, 91-140). */
module StoreForwardExamples {
  import opened Wrappers
  import opened Lists
  import opened OrderedDicts
  import opened Packets
  import opened StoreForward
  import opened StoreForwardProperties
  import opened StoreForwardRuns

  // ---- an enqueue with room to spare ----

  /** No queue is empty, and none has expired packets at its head. */
  ghost predicate AllFresh(s: Store, cfg: Settings, now: real) {
    s.queues.Valid() &&
    forall k :: k in s.queues.vals ==> s.queues.vals[k] != [] && !Expired(cfg, s.queues.vals[k][0], now)
  }

  lemma FreshKeyStays(s: Store, cfg: Settings, k: string, now: real)
    requires k in s.queues.vals && s.queues.vals[k] != [] && !Expired(cfg, s.queues.vals[k][0], now)
    ensures PruneKey(s, cfg, k, now) == Effect(s, [])
  {
    TakeNothing(s, k);
  }

  lemma NothingPrunedNext(s: Store, cfg: Settings, now: real, n: nat)
    requires AllFresh(s, cfg, now) && n < |s.queues.keys| && PruneKeys(s, cfg, now, n) == Effect(s, [])
    ensures PruneKeys(s, cfg, now, n + 1) == Effect(s, [])
  {
    FreshKeyStays(s, cfg, s.queues.keys[n], now);
    PruneKeysStep(s, cfg, now, n);
  }

  lemma {:induction false} NothingPruned(s: Store, cfg: Settings, now: real, n: nat)
    requires AllFresh(s, cfg, now) && n <= |s.queues.keys|
    ensures PruneKeys(s, cfg, now, n) == Effect(s, [])
  {
    if n > 0 {
      NothingPruned(s, cfg, now, n - 1);
      NothingPrunedNext(s, cfg, now, n - 1);
    }
  }

  /** The evictions start from the store as it is, with a queue for the peer. */
  lemma NothingBeforeEvictions(s: Store, cfg: Settings, peer: string, now: real)
    requires AllFresh(s, cfg, now) && |QueueFor(s, peer)| < cfg.maxPerPeer
    ensures BeforeEvictions(s, cfg, peer, now) == WithQueue(s, peer) && !PopsEmpty(s, cfg, peer, now)
  {
    NothingPruned(s, cfg, now, |s.queues.keys|);
    TakeNothing(WithQueue(s, peer), peer);
  }

  /** Below all caps a packet just goes to the end of its queue. */
  lemma PlainEnqueue(s: Store, cfg: Settings, peer: string, packet: BitchatPacket, now: real)
    requires AllFresh(s, cfg, now) && |QueueFor(s, peer)| < cfg.maxPerPeer
    requires s.packets < cfg.maxTotalPackets
    requires Item(packet, now).byteSize <= cfg.maxTotalBytes
    requires s.bytes + Item(packet, now).byteSize <= cfg.maxTotalBytes
    ensures var out := Enqueue(s, cfg, peer, packet, now);
            && out.answer == Accepted && out.lost == []
            && out.store == Append(WithQueue(s, peer), peer, Item(packet, now))
  {
    var size := Item(packet, now).byteSize;
    var t := WithQueue(s, peer);
    NothingBeforeEvictions(s, cfg, peer, now);
    EnqueueEnds(s, cfg, peer, packet, now);
    assert MakeRoom(t, cfg, size).store == t;
  }

  /** The run leads from one store to the other; `n` packets are accepted and these lost. */
  ghost predicate RunsTo(s: Store, cfg: Settings, ops: seq<Op>, t: Store, n: nat, lost: seq<QueuedPacket>) {
    s.queues.Valid() && Run(s, cfg, ops).0 == t && |Run(s, cfg, ops).1.accepted| == n && Run(s, cfg, ops).1.lost == lost
  }

  lemma RunFirst(s: Store, cfg: Settings, op: Op, rest: seq<Op>, t: Store, n: nat, lost: seq<QueuedPacket>)
    requires s.queues.Valid() && op.EnqueueOp? && Enqueue(s, cfg, op.peer, op.packet, op.now).answer == Accepted
    requires RunsTo(Step(s, cfg, op), cfg, rest, t, n, lost)
    ensures RunsTo(s, cfg, [op] + rest, t, n + 1, Enqueue(s, cfg, op.peer, op.packet, op.now).lost + lost)
  {
    assert ([op] + rest)[1..] == rest;
  }

  // ---- the default caps ----

  function Big(packet: BitchatPacket): int {
    Item(packet, 0.0).byteSize
  }

  /** Three such packets fit, four do not. */
  predicate IsBig(packet: BitchatPacket) {
    65505 <= |packet.payload| <= MAX_PAYLOAD
  }

  function OneFor(a: string, packet: BitchatPacket): Store {
    Store(OrderedDict([a], map[a := [Item(packet, 0.0)]]), 1, Big(packet))
  }

  function OneEach(a: string, b: string, packet: BitchatPacket): Store {
    Store(OrderedDict([a, b], map[a := [Item(packet, 0.0)], b := [Item(packet, 1.0)]]), 2, 2 * Big(packet))
  }

  function OneAndTwo(a: string, b: string, packet: BitchatPacket): Store {
    Store(OrderedDict([a, b], map[a := [Item(packet, 0.0)], b := [Item(packet, 1.0), Item(packet, 2.0)]]),
          3, 3 * Big(packet))
  }

  function JustTwo(b: string, packet: BitchatPacket, packets: int): Store {
    Store(OrderedDict([b], map[b := [Item(packet, 1.0), Item(packet, 2.0)]]), packets, packets * Big(packet))
  }

  lemma FirstBig(a: string, packet: BitchatPacket)
    requires IsBig(packet)
    ensures var out := Enqueue(EMPTY_STORE, DEFAULT_SETTINGS, a, packet, 0.0);
            out.answer == Accepted && out.lost == [] && out.store == OneFor(a, packet)
  {
    PlainEnqueue(EMPTY_STORE, DEFAULT_SETTINGS, a, packet, 0.0);
    assert [] + [Item(packet, 0.0)] == [Item(packet, 0.0)];
  }

  lemma OneForValid(a: string, packet: BitchatPacket)
    ensures OneFor(a, packet).queues.Valid()
  {
    assert [a][1..] == [];
    assert Distinct([a]);
  }

  lemma OneForFresh(a: string, packet: BitchatPacket, cfg: Settings)
    requires cfg.packetTtl == 300.0
    ensures AllFresh(OneFor(a, packet), cfg, 1.0)
  {
    OneForValid(a, packet);
  }

  lemma SecondBig(a: string, b: string, packet: BitchatPacket)
    requires IsBig(packet) && a != b && AllFresh(OneFor(a, packet), DEFAULT_SETTINGS, 1.0)
    ensures var out := Enqueue(OneFor(a, packet), DEFAULT_SETTINGS, b, packet, 1.0);
            out.answer == Accepted && out.lost == [] && out.store == OneEach(a, b, packet)
  {
    PlainEnqueue(OneFor(a, packet), DEFAULT_SETTINGS, b, packet, 1.0);
    OneMoreQueue(a, b, packet);
  }

  lemma OneMoreQueue(a: string, b: string, packet: BitchatPacket)
    requires a != b
    ensures Append(WithQueue(OneFor(a, packet), b), b, Item(packet, 1.0)) == OneEach(a, b, packet)
  {
    assert [] + [Item(packet, 1.0)] == [Item(packet, 1.0)];
    assert [a] + [b] == [a, b];
    assert OneFor(a, packet).queues.vals[b := []][b := [Item(packet, 1.0)]] == OneEach(a, b, packet).queues.vals;
  }

  lemma BothDistinct(a: string, b: string)
    requires a != b
    ensures Distinct([a, b])
  {
    assert [a, b][1..] == [b] && [b][1..] == [];
  }

  lemma ThirdBig(a: string, b: string, packet: BitchatPacket)
    requires IsBig(packet) && a != b
    ensures OneEach(a, b, packet).queues.Valid()
    ensures var out := Enqueue(OneEach(a, b, packet), DEFAULT_SETTINGS, b, packet, 2.0);
            out.answer == Accepted && out.lost == [] && out.store == OneAndTwo(a, b, packet)
  {
    BothDistinct(a, b);
    PlainEnqueue(OneEach(a, b, packet), DEFAULT_SETTINGS, b, packet, 2.0);
    OneMoreInQueue(a, b, packet);
  }

  lemma OneMoreInQueue(a: string, b: string, packet: BitchatPacket)
    requires a != b
    ensures Append(WithQueue(OneEach(a, b, packet), b), b, Item(packet, 2.0)) == OneAndTwo(a, b, packet)
  {
    var vals := OneEach(a, b, packet).queues.vals;
    assert vals[b] + [Item(packet, 2.0)] == [Item(packet, 1.0), Item(packet, 2.0)];
    assert vals[b := [Item(packet, 1.0), Item(packet, 2.0)]] == OneAndTwo(a, b, packet).queues.vals;
  }

  lemma OldestOfThree(a: string, b: string, packet: BitchatPacket)
    requires a != b && OneAndTwo(a, b, packet).queues.Valid()
    ensures Oldest(OneAndTwo(a, b, packet).queues, 2) == Some(a)
  {
    var q := OneAndTwo(a, b, packet).queues;
    assert Oldest(q, 0) == None;
    assert q.keys[0] == a && q.keys[1] == b;
    assert Oldest(q, 1) == Some(a);
  }

  /** The oldest packet is the only one for `a`: its queue goes. */
  lemma OneEvicted(a: string, b: string, packet: BitchatPacket)
    requires a != b && OneAndTwo(a, b, packet).queues.Valid()
    ensures Evict(OneAndTwo(a, b, packet)) == Effect(JustTwo(b, packet, 2), [Item(packet, 0.0)])
  {
    var s := OneAndTwo(a, b, packet);
    var x := Item(packet, 0.0);
    OldestOfThree(a, b, packet);
    assert [x][1..] == [] && [x][..1] == [x];
    WeighOne(Size, x);
    assert [a, b][1..] == [b] && [b][1..] == [];
    assert [a, b][0] == a;
    WithoutAbsent([b], a);
    assert s.queues.vals[a := []] - {a} == JustTwo(b, packet, 2).queues.vals;
  }

  lemma RoomMade(a: string, b: string, packet: BitchatPacket)
    requires IsBig(packet) && a != b && OneAndTwo(a, b, packet).queues.Valid()
    ensures MakeRoom(OneAndTwo(a, b, packet), DEFAULT_SETTINGS, Big(packet)).store == JustTwo(b, packet, 2)
  {
    var s, c := OneAndTwo(a, b, packet), ByteCeiling(256 * 1024 - Big(packet));
    OneEvicted(a, b, packet);
    OldestOfThree(a, b, packet);
    EvictShrinks(s);
    assert EvictWhile(s, PacketCeiling(100)).store == s;
    assert EvictWhile(Evict(s).store, c).store == JustTwo(b, packet, 2);
  }

  lemma FourthBig(a: string, b: string, packet: BitchatPacket)
    requires IsBig(packet) && a != b
    ensures OneAndTwo(a, b, packet).queues.Valid()
    ensures var out := Enqueue(OneAndTwo(a, b, packet), DEFAULT_SETTINGS, a, packet, 3.0);
            out.answer == Accepted && out.lost == [Item(packet, 3.0)] && out.store == JustTwo(b, packet, 3)
  {
    var s := OneAndTwo(a, b, packet);
    BothDistinct(a, b);
    NothingBeforeEvictions(s, DEFAULT_SETTINGS, a, 3.0);
    RoomMade(a, b, packet);
    EnqueueEnds(s, DEFAULT_SETTINGS, a, packet, 3.0);
  }

  lemma LastTwo(a: string, b: string, packet: BitchatPacket)
    requires a != b && IsBig(packet)
    ensures RunsTo(OneEach(a, b, packet), DEFAULT_SETTINGS, [EnqueueOp(b, packet, 2.0)] + [EnqueueOp(a, packet, 3.0)],
                   JustTwo(b, packet, 3), 2, [Item(packet, 3.0)])
  {
    ThirdBig(a, b, packet);
    FourthBig(a, b, packet);
    assert [EnqueueOp(a, packet, 3.0)] + [] == [EnqueueOp(a, packet, 3.0)];
    RunFirst(OneAndTwo(a, b, packet), DEFAULT_SETTINGS, EnqueueOp(a, packet, 3.0), [], JustTwo(b, packet, 3), 0, []);
    RunFirst(OneEach(a, b, packet), DEFAULT_SETTINGS, EnqueueOp(b, packet, 2.0), [EnqueueOp(a, packet, 3.0)],
             JustTwo(b, packet, 3), 1, [Item(packet, 3.0)]);
    assert [] + [Item(packet, 3.0)] == [Item(packet, 3.0)];
  }

  /** With the default caps, four packets near the largest size, one for `a`, two for `b` and one more for `a`: all are
      accepted; room for the last is made by evicting the first, which takes the queue of `a` out of the table, and the
      last is lost. The counters say three packets where two are queued. */
  lemma DefaultLoss(a: string, b: string, packet: BitchatPacket)
    requires a != b && IsBig(packet)
    ensures RunsTo(EMPTY_STORE, DEFAULT_SETTINGS,
                   [EnqueueOp(a, packet, 0.0)] + ([EnqueueOp(b, packet, 1.0)]
                    + ([EnqueueOp(b, packet, 2.0)] + [EnqueueOp(a, packet, 3.0)])),
                   JustTwo(b, packet, 3), 4, [Item(packet, 3.0)])
  {
    var more := [EnqueueOp(b, packet, 2.0)] + [EnqueueOp(a, packet, 3.0)];
    var lost := [Item(packet, 3.0)];
    LastTwo(a, b, packet);
    FirstBig(a, packet);
    OneForFresh(a, packet, DEFAULT_SETTINGS);
    SecondBig(a, b, packet);
    assert [] + lost == lost;
    RunFirst(OneFor(a, packet), DEFAULT_SETTINGS, EnqueueOp(b, packet, 1.0), more, JustTwo(b, packet, 3), 2, lost);
    RunFirst(EMPTY_STORE, DEFAULT_SETTINGS, EnqueueOp(a, packet, 0.0), [EnqueueOp(b, packet, 1.0)] + more,
             JustTwo(b, packet, 3), 3, lost);
  }

  // ---- a cap of one packet ----

  const CAP_OF_ONE := Settings(1, 20, 1000, 300.0)

  lemma AloneEvicted(a: string, packet: BitchatPacket)
    requires OneFor(a, packet).queues.Valid()
    ensures Evict(OneFor(a, packet)).store == EMPTY_STORE && Oldest(OneFor(a, packet).queues, 1) == Some(a)
  {
    var s, x := OneFor(a, packet), Item(packet, 0.0);
    assert Oldest(s.queues, 0) == None;
    assert s.queues.keys[0] == a;
    assert [x][1..] == [] && [x][..1] == [x];
    WeighOne(Size, x);
    assert Without([a], a) == [];
    assert map[a := [x]][a := []] - {a} == map[];
  }

  lemma SecondOfTwo(a: string, packet: BitchatPacket)
    requires Big(packet) <= 1000 && AllFresh(OneFor(a, packet), CAP_OF_ONE, 1.0)
    ensures var out := Enqueue(OneFor(a, packet), CAP_OF_ONE, a, packet, 1.0);
            && out.answer == Accepted && out.lost == [Item(packet, 1.0)]
            && out.store == Store(NO_QUEUES, 1, Big(packet))
  {
    var s := OneFor(a, packet);
    NothingBeforeEvictions(s, CAP_OF_ONE, a, 1.0);
    AloneEvicted(a, packet);
    EvictShrinks(s);
    assert EvictWhile(EMPTY_STORE, PacketCeiling(1)).store == EMPTY_STORE;
    assert EvictWhile(s, PacketCeiling(1)).store == EMPTY_STORE;
    assert EvictWhile(EMPTY_STORE, ByteCeiling(1000 - Big(packet))).store == EMPTY_STORE;
    EnqueueEnds(s, CAP_OF_ONE, a, packet, 1.0);
  }

  lemma FirstOfTwo(a: string, packet: BitchatPacket)
    requires Big(packet) <= 1000
    ensures var out := Enqueue(EMPTY_STORE, CAP_OF_ONE, a, packet, 0.0);
            out.answer == Accepted && out.lost == [] && out.store == OneFor(a, packet)
  {
    PlainEnqueue(EMPTY_STORE, CAP_OF_ONE, a, packet, 0.0);
    assert [] + [Item(packet, 0.0)] == [Item(packet, 0.0)];
  }

  lemma ThenLost(a: string, packet: BitchatPacket)
    requires Big(packet) <= 1000
    ensures RunsTo(OneFor(a, packet), CAP_OF_ONE, [EnqueueOp(a, packet, 1.0)],
                   Store(NO_QUEUES, 1, Big(packet)), 1, [Item(packet, 1.0)])
  {
    var last := EnqueueOp(a, packet, 1.0);
    OneForFresh(a, packet, CAP_OF_ONE);
    SecondOfTwo(a, packet);
    assert [last] + [] == [last] && [Item(packet, 1.0)] + [] == [Item(packet, 1.0)];
    RunFirst(OneFor(a, packet), CAP_OF_ONE, last, [], Store(NO_QUEUES, 1, Big(packet)), 0, []);
  }

  lemma TwoForOne(a: string, packet: BitchatPacket)
    requires Big(packet) <= 1000
    ensures RunsTo(EMPTY_STORE, CAP_OF_ONE, [EnqueueOp(a, packet, 0.0)] + [EnqueueOp(a, packet, 1.0)],
                   Store(NO_QUEUES, 1, Big(packet)), 2, [Item(packet, 1.0)])
  {
    var lost := [Item(packet, 1.0)];
    FirstOfTwo(a, packet);
    ThenLost(a, packet);
    assert [] + lost == lost;
    RunFirst(EMPTY_STORE, CAP_OF_ONE, EnqueueOp(a, packet, 0.0), [EnqueueOp(a, packet, 1.0)],
             Store(NO_QUEUES, 1, Big(packet)), 1, lost);
  }

  /** With a cap of one packet, two packets for one peer: the second is accepted and lost, the counters say 1 while
      nothing is queued, and no further packet can be enqueued, since its eviction loop goes on for ever. */
  lemma StuckAfterLoss(a: string, packet: BitchatPacket, next: BitchatPacket, peer: string, now: real)
    requires Big(packet) <= 1000 && Item(next, now).byteSize <= 1000
    ensures var ops := [EnqueueOp(a, packet, 0.0)] + [EnqueueOp(a, packet, 1.0)];
            var t := Run(EMPTY_STORE, CAP_OF_ONE, ops).0;
            && RunsTo(EMPTY_STORE, CAP_OF_ONE, ops, Store(NO_QUEUES, 1, Big(packet)), 2, [Item(packet, 1.0)])
            && BeforeEvictions(t, CAP_OF_ONE, peer, now).queues.Valid()
            && !LoopsEnd(BeforeEvictions(t, CAP_OF_ONE, peer, now), CAP_OF_ONE, Item(next, now).byteSize)
  {
    TwoForOne(a, packet);
    LostStillCounted(EMPTY_STORE, CAP_OF_ONE, [EnqueueOp(a, packet, 0.0)] + [EnqueueOp(a, packet, 1.0)], []);
    EndsExactlyIfLostLeaveRoom(
      CAP_OF_ONE, [EnqueueOp(a, packet, 0.0)] + [EnqueueOp(a, packet, 1.0)], peer, next, now);
  }
}
