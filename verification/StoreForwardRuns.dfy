/** Every run of the store-and-forward queue: nothing unaccounted for, the caps kept, first in first out per peer. */
module StoreForwardRuns {
  import opened Wrappers
  import opened OrderedDicts
  import opened Packets
  import opened StoreForward
  import opened StoreForwardProperties

  datatype Op =
    | EnqueueOp(peer: string, packet: BitchatPacket, now: real)
    | DequeueOp(peer: string, now: real)
    | PruneOp(now: real)
    | ClearOp(now: real)

  /** The store after an operation. */
  function Step(s: Store, cfg: Settings, op: Op): (t: Store)
    requires s.queues.Valid()
    ensures t.queues.Valid()
  {
    match op
    case EnqueueOp(peer, packet, now) => Enqueue(s, cfg, peer, packet, now).store
    case DequeueOp(peer, now) =>
      s.queues.DeleteValid(peer);
      Dequeue(s, peer)
    case PruneOp(now) => Prune(s, cfg, now).store
    case ClearOp(_) => EMPTY_STORE
  }

  /** What happened to the packets. */
  datatype Ledger = Ledger(
    accepted: seq<QueuedPacket>, delivered: seq<QueuedPacket>, expired: seq<QueuedPacket>,
    evicted: seq<QueuedPacket>, lost: seq<QueuedPacket>, cleared: seq<QueuedPacket>)

  const NOTHING_YET := Ledger([], [], [], [], [], [])

  /** All packets in the queues. */
  function AllOf(keys: seq<string>, vals: map<string, seq<QueuedPacket>>): seq<QueuedPacket>
    requires AllIn(keys, vals)
  {
    if keys == [] then [] else vals[keys[0]] + AllOf(keys[1..], vals)
  }

  function Entries(s: Store, cfg: Settings, op: Op): Ledger
    requires s.queues.Valid()
  {
    match op
    case EnqueueOp(peer, packet, now) =>
      var out := Enqueue(s, cfg, peer, packet, now);
      Ledger(if out.answer == Accepted then [Item(packet, now)] else [], [], out.expired, out.evicted, out.lost, [])
    case DequeueOp(peer, now) =>
      var q := QueueFor(s, peer);
      Ledger([], Filter(cfg, q, now, false), Filter(cfg, q, now, true), [], [], [])
    case PruneOp(now) => Ledger([], [], Prune(s, cfg, now).gone, [], [], [])
    case ClearOp(_) => Ledger([], [], [], [], [], AllOf(s.queues.keys, s.queues.vals))
  }

  function Plus(a: Ledger, b: Ledger): Ledger {
    Ledger(a.accepted + b.accepted, a.delivered + b.delivered, a.expired + b.expired, a.evicted + b.evicted,
           a.lost + b.lost, a.cleared + b.cleared)
  }

  /** The store and the ledger after a run. */
  function Run(s: Store, cfg: Settings, ops: seq<Op>): (r: (Store, Ledger))
    requires s.queues.Valid()
    ensures r.0.queues.Valid()
    decreases ops
  {
    if ops == [] then (s, NOTHING_YET)
    else
      var (t, later) := Run(Step(s, cfg, ops[0]), cfg, ops[1..]);
      (t, Plus(Entries(s, cfg, ops[0]), later))
  }

  // ---- conservation ----

  /** What the packets that left or were lost weigh. */
  function WeighGone(f: QueuedPacket -> int, l: Ledger): int {
    Weigh(f, l.delivered) + Weigh(f, l.expired) + Weigh(f, l.evicted) + Weigh(f, l.lost) + Weigh(f, l.cleared)
  }

  lemma WeighPlus(f: QueuedPacket -> int, a: Ledger, b: Ledger)
    ensures WeighGone(f, Plus(a, b)) == WeighGone(f, a) + WeighGone(f, b)
    ensures Weigh(f, Plus(a, b).accepted) == Weigh(f, a.accepted) + Weigh(f, b.accepted)
    ensures Weigh(f, Plus(a, b).lost) == Weigh(f, a.lost) + Weigh(f, b.lost)
  {
    WeighConcat(f, a.accepted, b.accepted);
    WeighConcat(f, a.delivered, b.delivered);
    WeighConcat(f, a.expired, b.expired);
    WeighConcat(f, a.evicted, b.evicted);
    WeighConcat(f, a.lost, b.lost);
    WeighConcat(f, a.cleared, b.cleared);
  }

  lemma {:induction false} WeighAll(f: QueuedPacket -> int, keys: seq<string>, vals: map<string, seq<QueuedPacket>>)
    requires AllIn(keys, vals)
    ensures Weigh(f, AllOf(keys, vals)) == WeighQueues(f, keys, vals)
  {
    if keys != [] {
      WeighAll(f, keys[1..], vals);
      WeighConcat(f, vals[keys[0]], AllOf(keys[1..], vals));
    }
  }

  lemma StepConserves(f: QueuedPacket -> int, s: Store, cfg: Settings, op: Op)
    requires s.queues.Valid()
    ensures var l := Entries(s, cfg, op);
            InQueues(f, s.queues) + Weigh(f, l.accepted) == InQueues(f, Step(s, cfg, op).queues) + WeighGone(f, l)
  {
    match op
    case EnqueueOp(peer, packet, now) =>
      EnqueueConserves(f, s, cfg, peer, packet, now);
      WeighOne(f, Item(packet, now));
    case DequeueOp(peer, now) =>
      DequeueConserves(f, s, cfg, peer, now);
    case PruneOp(now) =>
      PruneConserves(f, s, cfg, now);
    case ClearOp(_) =>
      WeighAll(f, s.queues.keys, s.queues.vals);
  }

  lemma {:induction false} RunConserves(f: QueuedPacket -> int, s: Store, cfg: Settings, ops: seq<Op>)
    requires s.queues.Valid()
    ensures var (t, l) := Run(s, cfg, ops);
            InQueues(f, s.queues) + Weigh(f, l.accepted) == InQueues(f, t.queues) + WeighGone(f, l)
    decreases ops
  {
    if ops != [] {
      StepConserves(f, s, cfg, ops[0]);
      RunConserves(f, Step(s, cfg, ops[0]), cfg, ops[1..]);
      WeighPlus(f, Entries(s, cfg, ops[0]), Run(Step(s, cfg, ops[0]), cfg, ops[1..]).1);
    }
  }

  function IsItem(x: QueuedPacket): QueuedPacket -> int {
    y => if y == x then 1 else 0
  }

  lemma {:induction false} WeighCounts(x: QueuedPacket, items: seq<QueuedPacket>)
    ensures Weigh(IsItem(x), items) == multiset(items)[x]
  {
    if items != [] {
      WeighCounts(x, items[1..]);
      assert items == [items[0]] + items[1..];
    }
  }

  /** Conservation: whatever one counts, however the clock runs, the accepted packets of a run are the ones delivered,
      expired, evicted, lost or cleared, together with the ones still queued. In particular every packet occurs among
      the accepted ones exactly as often as among all these. */
  lemma EveryPacketAccountedFor(cfg: Settings, ops: seq<Op>, x: QueuedPacket)
    ensures var (s, l) := Run(EMPTY_STORE, cfg, ops);
            && multiset(l.accepted)[x]
               == InQueues(IsItem(x), s.queues) + multiset(l.delivered)[x] + multiset(l.expired)[x]
                  + multiset(l.evicted)[x] + multiset(l.lost)[x] + multiset(l.cleared)[x]
  {
    var (s, l) := Run(EMPTY_STORE, cfg, ops);
    RunConserves(IsItem(x), EMPTY_STORE, cfg, ops);
    WeighCounts(x, l.accepted);
    WeighCounts(x, l.delivered);
    WeighCounts(x, l.expired);
    WeighCounts(x, l.evicted);
    WeighCounts(x, l.lost);
    WeighCounts(x, l.cleared);
  }

  // ---- the counters ----

  /** The counters exceed the real sums by just these packets. */
  ghost predicate ExceedsBy(s: Store, lost: seq<QueuedPacket>)
    requires s.queues.Valid()
  {
    PhantomPackets(s) == |lost| && PhantomBytes(s) == Weigh(Size, lost)
  }

  /** The lost packets that the counters still include after a run; `clear` forgets them. */
  function StillCounted(s: Store, cfg: Settings, ops: seq<Op>, before: seq<QueuedPacket>): seq<QueuedPacket>
    requires s.queues.Valid()
    decreases ops
  {
    if ops == [] then before
    else
      StillCounted(Step(s, cfg, ops[0]), cfg, ops[1..],
                   if ops[0].ClearOp? then [] else before + Entries(s, cfg, ops[0]).lost)
  }

  predicate NeverClears(ops: seq<Op>)
    decreases ops
  {
    ops == [] || (!ops[0].ClearOp? && NeverClears(ops[1..]))
  }

  lemma RunLosesFirst(s: Store, cfg: Settings, ops: seq<Op>)
    requires s.queues.Valid() && ops != []
    ensures Run(s, cfg, ops).1.lost == Entries(s, cfg, ops[0]).lost + Run(Step(s, cfg, ops[0]), cfg, ops[1..]).1.lost
  {}

  lemma OneMoreLost(s: Store, cfg: Settings, ops: seq<Op>, before: seq<QueuedPacket>, later: seq<QueuedPacket>)
    requires s.queues.Valid() && ops != [] && !ops[0].ClearOp?
    requires later == Run(Step(s, cfg, ops[0]), cfg, ops[1..]).1.lost
    requires StillCounted(Step(s, cfg, ops[0]), cfg, ops[1..], before + Entries(s, cfg, ops[0]).lost)
             == before + Entries(s, cfg, ops[0]).lost + later
    ensures StillCounted(s, cfg, ops, before) == before + Run(s, cfg, ops).1.lost
  {
    RunLosesFirst(s, cfg, ops);
    ConcatThrice(before, Entries(s, cfg, ops[0]).lost, later);
  }

  lemma ConcatThrice(a: seq<QueuedPacket>, b: seq<QueuedPacket>, c: seq<QueuedPacket>)
    ensures a + b + c == a + (b + c)
  {}

  /** Without a `clear` these are all that were lost. */
  lemma {:induction false} LostStillCounted(s: Store, cfg: Settings, ops: seq<Op>, before: seq<QueuedPacket>)
    requires s.queues.Valid() && NeverClears(ops)
    ensures StillCounted(s, cfg, ops, before) == before + Run(s, cfg, ops).1.lost
    decreases ops
  {
    if ops == [] {
      assert before + [] == before;
    } else {
      var t, now := Step(s, cfg, ops[0]), Entries(s, cfg, ops[0]).lost;
      LostStillCounted(t, cfg, ops[1..], before + now);
      OneMoreLost(s, cfg, ops, before, Run(t, cfg, ops[1..]).1.lost);
    }
  }

  /** An operation other than `clear` adds to that what it loses. */
  lemma StepCounts(s: Store, cfg: Settings, op: Op)
    requires s.queues.Valid() && !op.ClearOp?
    ensures var (t, l) := (Step(s, cfg, op), Entries(s, cfg, op));
            && PhantomPackets(t) == PhantomPackets(s) + |l.lost|
            && PhantomBytes(t) == PhantomBytes(s) + Weigh(Size, l.lost)
  {
    match op
    case EnqueueOp(peer, packet, now) =>
      EnqueueCounts(s, cfg, peer, packet, now);
    case DequeueOp(peer, now) =>
      DequeueCounts(s, peer);
    case PruneOp(now) =>
      PruneKeysKeepsPhantoms(s, cfg, now, |s.queues.keys|);
  }

  lemma DequeueCounts(s: Store, peer: string)
    requires s.queues.Valid()
    ensures SamePhantoms(s, Dequeue(s, peer))
  {
    if peer in s.queues.vals {
      InQueuesDelete(Each, s.queues, peer);
      InQueuesDelete(Size, s.queues, peer);
      WeighEach(s.queues.vals[peer]);
    } else {
      WithoutAbsent(s.queues.keys, peer);
      assert s.queues.vals - {peer} == s.queues.vals;
    }
  }

  lemma AppendCounts(s: Store, peer: string, x: QueuedPacket)
    requires s.queues.Valid()
    ensures var t, lost := Append(s, peer, x), if peer in s.queues.vals then [] else [x];
            && t.queues.Valid()
            && PhantomPackets(t) == PhantomPackets(s) + |lost|
            && PhantomBytes(t) == PhantomBytes(s) + Weigh(Size, lost)
  {
    AppendKeeps(Each, s, peer, x);
    AppendKeeps(Size, s, peer, x);
    WeighOne(Size, x);
  }

  lemma MakeRoomCounts(s: Store, cfg: Settings, size: int)
    requires s.queues.Valid()
    ensures SamePhantoms(s, MakeRoom(s, cfg, size).store)
  {
    EvictWhileEnds(s, PacketCeiling(cfg.maxTotalPackets));
    EvictWhileEnds(EvictWhile(s, PacketCeiling(cfg.maxTotalPackets)).store, ByteCeiling(cfg.maxTotalBytes - size));
  }

  lemma EnqueueCounts(s: Store, cfg: Settings, peer: string, packet: BitchatPacket, now: real)
    requires s.queues.Valid()
    ensures var out := Enqueue(s, cfg, peer, packet, now);
            && PhantomPackets(out.store) == PhantomPackets(s) + |out.lost|
            && PhantomBytes(out.store) == PhantomBytes(s) + Weigh(Size, out.lost)
  {
    var x := Item(packet, now);
    PruneKeysKeepsPhantoms(s, cfg, now, |s.queues.keys|);
    if x.byteSize > cfg.maxTotalBytes {
    } else if PopsEmpty(s, cfg, peer, now) {
      WithQueueKeepsPhantoms(Prune(s, cfg, now).store, peer);
    } else {
      var h := BeforeEvictions(s, cfg, peer, now);
      UpToEvictions(s, cfg, peer, now);
      EnqueueEnds(s, cfg, peer, packet, now);
      MakeRoomCounts(h, cfg, x.byteSize);
      AppendCounts(MakeRoom(h, cfg, x.byteSize).store, peer, x);
    }
  }

  /** One operation, whatever it is. */
  lemma StepExceeds(s: Store, cfg: Settings, op: Op, before: seq<QueuedPacket>)
    requires s.queues.Valid() && ExceedsBy(s, before)
    ensures ExceedsBy(Step(s, cfg, op), if op.ClearOp? then [] else before + Entries(s, cfg, op).lost)
  {
    if !op.ClearOp? {
      StepCounts(s, cfg, op);
      WeighConcat(Size, before, Entries(s, cfg, op).lost);
    }
  }

  lemma {:induction false} RunCounts(s: Store, cfg: Settings, ops: seq<Op>, before: seq<QueuedPacket>)
    requires s.queues.Valid() && ExceedsBy(s, before)
    ensures ExceedsBy(Run(s, cfg, ops).0, StillCounted(s, cfg, ops, before))
    decreases ops
  {
    if ops != [] {
      var lost := if ops[0].ClearOp? then [] else before + Entries(s, cfg, ops[0]).lost;
      StepExceeds(s, cfg, ops[0], before);
      RunCounts(Step(s, cfg, ops[0]), cfg, ops[1..], lost);
    }
  }

  /** The counters are the real sums exactly if no packet has been lost since the last `clear`, and are too high by the
      lost ones otherwise. */
  lemma CountersExactIffNothingLost(cfg: Settings, ops: seq<Op>)
    ensures var s, lost := Run(EMPTY_STORE, cfg, ops).0, StillCounted(EMPTY_STORE, cfg, ops, []);
            && Sound(s) && ExceedsBy(s, lost)
            && (s.packets == InQueues(Each, s.queues) && s.bytes == InQueues(Size, s.queues) <==> lost == [])
  {
    RunCounts(EMPTY_STORE, cfg, ops, []);
    WeighNonNegative(Size, StillCounted(EMPTY_STORE, cfg, ops, []));
  }

  // ---- first in, first out ----

  /** `a` can be had from `b` by leaving out elements. */
  ghost predicate Subsequence<T>(a: seq<T>, b: seq<T>) {
    || a == []
    || (b != [] && ((a[0] == b[0] && Subsequence(a[1..], b[1..])) || Subsequence(a, b[1..])))
  }

  lemma {:induction false} SubsequenceOfTail<T>(a: seq<T>, b: seq<T>, c: seq<T>)
    requires Subsequence(a, c)
    ensures Subsequence(a, b + c)
  {
    if b == [] {
      assert b + c == c;
    } else {
      SubsequenceOfTail(a, b[1..], c);
      assert (b + c)[1..] == b[1..] + c;
    }
  }

  lemma {:induction false} SubsequenceConcat<T>(a: seq<T>, b: seq<T>, c: seq<T>, d: seq<T>)
    requires Subsequence(a, b) && Subsequence(c, d)
    ensures Subsequence(a + c, b + d)
    decreases |b|
  {
    if a == [] {
      assert a + c == c;
      SubsequenceOfTail(c, b, d);
    } else {
      assert (b + d)[1..] == b[1..] + d;
      if a[0] == b[0] && Subsequence(a[1..], b[1..]) {
        assert (a + c)[1..] == a[1..] + c;
        SubsequenceConcat(a[1..], b[1..], c, d);
      } else {
        SubsequenceConcat(a, b[1..], c, d);
      }
    }
  }

  lemma {:induction false} FilterIsSubsequence(cfg: Settings, items: seq<QueuedPacket>, now: real, expired: bool)
    ensures Subsequence(Filter(cfg, items, now, expired), items)
  {
    if items != [] {
      var rest := Filter(cfg, items[1..], now, expired);
      FilterIsSubsequence(cfg, items[1..], now, expired);
      if Expired(cfg, items[0], now) == expired {
        assert ([items[0]] + rest)[1..] == rest;
      } else {
        assert [] + rest == rest;
      }
    }
  }

  /** The packets that one operation accepts for a peer, or hands over to it. */
  function AcceptedNow(s: Store, cfg: Settings, op: Op, peer: string): seq<QueuedPacket>
    requires s.queues.Valid()
  {
    if op.EnqueueOp? && op.peer == peer then Entries(s, cfg, op).accepted else []
  }

  function DeliveredNow(s: Store, cfg: Settings, op: Op, peer: string): seq<QueuedPacket>
    requires s.queues.Valid()
  {
    if op.DequeueOp? && op.peer == peer then Entries(s, cfg, op).delivered else []
  }

  /** The packets accepted for a peer in a run, in order. */
  function AcceptedFor(s: Store, cfg: Settings, ops: seq<Op>, peer: string): seq<QueuedPacket>
    requires s.queues.Valid()
    decreases ops
  {
    if ops == [] then []
    else
      AcceptedNow(s, cfg, ops[0], peer) + AcceptedFor(Step(s, cfg, ops[0]), cfg, ops[1..], peer)
  }

  /** The packets handed over to a peer in a run, in order. */
  function DeliveredTo(s: Store, cfg: Settings, ops: seq<Op>, peer: string): seq<QueuedPacket>
    requires s.queues.Valid()
    decreases ops
  {
    if ops == [] then []
    else
      DeliveredNow(s, cfg, ops[0], peer) + DeliveredTo(Step(s, cfg, ops[0]), cfg, ops[1..], peer)
  }

  /** After an `enqueue` a peer's queue is a tail of the old one, and the packet accepted for that peer if it was not
      lost. */
  ghost predicate QueueMoved(before: seq<QueuedPacket>, after: seq<QueuedPacket>, accepted: seq<QueuedPacket>) {
    exists tail :: IsSuffix(tail, before) && (after == tail + accepted || after == tail == [])
  }

  lemma SuffixMoved(before: seq<QueuedPacket>, after: seq<QueuedPacket>)
    requires IsSuffix(after, before)
    ensures QueueMoved(before, after, [])
  {
    assert after + [] == after;
  }

  lemma EnqueueMovesQueue(s: Store, cfg: Settings, peer: string, packet: BitchatPacket, now: real, k: string)
    requires s.queues.Valid()
    ensures var out := Enqueue(s, cfg, peer, packet, now);
            QueueMoved(QueueFor(s, k), QueueFor(out.store, k),
                       if k == peer && out.answer == Accepted then [Item(packet, now)] else [])
  {
    if Item(packet, now).byteSize <= cfg.maxTotalBytes && !PopsEmpty(s, cfg, peer, now) {
      AppendingMovesQueue(s, cfg, peer, packet, now, k);
    } else {
      EnqueueStopsShort(s, cfg, peer, packet, now);
      StoppingMovesQueue(s, cfg, peer, now, k);
    }
  }

  lemma StoppingMovesQueue(s: Store, cfg: Settings, peer: string, now: real, k: string)
    requires s.queues.Valid()
    ensures var pruned := Prune(s, cfg, now).store;
            && QueueFor(WithQueue(pruned, peer), k) == QueueFor(pruned, k)
            && QueueMoved(QueueFor(s, k), QueueFor(pruned, k), [])
  {
    var pruned := Prune(s, cfg, now).store;
    PruneShrinks(s, cfg, now);
    SuffixMoved(QueueFor(s, k), QueueFor(pruned, k));
  }

  lemma AppendingMovesQueue(s: Store, cfg: Settings, peer: string, packet: BitchatPacket, now: real, k: string)
    requires s.queues.Valid() && Item(packet, now).byteSize <= cfg.maxTotalBytes && !PopsEmpty(s, cfg, peer, now)
    ensures var out := Enqueue(s, cfg, peer, packet, now);
            QueueMoved(QueueFor(s, k), QueueFor(out.store, k),
                       if k == peer && out.answer == Accepted then [Item(packet, now)] else [])
  {
    var x := Item(packet, now);
    UpToMade(s, cfg, peer, x.byteSize, now);
    EnqueueEnds(s, cfg, peer, packet, now);
    var made := MakeRoom(BeforeEvictions(s, cfg, peer, now), cfg, x.byteSize).store;
    assert IsSuffix(QueueFor(made, k), QueueFor(s, k));
    EndMovesQueue(s, made, cfg, peer, x, Enqueue(s, cfg, peer, packet, now), k);
  }

  lemma EndMovesQueue(s: Store, made: Store, cfg: Settings, peer: string, x: QueuedPacket, out: Outcome, k: string)
    requires EndsFrom(made, cfg, peer, x, out) && IsSuffix(QueueFor(made, k), QueueFor(s, k))
    ensures QueueMoved(QueueFor(s, k), QueueFor(out.store, k), if k == peer && out.answer == Accepted then [x] else [])
  {
    assert QueueFor(made, k) + [] == QueueFor(made, k);
  }

  lemma UpToMade(s: Store, cfg: Settings, peer: string, size: int, now: real)
    requires s.queues.Valid()
    ensures BeforeEvictions(s, cfg, peer, now).queues.Valid()
    ensures Shrunk(s, MakeRoom(BeforeEvictions(s, cfg, peer, now), cfg, size).store)
  {
    var h := BeforeEvictions(s, cfg, peer, now);
    UpToEvictions(s, cfg, peer, now);
    MakeRoomShrinks(h, cfg, size);
    ShrunkTransitive(s, h, MakeRoom(h, cfg, size).store);
  }

  lemma MakeRoomShrinks(s: Store, cfg: Settings, size: int)
    requires s.queues.Valid()
    ensures Shrunk(s, MakeRoom(s, cfg, size).store)
  {
    TwoLoopsShrink(s, PacketCeiling(cfg.maxTotalPackets), ByteCeiling(cfg.maxTotalBytes - size));
  }

  lemma TwoLoopsShrink(s: Store, c: Ceiling, d: Ceiling)
    requires s.queues.Valid()
    ensures Shrunk(s, EvictWhile(EvictWhile(s, c).store, d).store)
  {
    var a := EvictWhile(s, c).store;
    EvictWhileShrinks(s, c);
    EvictWhileShrinks(a, d);
    ShrunkTransitive(s, a, EvictWhile(a, d).store);
  }

  /** One operation keeps the order, if `d` comes in order out of what it leaves queued and then `a`. */
  lemma StepInOrder(s: Store, cfg: Settings, op: Op, peer: string, d: seq<QueuedPacket>, a: seq<QueuedPacket>)
    requires s.queues.Valid() && Subsequence(d, QueueFor(Step(s, cfg, op), peer) + a)
    ensures Subsequence(DeliveredNow(s, cfg, op, peer) + d, QueueFor(s, peer) + (AcceptedNow(s, cfg, op, peer) + a))
  {
    assert [] + d == d && [] + a == a;
    match op
    case EnqueueOp(_, _, _) => EnqueueInOrder(s, cfg, op, peer, d, a);
    case DequeueOp(p, now) => DequeueInOrder(s, cfg, p, now, peer, d, a);
    case PruneOp(now) => PruneInOrder(s, cfg, now, peer, d, a);
    case ClearOp(_) =>
      assert QueueFor(Step(s, cfg, op), peer) == [];
      SubsequenceOfTail(d, QueueFor(s, peer), a);
  }

  lemma EnqueueInOrder(
      s: Store, cfg: Settings, op: Op, peer: string, d: seq<QueuedPacket>, a: seq<QueuedPacket>)
    requires s.queues.Valid() && op.EnqueueOp? && Subsequence(d, QueueFor(Step(s, cfg, op), peer) + a)
    ensures Subsequence(DeliveredNow(s, cfg, op, peer) + d, QueueFor(s, peer) + (AcceptedNow(s, cfg, op, peer) + a))
  {
    assert [] + d == d;
    EnqueueMovesQueue(s, cfg, op.peer, op.packet, op.now, peer);
    MovedKeepsOrder(QueueFor(s, peer), QueueFor(Step(s, cfg, op), peer), AcceptedNow(s, cfg, op, peer), d, a);
  }

  lemma PruneInOrder(
      s: Store, cfg: Settings, now: real, peer: string, d: seq<QueuedPacket>, a: seq<QueuedPacket>)
    requires s.queues.Valid() && Subsequence(d, QueueFor(Prune(s, cfg, now).store, peer) + a)
    ensures Subsequence(d, QueueFor(s, peer) + a)
  {
    var t := Prune(s, cfg, now).store;
    PruneShrinks(s, cfg, now);
    assert IsSuffix(QueueFor(t, peer), QueueFor(s, peer));
    SuffixMoved(QueueFor(s, peer), QueueFor(t, peer));
    var none: seq<QueuedPacket> := [];
    MovedKeepsOrder(QueueFor(s, peer), QueueFor(t, peer), none, d, a);
    assert none + a == a;
  }

  lemma DequeueInOrder(
      s: Store, cfg: Settings, p: string, now: real, peer: string, d: seq<QueuedPacket>, a: seq<QueuedPacket>)
    requires s.queues.Valid() && Subsequence(d, QueueFor(Dequeue(s, p), peer) + a)
    ensures Subsequence(DeliveredNow(s, cfg, DequeueOp(p, now), peer) + d, QueueFor(s, peer) + a)
  {
    assert [] + d == d && [] + a == a;
    if p == peer {
      DequeueTakesQueue(s, peer);
      FilterIsSubsequence(cfg, QueueFor(s, peer), now, false);
      SubsequenceConcat(Filter(cfg, QueueFor(s, peer), now, false), QueueFor(s, peer), d, a);
    } else {
      DequeueLeavesOthers(s, p, peer);
    }
  }

  /** First in, first out: what a peer is handed over in a run comes, in that order, out of what was queued for it at
      the start and then accepted for it. */
  lemma {:induction false} FirstInFirstOut(s: Store, cfg: Settings, ops: seq<Op>, peer: string)
    requires s.queues.Valid()
    ensures Subsequence(DeliveredTo(s, cfg, ops, peer), QueueFor(s, peer) + AcceptedFor(s, cfg, ops, peer))
    decreases ops
  {
    if ops != [] {
      var t := Step(s, cfg, ops[0]);
      FirstInFirstOut(t, cfg, ops[1..], peer);
      StepInOrder(s, cfg, ops[0], peer, DeliveredTo(t, cfg, ops[1..], peer), AcceptedFor(t, cfg, ops[1..], peer));
    }
  }

  lemma DequeueTakesQueue(s: Store, peer: string)
    requires s.queues.Valid()
    ensures QueueFor(Dequeue(s, peer), peer) == []
  {}

  lemma DequeueLeavesOthers(s: Store, peer: string, other: string)
    requires s.queues.Valid() && other != peer
    ensures QueueFor(Dequeue(s, peer), other) == QueueFor(s, other)
  {}

  lemma MovedKeepsOrder(
      before: seq<QueuedPacket>, after: seq<QueuedPacket>, accepted: seq<QueuedPacket>,
      d: seq<QueuedPacket>, a: seq<QueuedPacket>)
    requires QueueMoved(before, after, accepted) && Subsequence(d, after + a)
    ensures Subsequence(d, before + (accepted + a))
  {
    var tail :| IsSuffix(tail, before) && (after == tail + accepted || after == tail == []);
    var front := before[..|before| - |tail|];
    assert before == front + tail;
    if after == tail + accepted {
      SubsequenceOfTail(d, front, after + a);
      assert front + (after + a) == before + (accepted + a);
    } else {
      assert after + a == a;
      SubsequenceOfTail(d, before + accepted, a);
      assert before + accepted + a == before + (accepted + a);
    }
  }

  // ---- the caps ----

  /** The caps, and the order of time in every queue. */
  ghost predicate Kept(s: Store, cfg: Settings, clock: real) {
    && Sound(s) && s.packets <= cfg.maxTotalPackets && s.bytes <= cfg.maxTotalBytes
    && QueuesKept(s, cfg, clock)
  }

  ghost predicate QueuesKept(s: Store, cfg: Settings, clock: real) {
    forall k :: QueueKept(QueueFor(s, k), cfg, clock)
  }

  ghost predicate QueueKept(items: seq<QueuedPacket>, cfg: Settings, clock: real) {
    && Sorted(items) && (items == [] || |items| <= cfg.maxPerPeer)
    && forall i :: 0 <= i < |items| ==>
         items[i].enqueuedAt <= clock && items[i].byteSize == |items[i].packet.payload| + 32
  }

  /** The clock does not run back, and every eviction loop of the run comes to an end. */
  ghost predicate Possible(s: Store, cfg: Settings, ops: seq<Op>, clock: real)
    requires s.queues.Valid()
    decreases ops
  {
    ops == [] ||
    (&& clock <= ops[0].now
     && (ops[0].EnqueueOp? ==>
           var size := Item(ops[0].packet, ops[0].now).byteSize;
           size > cfg.maxTotalBytes || RoomFor(s, cfg, size))
     && Possible(Step(s, cfg, ops[0]), cfg, ops[1..], ops[0].now))
  }

  lemma ShrunkKeepsQueues(s: Store, t: Store, cfg: Settings, clock: real)
    requires QueuesKept(s, cfg, clock) && Shrunk(s, t)
    ensures QueuesKept(t, cfg, clock)
  {
    forall k ensures QueueKept(QueueFor(t, k), cfg, clock) {
      var a, b := QueueFor(t, k), QueueFor(s, k);
      assert IsSuffix(a, b) && QueueKept(b, cfg, clock);
    }
  }

  lemma AppendKeepsQueues(s: Store, cfg: Settings, peer: string, x: QueuedPacket, clock: real)
    requires QueuesKept(s, cfg, clock) && clock <= x.enqueuedAt && |QueueFor(s, peer)| < cfg.maxPerPeer
    requires x.byteSize == |x.packet.payload| + 32
    ensures QueuesKept(Append(s, peer, x), cfg, x.enqueuedAt)
  {
    forall k ensures QueueKept(QueueFor(Append(s, peer, x), k), cfg, x.enqueuedAt) {
      assert QueueKept(QueueFor(s, k), cfg, clock);
    }
  }

  lemma LaterClock(s: Store, cfg: Settings, clock: real, now: real)
    requires QueuesKept(s, cfg, clock) && clock <= now
    ensures QueuesKept(s, cfg, now)
  {
    forall k ensures QueueKept(QueueFor(s, k), cfg, now) {
      assert QueueKept(QueueFor(s, k), cfg, clock);
    }
  }

  lemma EnqueueKeepsQueues(s: Store, cfg: Settings, peer: string, packet: BitchatPacket, now: real, clock: real)
    requires s.queues.Valid() && QueuesKept(s, cfg, clock) && clock <= now
    ensures QueuesKept(Enqueue(s, cfg, peer, packet, now).store, cfg, now)
  {
    var pruned, x := Prune(s, cfg, now).store, Item(packet, now);
    PruneShrinks(s, cfg, now);
    ShrunkKeepsQueues(s, pruned, cfg, clock);
    LaterClock(pruned, cfg, clock, now);
    if x.byteSize > cfg.maxTotalBytes {
    } else if PopsEmpty(s, cfg, peer, now) {
      SetDefaultShrinks(pruned, peer);
      ShrunkKeepsQueues(pruned, WithQueue(pruned, peer), cfg, now);
    } else {
      EnqueueAppendsToKept(s, cfg, peer, packet, now, clock);
    }
  }

  lemma EnqueueAppendsToKept(s: Store, cfg: Settings, peer: string, packet: BitchatPacket, now: real, clock: real)
    requires s.queues.Valid() && QueuesKept(s, cfg, clock) && clock <= now
    requires Item(packet, now).byteSize <= cfg.maxTotalBytes && !PopsEmpty(s, cfg, peer, now)
    ensures QueuesKept(Enqueue(s, cfg, peer, packet, now).store, cfg, now)
  {
    var x, h := Item(packet, now), BeforeEvictions(s, cfg, peer, now);
    UpToEvictions(s, cfg, peer, now);
    ShrunkKeepsQueues(s, h, cfg, clock);
    var made := MakeRoom(h, cfg, x.byteSize).store;
    MakeRoomShrinks(h, cfg, x.byteSize);
    ShrunkKeepsQueues(h, made, cfg, clock);
    EnqueueEnds(s, cfg, peer, packet, now);
    LaterClock(made, cfg, clock, now);
    assert IsSuffix(QueueFor(made, peer), QueueFor(h, peer));
    assert QueueKept(QueueFor(s, peer), cfg, clock);
    SomePlace(s, cfg, peer, now, clock);
    AppendKeepsQueues(made, cfg, peer, x, clock);
  }

  /** Where a packet can be appended, the per-peer cap is at least 1. */
  lemma SomePlace(s: Store, cfg: Settings, peer: string, now: real, clock: real)
    requires s.queues.Valid() && QueuesKept(s, cfg, clock) && !PopsEmpty(s, cfg, peer, now)
    ensures cfg.maxPerPeer > 0
  {
    PruneShrinks(s, cfg, now);
    assert IsSuffix(QueueFor(Prune(s, cfg, now).store, peer), QueueFor(s, peer));
    assert QueueKept(QueueFor(s, peer), cfg, clock);
  }

  /** Pruning brings no counter up. */
  lemma PruneCounts(s: Store, cfg: Settings, now: real)
    requires s.queues.Valid()
    ensures var t := Prune(s, cfg, now).store; SamePhantoms(s, t) && t.packets <= s.packets && t.bytes <= s.bytes
  {
    PruneKeysKeepsPhantoms(s, cfg, now, |s.queues.keys|);
    PruneConserves(Each, s, cfg, now);
    PruneConserves(Size, s, cfg, now);
    WeighNonNegative(Each, Prune(s, cfg, now).gone);
    WeighNonNegative(Size, Prune(s, cfg, now).gone);
  }

  /** The counters after an `enqueue`. */
  lemma EnqueueWithinCaps(s: Store, cfg: Settings, peer: string, packet: BitchatPacket, now: real)
    requires Sound(s) && s.packets <= cfg.maxTotalPackets && s.bytes <= cfg.maxTotalBytes
    requires Item(packet, now).byteSize > cfg.maxTotalBytes || RoomFor(s, cfg, Item(packet, now).byteSize)
    ensures var t := Enqueue(s, cfg, peer, packet, now).store;
            t.packets <= cfg.maxTotalPackets && t.bytes <= cfg.maxTotalBytes
  {
    var x := Item(packet, now);
    if x.byteSize <= cfg.maxTotalBytes && !PopsEmpty(s, cfg, peer, now) {
      UpToEvictions(s, cfg, peer, now);
      MakeRoomFits(BeforeEvictions(s, cfg, peer, now), cfg, x.byteSize);
      EnqueueEnds(s, cfg, peer, packet, now);
    } else {
      PruneCounts(s, cfg, now);
      EnqueueStopsShort(s, cfg, peer, packet, now);
    }
  }

  lemma DequeueKeeps(s: Store, cfg: Settings, peer: string, clock: real, now: real)
    requires Kept(s, cfg, clock) && clock <= now
    ensures var t := Dequeue(s, peer);
            t.packets <= cfg.maxTotalPackets && t.bytes <= cfg.maxTotalBytes && QueuesKept(t, cfg, now)
  {
    WeighNonNegative(Size, QueueFor(s, peer));
    forall k ensures QueueKept(QueueFor(Dequeue(s, peer), k), cfg, now) {
      assert QueueKept(QueueFor(s, k), cfg, clock);
      if k == peer {
        DequeueTakesQueue(s, peer);
      } else {
        DequeueLeavesOthers(s, peer, k);
      }
    }
  }

  lemma PruneKeeps(s: Store, cfg: Settings, clock: real, now: real)
    requires Kept(s, cfg, clock) && clock <= now
    ensures Kept(Prune(s, cfg, now).store, cfg, now)
  {
    PruneCounts(s, cfg, now);
    PruneShrinks(s, cfg, now);
    ShrunkKeepsQueues(s, Prune(s, cfg, now).store, cfg, clock);
    LaterClock(Prune(s, cfg, now).store, cfg, clock, now);
  }

  lemma StepKeeps(s: Store, cfg: Settings, op: Op, clock: real)
    requires Kept(s, cfg, clock) && Possible(s, cfg, [op], clock)
    ensures Kept(Step(s, cfg, op), cfg, op.now)
  {
    if !op.ClearOp? {
      StepCounts(s, cfg, op);
    }
    WeighNonNegative(Size, Entries(s, cfg, op).lost);
    match op
    case EnqueueOp(peer, packet, now) =>
      EnqueueWithinCaps(s, cfg, peer, packet, now);
      EnqueueKeepsQueues(s, cfg, peer, packet, now, clock);
    case DequeueOp(peer, now) =>
      DequeueKeeps(s, cfg, peer, clock, now);
    case PruneOp(now) =>
      PruneKeeps(s, cfg, clock, now);
    case ClearOp(now) =>
      InQueuesNonNegative(Each, s.queues.keys, s.queues.vals);
      InQueuesNonNegative(Size, s.queues.keys, s.queues.vals);
      EmptyKept(cfg, now);
  }

  function LastClock(ops: seq<Op>, clock: real): real {
    if ops == [] then clock else ops[|ops| - 1].now
  }

  /** Over every run with a clock that does not run back, all three caps hold, and every queue is in order of time, so
      that pruning and eviction do find what has expired and what is oldest. */
  lemma {:induction false} CapsHold(s: Store, cfg: Settings, ops: seq<Op>, clock: real)
    requires Kept(s, cfg, clock) && Possible(s, cfg, ops, clock)
    ensures Kept(Run(s, cfg, ops).0, cfg, LastClock(ops, clock))
    decreases ops
  {
    if ops != [] {
      assert Possible(s, cfg, [ops[0]], clock);
      StepKeeps(s, cfg, ops[0], clock);
      CapsHold(Step(s, cfg, ops[0]), cfg, ops[1..], ops[0].now);
    }
  }

  /** What a packet is taken to need: its payload and 32 bytes more. */
  function Need(x: QueuedPacket): int {
    |x.packet.payload| + 32
  }

  lemma {:induction false} NeedIsSize(items: seq<QueuedPacket>, cfg: Settings, clock: real)
    requires forall i :: 0 <= i < |items| ==> items[i].byteSize == |items[i].packet.payload| + 32
    ensures Weigh(Need, items) == Weigh(Size, items)
  {
    if items != [] {
      NeedIsSize(items[1..], cfg, clock);
    }
  }

  lemma {:induction false} NeedIsSizeInQueues(s: Store, cfg: Settings, clock: real, keys: seq<string>)
    requires QueuesKept(s, cfg, clock) && AllIn(keys, s.queues.vals)
    ensures WeighQueues(Need, keys, s.queues.vals) == WeighQueues(Size, keys, s.queues.vals)
  {
    if keys != [] {
      assert QueueKept(QueueFor(s, keys[0]), cfg, clock);
      NeedIsSize(s.queues.vals[keys[0]], cfg, clock);
      NeedIsSizeInQueues(s, cfg, clock, keys[1..]);
    }
  }

  /** So over every run the payloads queued, with 32 bytes for each, stay within the cap on bytes. */
  lemma PayloadsWithinCap(cfg: Settings, ops: seq<Op>, clock: real)
    requires cfg.maxTotalPackets >= 0 && cfg.maxTotalBytes >= 0 && Possible(EMPTY_STORE, cfg, ops, clock)
    ensures var s := Run(EMPTY_STORE, cfg, ops).0;
            s.queues.Valid() && InQueues(Need, s.queues) <= cfg.maxTotalBytes
  {
    EmptyKept(cfg, clock);
    CapsHold(EMPTY_STORE, cfg, ops, clock);
    var s := Run(EMPTY_STORE, cfg, ops).0;
    NeedIsSizeInQueues(s, cfg, LastClock(ops, clock), s.queues.keys);
  }

  lemma EmptyKept(cfg: Settings, clock: real)
    requires cfg.maxTotalPackets >= 0 && cfg.maxTotalBytes >= 0
    ensures Kept(EMPTY_STORE, cfg, clock)
  {}

  /** After any run the eviction loops of an `enqueue` end exactly if the packets lost since the last `clear`, which the
      counters still include, leave room for the new one; as long as none is lost, they always do. */
  lemma EndsExactlyIfLostLeaveRoom(cfg: Settings, ops: seq<Op>, peer: string, packet: BitchatPacket, now: real)
    requires Item(packet, now).byteSize <= cfg.maxTotalBytes
    ensures var s, lost := Run(EMPTY_STORE, cfg, ops).0, StillCounted(EMPTY_STORE, cfg, ops, []);
            var h, size := BeforeEvictions(s, cfg, peer, now), Item(packet, now).byteSize;
            && h.queues.Valid()
            && (LoopsEnd(h, cfg, size) <==>
                  |lost| < cfg.maxTotalPackets && Weigh(Size, lost) + size <= cfg.maxTotalBytes)
            && (lost == [] && cfg.maxTotalPackets >= 1 ==> LoopsEnd(h, cfg, size))
  {
    var s := Run(EMPTY_STORE, cfg, ops).0;
    CountersExactIffNothingLost(cfg, ops);
    UpToEvictions(s, cfg, peer, now);
    LoopsEndExactly(BeforeEvictions(s, cfg, peer, now), cfg, Item(packet, now).byteSize);
  }
}
