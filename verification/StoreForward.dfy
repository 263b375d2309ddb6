/** The store-and-forward queue for peers that are out of reach (src/bitchat/mesh/store_forward.py). */
module StoreForward {
  import opened Wrappers
  import opened Lists
  import opened OrderedDicts
  import opened Packets

  const OVERHEAD := 32  // what a packet is taken to need beside its payload

  datatype QueuedPacket = QueuedPacket(packet: BitchatPacket, enqueuedAt: real, byteSize: nat)

  datatype Settings = Settings(maxTotalPackets: int, maxPerPeer: int, maxTotalBytes: int, packetTtl: real)

  const DEFAULT_SETTINGS := Settings(100, 20, 256 * 1024, 300.0)

  type Queues = OrderedDict<string, seq<QueuedPacket>>

  const NO_QUEUES: Queues := OrderedDict([], map[])

  /** The queues and the two running counters. */
  datatype Store = Store(queues: Queues, packets: int, bytes: int)

  const EMPTY_STORE := Store(NO_QUEUES, 0, 0)

  /** A store after some packets have left it, and those packets in the order they left. */
  datatype Effect = Effect(store: Store, gone: seq<QueuedPacket>)

  // ---- measuring what is queued ----

  function Each(x: QueuedPacket): int {
    1
  }

  function Size(x: QueuedPacket): int {
    x.byteSize
  }

  /** The sum of a measure over a list of packets. */
  function Weigh(f: QueuedPacket -> int, items: seq<QueuedPacket>): int {
    if items == [] then 0 else f(items[0]) + Weigh(f, items[1..])
  }

  predicate AllIn<K(==), V>(keys: seq<K>, vals: map<K, V>) {
    forall k :: k in keys ==> k in vals
  }

  /** The sum over the queues of `keys`. */
  function WeighQueues(f: QueuedPacket -> int, keys: seq<string>, vals: map<string, seq<QueuedPacket>>): int
    requires AllIn(keys, vals)
  {
    if keys == [] then 0 else Weigh(f, vals[keys[0]]) + WeighQueues(f, keys[1..], vals)
  }

  /** The sum over everything queued. */
  function InQueues(f: QueuedPacket -> int, q: Queues): int
    requires AllIn(q.keys, q.vals)
  {
    WeighQueues(f, q.keys, q.vals)
  }

  lemma {:induction false} WeighConcat(f: QueuedPacket -> int, a: seq<QueuedPacket>, b: seq<QueuedPacket>)
    ensures Weigh(f, a + b) == Weigh(f, a) + Weigh(f, b)
  {
    if a == [] {
      assert a + b == b;
    } else {
      assert (a + b)[1..] == a[1..] + b;
      WeighConcat(f, a[1..], b);
    }
  }

  lemma WeighOne(f: QueuedPacket -> int, x: QueuedPacket)
    ensures Weigh(f, [x]) == f(x)
  {
    assert [x][1..] == [];
  }

  lemma WeighSplit(f: QueuedPacket -> int, items: seq<QueuedPacket>, n: nat)
    requires n <= |items|
    ensures Weigh(f, items) == Weigh(f, items[..n]) + Weigh(f, items[n..])
  {
    assert items == items[..n] + items[n..];
    WeighConcat(f, items[..n], items[n..]);
  }

  lemma {:induction false} WeighEach(items: seq<QueuedPacket>)
    ensures Weigh(Each, items) == |items|
  {
    if items != [] {
      WeighEach(items[1..]);
    }
  }

  lemma {:induction false} WeighNonNegative(f: QueuedPacket -> int, items: seq<QueuedPacket>)
    requires f == Each || f == Size
    ensures Weigh(f, items) >= 0
  {
    if items != [] {
      WeighNonNegative(f, items[1..]);
    }
  }

  lemma {:induction false} WeighQueuesSame(
      f: QueuedPacket -> int, keys: seq<string>, vals: map<string, seq<QueuedPacket>>,
      other: map<string, seq<QueuedPacket>>)
    requires AllIn(keys, vals) && AllIn(keys, other) && forall k :: k in keys ==> vals[k] == other[k]
    ensures WeighQueues(f, keys, vals) == WeighQueues(f, keys, other)
  {
    if keys != [] {
      WeighQueuesSame(f, keys[1..], vals, other);
    }
  }

  lemma {:induction false} WeighQueuesPut(
      f: QueuedPacket -> int, keys: seq<string>, vals: map<string, seq<QueuedPacket>>,
      k: string, items: seq<QueuedPacket>)
    requires AllIn(keys, vals) && Distinct(keys) && k in keys
    ensures WeighQueues(f, keys, vals[k := items]) == WeighQueues(f, keys, vals) - Weigh(f, vals[k]) + Weigh(f, items)
  {
    if keys[0] == k {
      WeighQueuesSame(f, keys[1..], vals, vals[k := items]);
    } else {
      WeighQueuesPut(f, keys[1..], vals, k, items);
    }
  }

  lemma {:induction false} WeighQueuesAppend(
      f: QueuedPacket -> int, keys: seq<string>, vals: map<string, seq<QueuedPacket>>,
      k: string, items: seq<QueuedPacket>)
    requires AllIn(keys, vals) && k !in keys
    ensures AllIn(keys + [k], vals[k := items])
    ensures WeighQueues(f, keys + [k], vals[k := items]) == WeighQueues(f, keys, vals) + Weigh(f, items)
  {
    if keys == [] {
      assert [k][1..] == [];
    } else {
      assert (keys + [k])[1..] == keys[1..] + [k];
      WeighQueuesAppend(f, keys[1..], vals, k, items);
    }
  }

  lemma {:induction false} WeighQueuesWithout(
      f: QueuedPacket -> int, keys: seq<string>, vals: map<string, seq<QueuedPacket>>, k: string)
    requires AllIn(keys, vals) && Distinct(keys) && k in keys
    ensures AllIn(Without(keys, k), vals - {k})
    ensures WeighQueues(f, Without(keys, k), vals - {k}) == WeighQueues(f, keys, vals) - Weigh(f, vals[k])
  {
    WithoutMembers(keys, k);
    if keys[0] == k {
      WithoutAbsent(keys[1..], k);
      WeighQueuesSame(f, keys[1..], vals, vals - {k});
    } else {
      WeighQueuesWithout(f, keys[1..], vals, k);
      var rest := Without(keys[1..], k);
      assert ([keys[0]] + rest)[1..] == rest;
    }
  }

  lemma InQueuesPut(f: QueuedPacket -> int, q: Queues, k: string, items: seq<QueuedPacket>)
    requires q.Valid()
    ensures q.Put(k, items).Valid()
    ensures InQueues(f, q.Put(k, items))
            == InQueues(f, q) + Weigh(f, items) - if k in q.vals then Weigh(f, q.vals[k]) else 0
  {
    q.PutValid(k, items);
    if k in q.vals {
      WeighQueuesPut(f, q.keys, q.vals, k, items);
    } else {
      WeighQueuesAppend(f, q.keys, q.vals, k, items);
    }
  }

  lemma InQueuesDelete(f: QueuedPacket -> int, q: Queues, k: string)
    requires q.Valid() && k in q.vals
    ensures q.Delete(k).Valid() && InQueues(f, q.Delete(k)) == InQueues(f, q) - Weigh(f, q.vals[k])
  {
    q.DeleteValid(k);
    WeighQueuesWithout(f, q.keys, q.vals, k);
  }

  // ---- specification ----

  predicate Expired(cfg: Settings, x: QueuedPacket, now: real) {
    now - x.enqueuedAt > cfg.packetTtl
  }

  /** `del self._queues[k]` if that queue is empty. */
  function DropEmpty(q: Queues, k: string): Queues
    requires k in q.vals
  {
    if q.vals[k] == [] then q.Delete(k) else q
  }

  /** A store without the first `n` packets of the queue for `k`. */
  function TakeFront(s: Store, k: string, n: nat): Store
    requires k in s.queues.vals && n <= |s.queues.vals[k]|
  {
    var q := s.queues.vals[k];
    Store(s.queues.Put(k, q[n..]), s.packets - n, s.bytes - Weigh(Size, q[..n]))
  }

  /** How many packets at the head of a queue have expired, up to the first that has not. */
  function ExpiredPrefix(cfg: Settings, q: seq<QueuedPacket>, now: real): (n: nat)
    ensures n <= |q|
  {
    if q == [] || !Expired(cfg, q[0], now) then 0 else 1 + ExpiredPrefix(cfg, q[1..], now)
  }

  /** One round of the loop of `prune_expired`. */
  function PruneKey(s: Store, cfg: Settings, k: string, now: real): Effect {
    if k !in s.queues.vals then Effect(s, [])
    else
      var q := s.queues.vals[k];
      var n := ExpiredPrefix(cfg, q, now);
      var taken := TakeFront(s, k, n);
      Effect(taken.(queues := DropEmpty(taken.queues, k)), q[..n])
  }

  /** `prune_expired`, once it has dealt with the first `n` of the keys it found. */
  function PruneKeys(s: Store, cfg: Settings, now: real, n: nat): (r: Effect)
    requires s.queues.Valid() && n <= |s.queues.keys|
    ensures r.store.queues.Valid()
  {
    if n == 0 then Effect(s, [])
    else
      var r := PruneKeys(s, cfg, now, n - 1);
      var k := s.queues.keys[n - 1];
      PruneKeyKeeps(r.store, cfg, k, now);
      var e := PruneKey(r.store, cfg, k, now);
      Effect(e.store, r.gone + e.gone)
  }

  function Prune(s: Store, cfg: Settings, now: real): (r: Effect)
    requires s.queues.Valid()
    ensures r.store.queues.Valid()
  {
    PruneKeys(s, cfg, now, |s.queues.keys|)
  }

  lemma PruneKeyKeeps(s: Store, cfg: Settings, k: string, now: real)
    requires s.queues.Valid()
    ensures PruneKey(s, cfg, k, now).store.queues.Valid()
    ensures forall l :: l in s.queues.vals && l != k ==> l in PruneKey(s, cfg, k, now).store.queues.vals
  {
    if k in s.queues.vals {
      var q := s.queues.vals[k];
      var put := s.queues.Put(k, q[ExpiredPrefix(cfg, q, now)..]);
      s.queues.PutValid(k, q[ExpiredPrefix(cfg, q, now)..]);
      put.DeleteValid(k);
    }
  }

  /** The keys still to come are in the table. */
  lemma {:induction false} KeysToCome(s: Store, cfg: Settings, now: real, n: nat, i: nat)
    requires s.queues.Valid() && n <= i < |s.queues.keys|
    ensures s.queues.keys[i] in PruneKeys(s, cfg, now, n).store.queues.vals
  {
    if n > 0 {
      KeysToCome(s, cfg, now, n - 1, i);
      DistinctKeys(s.queues.keys);
      PruneKeyKeeps(PruneKeys(s, cfg, now, n - 1).store, cfg, s.queues.keys[n - 1], now);
    }
  }

  /** The key whose queue has the oldest head; of several the first, and none if all queues are empty. */
  function Oldest(q: Queues, n: nat): (r: Option<string>)
    requires n <= |q.keys| && AllIn(q.keys, q.vals)
    ensures r.Some? ==> r.value in q.vals && q.vals[r.value] != []
  {
    if n == 0 then None
    else
      var best := Oldest(q, n - 1);
      var k := q.keys[n - 1];
      if q.vals[k] != []
         && (best == None || q.vals[k][0].enqueuedAt < q.vals[best.value][0].enqueuedAt)
      then Some(k) else best
  }

  /** `_evict_oldest` */
  function Evict(s: Store): Effect
    requires AllIn(s.queues.keys, s.queues.vals)
  {
    match Oldest(s.queues, |s.queues.keys|)
    case None => Effect(s, [])
    case Some(k) =>
      var taken := TakeFront(s, k, 1);
      Effect(taken.(queues := DropEmpty(taken.queues, k)), [s.queues.vals[k][0]])
  }

  /** What the two eviction loops wait for. */
  datatype Ceiling = PacketCeiling(max: int) | ByteCeiling(budget: int)
  {
    predicate Exceeded(s: Store) {
      match this
      case PacketCeiling(max) => s.packets >= max
      case ByteCeiling(budget) => s.bytes > budget && s.packets > 0
    }
  }

  /** Taking packets from the head of a queue takes their measure from the store. */
  lemma TakeFrontTakes(f: QueuedPacket -> int, s: Store, k: string, n: nat)
    requires s.queues.Valid() && k in s.queues.vals && n <= |s.queues.vals[k]|
    ensures var t := TakeFront(s, k, n);
            && t.queues.Valid()
            && InQueues(f, t.queues) == InQueues(f, s.queues) - Weigh(f, s.queues.vals[k][..n])
  {
    InQueuesPut(f, s.queues, k, s.queues.vals[k][n..]);
    WeighSplit(f, s.queues.vals[k], n);
  }

  lemma DropEmptyKeeps(f: QueuedPacket -> int, q: Queues, k: string)
    requires q.Valid() && k in q.vals
    ensures DropEmpty(q, k).Valid() && InQueues(f, DropEmpty(q, k)) == InQueues(f, q)
  {
    if q.vals[k] == [] {
      InQueuesDelete(f, q, k);
    }
  }

  lemma {:induction false} InQueuesNonNegative(
      f: QueuedPacket -> int, keys: seq<string>, vals: map<string, seq<QueuedPacket>>)
    requires AllIn(keys, vals) && (f == Each || f == Size)
    ensures WeighQueues(f, keys, vals) >= 0
  {
    if keys != [] {
      WeighNonNegative(f, vals[keys[0]]);
      InQueuesNonNegative(f, keys[1..], vals);
    }
  }

  lemma EvictTakes(f: QueuedPacket -> int, s: Store)
    requires s.queues.Valid()
    ensures var e := Evict(s);
            && e.store.queues.Valid()
            && InQueues(f, e.store.queues) == InQueues(f, s.queues) - Weigh(f, e.gone)
            && |e.gone| == (if Oldest(s.queues, |s.queues.keys|).Some? then 1 else 0)
  {
    match Oldest(s.queues, |s.queues.keys|)
    case None =>
    case Some(k) =>
      TakeFrontTakes(f, s, k, 1);
      DropEmptyKeeps(f, TakeFront(s, k, 1).queues, k);
      assert s.queues.vals[k][..1] == [s.queues.vals[k][0]];
  }

  lemma EvictShrinks(s: Store)
    requires s.queues.Valid() && Oldest(s.queues, |s.queues.keys|).Some?
    ensures Evict(s).store.queues.Valid()
    ensures 0 <= InQueues(Each, Evict(s).store.queues) < InQueues(Each, s.queues)
  {
    EvictTakes(Each, s);
    var e := Evict(s);
    WeighEach(e.gone);
    InQueuesNonNegative(Each, e.store.queues.keys, e.store.queues.vals);
  }

  /** An eviction loop, up to the point where it ends or finds nothing more to evict. */
  function EvictWhile(s: Store, c: Ceiling): (r: Effect)
    requires s.queues.Valid()
    ensures r.store.queues.Valid()
    decreases InQueues(Each, s.queues)
  {
    if c.Exceeded(s) && Oldest(s.queues, |s.queues.keys|).Some? then
      EvictShrinks(s);
      var e := Evict(s);
      var rest := EvictWhile(e.store, c);
      Effect(rest.store, e.gone + rest.gone)
    else Effect(s, [])
  }

  /** Accepted, refused, or an IndexError out of popping from an empty queue. */
  datatype Answer = Accepted | Rejected | PoppedEmpty

  /** What an `enqueue` does to the store, and to which packets. `lost` has the packet that was accepted into a queue no
      longer in the table. */
  datatype Outcome = Outcome(
    store: Store, answer: Answer, expired: seq<QueuedPacket>, evicted: seq<QueuedPacket>, lost: seq<QueuedPacket>)

  function Item(packet: BitchatPacket, now: real): QueuedPacket {
    QueuedPacket(packet, now, |packet.payload| + OVERHEAD)
  }

  /** `setdefault(peer, deque())` */
  function WithQueue(s: Store, peer: string): Store {
    if peer in s.queues.vals then s else s.(queues := s.queues.Put(peer, []))
  }

  lemma WithQueueKeeps(f: QueuedPacket -> int, s: Store, peer: string)
    requires s.queues.Valid()
    ensures var t := WithQueue(s, peer);
            t.queues.Valid() && peer in t.queues.vals && InQueues(f, t.queues) == InQueues(f, s.queues)
  {
    InQueuesPut(f, s.queues, peer, []);
  }

  /** The per-peer cap: the packets that make way in the peer's own queue, none or one. */
  function OverQuota(s: Store, cfg: Settings, peer: string): (n: nat)
    requires peer in s.queues.vals
    ensures n <= |s.queues.vals[peer]|
  {
    if |s.queues.vals[peer]| >= cfg.maxPerPeer && s.queues.vals[peer] != [] then 1 else 0
  }

  /** The two eviction loops, in turn. */
  function MakeRoom(s: Store, cfg: Settings, size: int): (r: Effect)
    requires s.queues.Valid()
    ensures r.store.queues.Valid()
  {
    var a := EvictWhile(s, PacketCeiling(cfg.maxTotalPackets));
    var b := EvictWhile(a.store, ByteCeiling(cfg.maxTotalBytes - size));
    Effect(b.store, a.gone + b.gone)
  }

  /** The packet goes into the queue taken hold of at the start, whether that is still in the table or not. */
  function Append(s: Store, peer: string, x: QueuedPacket): Store {
    Store(
      if peer in s.queues.vals then s.queues.Put(peer, s.queues.vals[peer] + [x]) else s.queues,
      s.packets + 1, s.bytes + x.byteSize)
  }

  /** `enqueue` from the point where the peer's queue is at hand. */
  function Place(s: Store, cfg: Settings, peer: string, x: QueuedPacket): (r: Outcome)
    requires s.queues.Valid() && peer in s.queues.vals
    ensures r.store.queues.Valid()
  {
    var q := s.queues.vals[peer];
    if |q| >= cfg.maxPerPeer && q == [] then Outcome(s, PoppedEmpty, [], [], [])
    else
      var n := OverQuota(s, cfg, peer);
      TakeFrontTakes(Each, s, peer, n);
      var made := MakeRoom(TakeFront(s, peer, n), cfg, x.byteSize);
      var evicted := q[..n] + made.gone;
      if made.store.bytes + x.byteSize > cfg.maxTotalBytes then Outcome(made.store, Rejected, [], evicted, [])
      else
        AppendKeeps(Each, made.store, peer, x);
        Outcome(Append(made.store, peer, x), Accepted, [], evicted, if peer in made.store.queues.vals then [] else [x])
  }

  lemma AppendKeeps(f: QueuedPacket -> int, s: Store, peer: string, x: QueuedPacket)
    requires s.queues.Valid()
    ensures var t := Append(s, peer, x);
            && t.queues.Valid()
            && InQueues(f, t.queues) == InQueues(f, s.queues) + if peer in s.queues.vals then f(x) else 0
  {
    if peer in s.queues.vals {
      InQueuesPut(f, s.queues, peer, s.queues.vals[peer] + [x]);
      WeighConcat(f, s.queues.vals[peer], [x]);
      WeighOne(f, x);
    }
  }

  /** `enqueue` */
  function Enqueue(s: Store, cfg: Settings, peer: string, packet: BitchatPacket, now: real): (r: Outcome)
    requires s.queues.Valid()
    ensures r.store.queues.Valid()
  {
    var pruned := Prune(s, cfg, now);
    var x := Item(packet, now);
    if x.byteSize > cfg.maxTotalBytes then Outcome(pruned.store, Rejected, pruned.gone, [], [])
    else
      WithQueueKeeps(Each, pruned.store, peer);
      Place(WithQueue(pruned.store, peer), cfg, peer, x).(expired := pruned.gone)
  }

  /** The packets of a list that have, or have not, expired, in order. */
  function Filter(cfg: Settings, items: seq<QueuedPacket>, now: real, expired: bool): seq<QueuedPacket> {
    if items == [] then []
    else
      (if Expired(cfg, items[0], now) == expired then [items[0]] else []) + Filter(cfg, items[1..], now, expired)
  }

  function QueueFor(s: Store, peer: string): seq<QueuedPacket> {
    if peer in s.queues.vals then s.queues.vals[peer] else []
  }

  /** The store after `dequeue_for_peer`, which hands over the packets of the queue that have not expired. */
  function Dequeue(s: Store, peer: string): Store {
    var q := QueueFor(s, peer);
    Store(s.queues.Delete(peer), s.packets - |q|, s.bytes - Weigh(Size, q))
  }

  function PacketsOf(items: seq<QueuedPacket>): seq<BitchatPacket> {
    if items == [] then [] else [items[0].packet] + PacketsOf(items[1..])
  }

  // ---- what the counters claim beyond what is queued ----

  function PhantomPackets(s: Store): int
    requires s.queues.Valid()
  {
    s.packets - InQueues(Each, s.queues)
  }

  function PhantomBytes(s: Store): int
    requires s.queues.Valid()
  {
    s.bytes - InQueues(Size, s.queues)
  }

  /** The eviction loops for a packet of this size end. */
  predicate RoomFor(s: Store, cfg: Settings, size: int)
    requires s.queues.Valid()
  {
    PhantomPackets(s) < cfg.maxTotalPackets && PhantomBytes(s) + size <= cfg.maxTotalBytes
  }

  lemma {:induction false} NoneIsAllEmpty(q: Queues, n: nat)
    requires n <= |q.keys| && AllIn(q.keys, q.vals) && Oldest(q, n) == None
    ensures forall i :: 0 <= i < n ==> q.vals[q.keys[i]] == []
  {
    if n > 0 {
      NoneIsAllEmpty(q, n - 1);
    }
  }

  lemma {:induction false} EmptyWeighsNothing(
      f: QueuedPacket -> int, keys: seq<string>, vals: map<string, seq<QueuedPacket>>)
    requires AllIn(keys, vals) && forall k :: k in keys ==> vals[k] == []
    ensures WeighQueues(f, keys, vals) == 0
  {
    if keys != [] {
      EmptyWeighsNothing(f, keys[1..], vals);
    }
  }

  lemma NothingLeft(f: QueuedPacket -> int, s: Store)
    requires s.queues.Valid() && Oldest(s.queues, |s.queues.keys|) == None
    ensures InQueues(f, s.queues) == 0
  {
    NoneIsAllEmpty(s.queues, |s.queues.keys|);
    EmptyWeighsNothing(f, s.queues.keys, s.queues.vals);
  }

  /** A loop that should go on finds something to evict, given room. */
  lemma SomethingToEvict(s: Store, cfg: Settings, size: int)
    requires s.queues.Valid() && RoomFor(s, cfg, size)
    requires s.packets >= cfg.maxTotalPackets || s.bytes + size > cfg.maxTotalBytes
    ensures Oldest(s.queues, |s.queues.keys|).Some?
  {
    if Oldest(s.queues, |s.queues.keys|).None? {
      NothingLeft(Each, s);
      NothingLeft(Size, s);
    }
  }

  /** Evictions bring the counters down by what they take. */
  lemma EvictKeepsPhantoms(s: Store)
    requires s.queues.Valid()
    ensures var t := Evict(s).store;
            t.queues.Valid() && PhantomPackets(t) == PhantomPackets(s) && PhantomBytes(t) == PhantomBytes(s)
  {
    EvictTakes(Each, s);
    EvictTakes(Size, s);
    WeighEach(Evict(s).gone);
    match Oldest(s.queues, |s.queues.keys|)
    case None =>
    case Some(k) =>
      assert s.queues.vals[k][..1] == [s.queues.vals[k][0]];
  }

  /** The load that has phantoms in it changes only by what leaves the queues. */
  ghost predicate SamePhantoms(s: Store, t: Store) {
    && s.queues.Valid() && t.queues.Valid()
    && PhantomPackets(t) == PhantomPackets(s) && PhantomBytes(t) == PhantomBytes(s)
  }

  lemma TakeFrontKeepsPhantoms(s: Store, k: string, n: nat)
    requires s.queues.Valid() && k in s.queues.vals && n <= |s.queues.vals[k]|
    ensures SamePhantoms(s, TakeFront(s, k, n))
  {
    TakeFrontTakes(Each, s, k, n);
    TakeFrontTakes(Size, s, k, n);
    WeighEach(s.queues.vals[k][..n]);
  }

  lemma PruneKeyKeepsPhantoms(s: Store, cfg: Settings, k: string, now: real)
    requires s.queues.Valid()
    ensures SamePhantoms(s, PruneKey(s, cfg, k, now).store)
  {
    if k in s.queues.vals {
      var n := ExpiredPrefix(cfg, s.queues.vals[k], now);
      TakeFrontKeepsPhantoms(s, k, n);
      DropEmptyKeeps(Each, TakeFront(s, k, n).queues, k);
      DropEmptyKeeps(Size, TakeFront(s, k, n).queues, k);
    }
  }

  lemma {:induction false} PruneKeysKeepsPhantoms(s: Store, cfg: Settings, now: real, n: nat)
    requires s.queues.Valid() && n <= |s.queues.keys|
    ensures SamePhantoms(s, PruneKeys(s, cfg, now, n).store)
  {
    if n > 0 {
      var before := PruneKeys(s, cfg, now, n - 1).store;
      var k := s.queues.keys[n - 1];
      PruneKeysKeepsPhantoms(s, cfg, now, n - 1);
      PruneKeyKeepsPhantoms(before, cfg, k, now);
      assert PruneKeys(s, cfg, now, n).store == PruneKey(before, cfg, k, now).store;
    }
  }

  lemma WithQueueKeepsPhantoms(s: Store, peer: string)
    requires s.queues.Valid()
    ensures SamePhantoms(s, WithQueue(s, peer))
  {
    WithQueueKeeps(Each, s, peer);
    WithQueueKeeps(Size, s, peer);
  }

  lemma TakeNothing(s: Store, k: string)
    requires k in s.queues.vals
    ensures TakeFront(s, k, 0) == s
  {
    assert s.queues.vals[k][0..] == s.queues.vals[k];
    assert s.queues.vals[k := s.queues.vals[k]] == s.queues.vals;
  }

  lemma {:induction false} FilterConcat(
      cfg: Settings, a: seq<QueuedPacket>, b: seq<QueuedPacket>, now: real, expired: bool)
    ensures Filter(cfg, a + b, now, expired) == Filter(cfg, a, now, expired) + Filter(cfg, b, now, expired)
  {
    if a == [] {
      assert a + b == b;
    } else {
      assert (a + b)[1..] == a[1..] + b;
      FilterConcat(cfg, a[1..], b, now, expired);
    }
  }

  lemma {:induction false} PacketsOfConcat(a: seq<QueuedPacket>, b: seq<QueuedPacket>)
    ensures PacketsOf(a + b) == PacketsOf(a) + PacketsOf(b)
  {
    if a == [] {
      assert a + b == b;
    } else {
      assert (a + b)[1..] == a[1..] + b;
      PacketsOfConcat(a[1..], b);
    }
  }

  lemma DeliverOneMore(cfg: Settings, items: seq<QueuedPacket>, x: QueuedPacket, now: real)
    ensures PacketsOf(Filter(cfg, items + [x], now, false))
            == PacketsOf(Filter(cfg, items, now, false)) + if Expired(cfg, x, now) then [] else [x.packet]
  {
    FilterConcat(cfg, items, [x], now, false);
    PacketsOfConcat(Filter(cfg, items, now, false), Filter(cfg, [x], now, false));
    assert [x][1..] == [];
  }

  // ---- the mutable objects ----

  /** A deque, which may outlive its place in the table. */
  class Deque {
    ghost const owner: string
    var items: seq<QueuedPacket>

    constructor (ghost owner: string)
      ensures this.owner == owner && items == []
    {
      this.owner, items := owner, [];
    }

    method PopLeft() returns (x: QueuedPacket)
      requires items != []
      modifies this
      ensures x == old(items[0]) && items == old(items[1..])
    {
      x := items[0];
      items := items[1..];
    }
  }

  class StoreAndForwardQueue {
    const cfg: Settings
    var queues: OrderedDict<string, Deque>
    var currentTotalPackets: int
    var currentTotalBytes: int
    ghost var state: Store  // the object as a value

    ghost function Deques(): set<Deque>
      reads this
    {
      set k | k in queues.vals :: queues.vals[k]
    }

    ghost predicate Agree()
      reads this, Deques()
    {
      && queues.Valid() && state.queues.Valid() && state.queues.keys == queues.keys
      && forall k :: k in queues.vals ==>
           queues.vals[k].owner == k && queues.vals[k].items == state.queues.vals[k]
    }

    ghost predicate Valid()
      reads this, Deques()
    {
      Agree() && currentTotalPackets == state.packets && currentTotalBytes == state.bytes
    }

    constructor (cfg: Settings)
      ensures Valid() && this.cfg == cfg && state == EMPTY_STORE
    {
      this.cfg, queues := cfg, OrderedDict([], map[]);
      currentTotalPackets, currentTotalBytes, state := 0, 0, EMPTY_STORE;
    }

    method Clear()
      modifies this
      ensures Valid() && state == EMPTY_STORE
    {
      queues := OrderedDict([], map[]);
      currentTotalPackets, currentTotalBytes, state := 0, 0, EMPTY_STORE;
    }

    /** The inner loop of `prune_expired`. */
    method PopExpired(queue: Deque, now: real) returns (n: nat)
      modifies queue, `currentTotalPackets, `currentTotalBytes
      ensures n == ExpiredPrefix(cfg, old(queue.items), now) && queue.items == old(queue.items)[n..]
      ensures currentTotalPackets == old(currentTotalPackets) - n
      ensures currentTotalBytes == old(currentTotalBytes) - Weigh(Size, old(queue.items)[..n])
    {
      ghost var all := queue.items;
      n := 0;
      while queue.items != [] && now - queue.items[0].enqueuedAt > cfg.packetTtl
        invariant n <= |all| && queue.items == all[n..]
        invariant n + ExpiredPrefix(cfg, queue.items, now) == ExpiredPrefix(cfg, all, now)
        invariant currentTotalPackets == old(currentTotalPackets) - n
        invariant currentTotalBytes == old(currentTotalBytes) - Weigh(Size, all[..n])
        decreases |queue.items|
      {
        var expired := queue.PopLeft();
        currentTotalPackets := currentTotalPackets - 1;
        currentTotalBytes := currentTotalBytes - expired.byteSize;
        n := n + 1;
        assert all[..n] == all[..n - 1] + [expired];
        WeighConcat(Size, all[..n - 1], [expired]);
        WeighOne(Size, expired);
      }
    }

    /** `if not queue: del self._queues[k]` */
    method DeleteIfEmpty(k: string)
      requires Agree() && k in queues.vals
      modifies `queues, `state
      ensures Agree() && Deques() <= old(Deques())
      ensures state == old(state).(queues := DropEmpty(old(state).queues, k))
      ensures forall l :: l in old(queues).vals ==>
                if l in queues.vals then queues.vals[l] == old(queues).vals[l] else old(queues).vals[l].items == []
    {
      if queues.vals[k].items == [] {
        queues.DeleteValid(k);
        state.queues.DeleteValid(k);
        state := state.(queues := state.queues.Delete(k));
        queues := queues.Delete(k);
      }
    }

    /** One round of the loop of `prune_expired`. */
    method PruneQueue(k: string, now: real) returns (n: nat)
      requires Valid() && k in queues.vals
      modifies this, Deques()
      ensures Valid() && Deques() <= old(Deques())
      ensures state == PruneKey(old(state), cfg, k, now).store && n == |PruneKey(old(state), cfg, k, now).gone|
    {
      n := PopExpired(queues.vals[k], now);
      state.queues.PutValid(k, state.queues.vals[k][n..]);
      state := TakeFront(state, k, n);
      DeleteIfEmpty(k);
    }

    /** The state and the count after the first `i` rounds. */
    ghost predicate PrunedSoFar(start: Store, now: real, i: nat, reached: Store, count: int)
      requires start.queues.Valid() && i <= |start.queues.keys|
    {
      reached == PruneKeys(start, cfg, now, i).store && count == |PruneKeys(start, cfg, now, i).gone|
    }

    lemma NextToPrune(start: Store, now: real, i: nat, reached: Store, count: int)
      requires start.queues.Valid() && i < |start.queues.keys| && PrunedSoFar(start, now, i, reached, count)
      ensures var k := start.queues.keys[i];
              && k in reached.queues.vals
              && PrunedSoFar(start, now, i + 1, PruneKey(reached, cfg, k, now).store,
                             count + |PruneKey(reached, cfg, k, now).gone|)
    {
      KeysToCome(start, cfg, now, i, i);
    }

    method PruneExpired(now: real) returns (count: nat)
      requires Valid()
      modifies this, Deques()
      ensures Valid() && Deques() <= old(Deques())
      ensures state == Prune(old(state), cfg, now).store && count == |Prune(old(state), cfg, now).gone|
    {
      count := 0;
      var keys := queues.keys;
      ghost var start := state;
      for i := 0 to |keys|
        invariant Valid() && Deques() <= old(Deques()) && keys == start.queues.keys
        invariant PrunedSoFar(start, now, i, state, count)
      {
        NextToPrune(start, now, i, state, count);
        var n := PruneQueue(keys[i], now);
        count := count + n;
      }
    }

    /** The search of `_evict_oldest`. */
    method FindOldest() returns (best: Option<string>)
      requires Valid()
      ensures best == Oldest(state.queues, |state.queues.keys|)
    {
      best := None;
      var oldestTime: Option<real> := None;  // infinity
      for i := 0 to |queues.keys|
        invariant best == Oldest(state.queues, i)
        invariant oldestTime == if best.Some? then Some(state.queues.vals[best.value][0].enqueuedAt) else None
      {
        var items := queues.vals[queues.keys[i]].items;
        if items != [] && (oldestTime == None || items[0].enqueuedAt < oldestTime.value) {
          oldestTime := Some(items[0].enqueuedAt);
          best := Some(queues.keys[i]);
        }
      }
    }

    method EvictOldest()
      requires Valid()
      modifies this, Deques()
      ensures Valid() && Deques() <= old(Deques())
      ensures state == Evict(old(state)).store
      ensures forall l :: l in old(queues).vals ==>
                if l in queues.vals then queues.vals[l] == old(queues).vals[l] else old(queues).vals[l].items == []
    {
      var best := FindOldest();
      if best.Some? {
        PopHead(best.value);
        DeleteIfEmpty(best.value);
      }
    }

    /** `popleft` on the queue of a peer, and the counters brought up to date. */
    method PopHead(k: string)
      requires Valid() && k in queues.vals && state.queues.vals[k] != []
      modifies `state, `currentTotalPackets, `currentTotalBytes, queues.vals[k]
      ensures Valid() && state == TakeFront(old(state), k, 1)
    {
      var evicted := queues.vals[k].PopLeft();
      currentTotalPackets := currentTotalPackets - 1;
      currentTotalBytes := currentTotalBytes - evicted.byteSize;
      ghost var q := state.queues.vals[k];
      assert q[..1] == [evicted];
      WeighOne(Size, evicted);
      state.queues.PutValid(k, q[1..]);
      state := TakeFront(state, k, 1);
    }

    /** `queue` is the peer's queue, in the table or, then empty, taken out of it. */
    ghost predicate Holding(peer: string, queue: Deque)
      reads this, queue
    {
      && queue.owner == peer
      && if peer in queues.vals then queues.vals[peer] == queue else queue.items == []
    }

    /** The loop over `max_total_packets`. */
    method EvictForCount(peer: string, queue: Deque, size: int)
      requires Valid() && Holding(peer, queue) && RoomFor(state, cfg, size)
      modifies this, Deques()
      ensures Valid() && Holding(peer, queue) && Deques() <= old(Deques()) && RoomFor(state, cfg, size)
      ensures state == EvictWhile(old(state), PacketCeiling(cfg.maxTotalPackets)).store
    {
      ghost var goal := EvictWhile(state, PacketCeiling(cfg.maxTotalPackets)).store;
      while currentTotalPackets >= cfg.maxTotalPackets
        invariant Valid() && Holding(peer, queue) && Deques() <= old(Deques())
        invariant RoomFor(state, cfg, size) && EvictWhile(state, PacketCeiling(cfg.maxTotalPackets)).store == goal
        decreases InQueues(Each, state.queues)
      {
        SomethingToEvict(state, cfg, size);
        EvictShrinks(state);
        EvictKeepsPhantoms(state);
        EvictOldest();
      }
    }

    /** The loop over `max_total_bytes`. */
    method EvictForBytes(peer: string, queue: Deque, size: int)
      requires Valid() && Holding(peer, queue) && RoomFor(state, cfg, size)
      modifies this, Deques()
      ensures Valid() && Holding(peer, queue) && Deques() <= old(Deques())
      ensures state == EvictWhile(old(state), ByteCeiling(cfg.maxTotalBytes - size)).store
    {
      ghost var goal := EvictWhile(state, ByteCeiling(cfg.maxTotalBytes - size)).store;
      while currentTotalBytes + size > cfg.maxTotalBytes && currentTotalPackets > 0
        invariant Valid() && Holding(peer, queue) && Deques() <= old(Deques())
        invariant RoomFor(state, cfg, size) && EvictWhile(state, ByteCeiling(cfg.maxTotalBytes - size)).store == goal
        decreases InQueues(Each, state.queues)
      {
        SomethingToEvict(state, cfg, size);
        EvictShrinks(state);
        EvictKeepsPhantoms(state);
        EvictOldest();
      }
    }

    /** `setdefault(peer, deque())` */
    method TakeHold(peer: string) returns (queue: Deque)
      requires Valid()
      modifies `queues, `state
      ensures Valid() && state == WithQueue(old(state), peer) && fresh(Deques() - old(Deques()))
      ensures peer in queues.vals && queues.vals[peer] == queue
    {
      if peer in queues.vals {
        return queues.vals[peer];
      }
      queue := new Deque(peer);
      queues.PutValid(peer, queue);
      state.queues.PutValid(peer, []);
      state := WithQueue(state, peer);
      queues := queues.Put(peer, queue);
    }

    /** The per-peer cap; false for the IndexError of popping from an empty queue. */
    method MakeWay(peer: string, queue: Deque) returns (ok: bool)
      requires Valid() && peer in queues.vals && queues.vals[peer] == queue
      modifies `state, `currentTotalPackets, `currentTotalBytes, queue
      ensures Valid() && (ok <==> |old(queue.items)| < cfg.maxPerPeer || old(queue.items) != [])
      ensures state == if ok then TakeFront(old(state), peer, OverQuota(old(state), cfg, peer)) else old(state)
    {
      if |queue.items| >= cfg.maxPerPeer {
        if queue.items == [] {
          return false;
        }
        PopHead(peer);
      } else {
        TakeNothing(state, peer);
      }
      return true;
    }

    /** Both eviction loops. */
    method EvictFor(peer: string, queue: Deque, size: int)
      requires Valid() && Holding(peer, queue) && RoomFor(state, cfg, size)
      modifies this, Deques()
      ensures Valid() && Holding(peer, queue) && Deques() <= old(Deques())
      ensures MadeRoom(old(state), size, state)
    {
      ghost var goal := EvictWhile(
        EvictWhile(state, PacketCeiling(cfg.maxTotalPackets)).store, ByteCeiling(cfg.maxTotalBytes - size)).store;
      assert MadeRoom(state, size, goal);
      EvictForCount(peer, queue, size);
      EvictForBytes(peer, queue, size);
      assert state == goal;
    }

    ghost predicate MadeRoom(before: Store, size: int, after: Store)
      requires before.queues.Valid()
    {
      after == MakeRoom(before, cfg, size).store
    }

    /** The last check, and `append`, to a queue that may no longer be in the table; the counters rise in any case. */
    method PutIn(peer: string, queue: Deque, x: QueuedPacket) returns (answer: Answer)
      requires Valid() && Holding(peer, queue)
      modifies `state, `currentTotalPackets, `currentTotalBytes, queue
      ensures Valid() && answer == if old(state).bytes + x.byteSize > cfg.maxTotalBytes then Rejected else Accepted
      ensures state == if answer == Accepted then Append(old(state), peer, x) else old(state)
    {
      if currentTotalBytes + x.byteSize > cfg.maxTotalBytes {
        return Rejected;
      }
      queue.items := queue.items + [x];
      currentTotalPackets := currentTotalPackets + 1;
      currentTotalBytes := currentTotalBytes + x.byteSize;
      AppendKeeps(Each, state, peer, x);
      state := Append(state, peer, x);
      return Accepted;
    }

    /** `enqueue` from the point where the peer's queue is at hand. */
    method PlaceIn(peer: string, queue: Deque, x: QueuedPacket) returns (answer: Answer)
      requires Valid() && peer in queues.vals && queues.vals[peer] == queue && RoomFor(state, cfg, x.byteSize)
      modifies this, Deques()
      ensures Valid() && Deques() <= old(Deques())
      ensures Placed(old(state), peer, x, state, answer)
    {
      TakeFrontKeepsPhantoms(state, peer, OverQuota(state, cfg, peer));
      var ok := MakeWay(peer, queue);
      if !ok {
        return PoppedEmpty;
      }
      EvictFor(peer, queue, x.byteSize);
      answer := PutIn(peer, queue, x);
    }

    ghost predicate Placed(before: Store, peer: string, x: QueuedPacket, after: Store, answer: Answer)
      requires before.queues.Valid() && peer in before.queues.vals
    {
      after == Place(before, cfg, peer, x).store && answer == Place(before, cfg, peer, x).answer
    }

    /** `enqueue` once the expired packets are gone and the size has passed. */
    method PlaceFor(peer: string, x: QueuedPacket) returns (answer: Answer)
      requires Valid() && RoomFor(state, cfg, x.byteSize)
      modifies this, Deques()
      ensures Valid() && fresh(Deques() - old(Deques()))
      ensures WithQueue(old(state), peer).queues.Valid() && Placed(WithQueue(old(state), peer), peer, x, state, answer)
    {
      WithQueueKeepsPhantoms(state, peer);
      var queue := TakeHold(peer);
      answer := PlaceIn(peer, queue, x);
    }

    /** It returns for as long as what the counters claim beyond the packets really queued leaves room. */
    method EnqueuePacket(peer: string, packet: BitchatPacket, now: real) returns (answer: Answer)
      requires Valid()
      requires Item(packet, now).byteSize > cfg.maxTotalBytes || RoomFor(state, cfg, Item(packet, now).byteSize)
      modifies this, Deques()
      ensures Valid() && fresh(Deques() - old(Deques()))
      ensures state == Enqueue(old(state), cfg, peer, packet, now).store
      ensures answer == Enqueue(old(state), cfg, peer, packet, now).answer
    {
      PruneKeysKeepsPhantoms(state, cfg, now, |state.queues.keys|);
      var _ := PruneExpired(now);
      var size := |packet.payload| + OVERHEAD;
      if size > cfg.maxTotalBytes {
        return Rejected;
      }
      answer := PlaceFor(peer, QueuedPacket(packet, now, size));
    }

    method DequeueForPeer(peer: string, now: real) returns (packets: seq<BitchatPacket>)
      requires Valid()
      modifies this
      ensures Valid() && Deques() <= old(Deques())
      ensures state == Dequeue(old(state), peer)
      ensures packets == PacketsOf(Filter(cfg, QueueFor(old(state), peer), now, false))
    {
      packets := [];
      if peer !in queues.vals {
        WithoutAbsent(queues.keys, peer);
        assert state.queues.vals - {peer} == state.queues.vals;
        return;
      }
      var queue := queues.vals[peer];
      ghost var before := state;
      queues.DeleteValid(peer);
      state.queues.DeleteValid(peer);
      queues, state := queues.Delete(peer), Dequeue(state, peer);
      packets := HandOver(queue.items, now);
      WeighEach(queue.items);
    }

    /** The loop over the queue taken out of the table. */
    method HandOver(items: seq<QueuedPacket>, now: real) returns (packets: seq<BitchatPacket>)
      modifies `currentTotalPackets, `currentTotalBytes
      ensures packets == PacketsOf(Filter(cfg, items, now, false))
      ensures currentTotalPackets == old(currentTotalPackets) - |items|
      ensures currentTotalBytes == old(currentTotalBytes) - Weigh(Size, items)
    {
      packets := [];
      for i := 0 to |items|
        invariant packets == PacketsOf(Filter(cfg, items[..i], now, false))
        invariant currentTotalPackets == old(currentTotalPackets) - i
        invariant currentTotalBytes == old(currentTotalBytes) - Weigh(Size, items[..i])
      {
        currentTotalPackets := currentTotalPackets - 1;
        currentTotalBytes := currentTotalBytes - items[i].byteSize;
        if now - items[i].enqueuedAt <= cfg.packetTtl {
          packets := packets + [items[i].packet];
        }
        assert items[..i + 1] == items[..i] + [items[i]];
        WeighConcat(Size, items[..i], [items[i]]);
        WeighOne(Size, items[i]);
        DeliverOneMore(cfg, items[..i], items[i], now);
      }
      assert items[..|items|] == items;
    }

    method HasPending(peer: string) returns (r: bool)
      requires Valid()
      ensures r <==> QueueFor(state, peer) != []
    {
      return peer in queues.vals && queues.vals[peer].items != [];
    }
  }
}
