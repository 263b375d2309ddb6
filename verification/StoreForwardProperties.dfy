/** What the store-and-forward queue guarantees, over every run of its operations. */
module StoreForwardProperties {
  import opened Wrappers
  import opened Lists
  import opened OrderedDicts
  import opened Packets
  import opened StoreForward

  // ---- how queues shrink ----

  ghost predicate IsSuffix(a: seq<QueuedPacket>, b: seq<QueuedPacket>) {
    |a| <= |b| && a == b[|b| - |a|..]
  }

  /** Every queue of `t` is what is left of the queue of `s` after taking packets from its head. */
  ghost predicate Shrunk(s: Store, t: Store) {
    forall k {:trigger QueueFor(t, k)} :: IsSuffix(QueueFor(t, k), QueueFor(s, k))
  }

  lemma SuffixTransitive(a: seq<QueuedPacket>, b: seq<QueuedPacket>, c: seq<QueuedPacket>)
    requires IsSuffix(a, b) && IsSuffix(b, c)
    ensures IsSuffix(a, c)
  {}

  lemma ShrunkTransitive(s: Store, t: Store, u: Store)
    requires Shrunk(s, t) && Shrunk(t, u)
    ensures Shrunk(s, u)
  {
    forall k ensures IsSuffix(QueueFor(u, k), QueueFor(s, k)) {
      SuffixTransitive(QueueFor(u, k), QueueFor(t, k), QueueFor(s, k));
    }
  }

  lemma TakeFrontShrinks(s: Store, k: string, n: nat)
    requires k in s.queues.vals && n <= |s.queues.vals[k]|
    ensures Shrunk(s, TakeFront(s, k, n))
    ensures forall l :: QueueFor(TakeFront(s, k, n), l) == if l == k then QueueFor(s, k)[n..] else QueueFor(s, l)
  {}

  lemma DropEmptyChangesNoQueue(s: Store, k: string)
    requires k in s.queues.vals
    ensures var t := s.(queues := DropEmpty(s.queues, k));
            forall l :: QueueFor(t, l) == QueueFor(s, l)
  {}

  lemma PruneKeyShrinks(s: Store, cfg: Settings, k: string, now: real)
    ensures Shrunk(s, PruneKey(s, cfg, k, now).store)
    ensures OnlyPruned(s, PruneKey(s, cfg, k, now).store, cfg, k, now)
  {
    if k in s.queues.vals {
      var n := ExpiredPrefix(cfg, s.queues.vals[k], now);
      TakeFrontShrinks(s, k, n);
      DropEmptyChangesNoQueue(TakeFront(s, k, n), k);
    }
  }

  lemma EvictShrinksQueues(s: Store)
    requires s.queues.Valid()
    ensures Shrunk(s, Evict(s).store)
  {
    match Oldest(s.queues, |s.queues.keys|)
    case None =>
    case Some(k) =>
      TakeFrontShrinks(s, k, 1);
      DropEmptyChangesNoQueue(TakeFront(s, k, 1), k);
  }

  lemma {:induction false} EvictWhileShrinks(s: Store, c: Ceiling)
    requires s.queues.Valid()
    ensures Shrunk(s, EvictWhile(s, c).store)
    decreases InQueues(Each, s.queues)
  {
    if c.Exceeded(s) && Oldest(s.queues, |s.queues.keys|).Some? {
      EvictShrinks(s);
      EvictShrinksQueues(s);
      EvictWhileShrinks(Evict(s).store, c);
      ShrunkTransitive(s, Evict(s).store, EvictWhile(Evict(s).store, c).store);
    }
  }

  // ---- pruning removes exactly what has expired ----

  ghost predicate Sorted(items: seq<QueuedPacket>) {
    forall i, j :: 0 <= i < j < |items| ==> items[i].enqueuedAt <= items[j].enqueuedAt
  }

  lemma {:induction false} NoneExpired(cfg: Settings, items: seq<QueuedPacket>, now: real)
    requires forall x :: x in items ==> !Expired(cfg, x, now)
    ensures Filter(cfg, items, now, false) == items && Filter(cfg, items, now, true) == []
  {
    if items != [] {
      assert items[0] in items;
      NoneExpired(cfg, items[1..], now);
    }
  }

  /** In a queue in order of time the expired packets are the ones up to the first that has not expired. */
  lemma {:induction false} ExpiredComeFirst(cfg: Settings, items: seq<QueuedPacket>, now: real)
    requires Sorted(items)
    ensures var n := ExpiredPrefix(cfg, items, now);
            items[..n] == Filter(cfg, items, now, true) && items[n..] == Filter(cfg, items, now, false)
  {
    if items != [] {
      if Expired(cfg, items[0], now) {
        ExpiredComeFirst(cfg, items[1..], now);
        var n := ExpiredPrefix(cfg, items[1..], now);
        assert items[..n + 1] == [items[0]] + items[1..][..n];
        assert items[n + 1..] == items[1..][n..];
      } else {
        NoneExpired(cfg, items, now);
      }
    }
  }

  /** `u` is `t` with the queue for `k` cut down to what has not expired. */
  ghost predicate OnlyPruned(t: Store, u: Store, cfg: Settings, k: string, now: real) {
    forall l :: QueueFor(u, l)
                == if l == k then QueueFor(t, k)[ExpiredPrefix(cfg, QueueFor(t, k), now)..] else QueueFor(t, l)
  }

  lemma PruneKeyAt(s: Store, cfg: Settings, k: string, now: real, l: string)
    ensures QueueFor(PruneKey(s, cfg, k, now).store, l)
            == if l == k then QueueFor(s, k)[ExpiredPrefix(cfg, QueueFor(s, k), now)..] else QueueFor(s, l)
  {
    PruneKeyShrinks(s, cfg, k, now);
  }

  lemma PruneKeysStep(s: Store, cfg: Settings, now: real, n: nat)
    requires s.queues.Valid() && n < |s.queues.keys|
    ensures var before := PruneKeys(s, cfg, now, n);
            var e := PruneKey(before.store, cfg, s.queues.keys[n], now);
            PruneKeys(s, cfg, now, n + 1) == Effect(e.store, before.gone + e.gone)
  {}

  lemma PruneKeysNext(s: Store, cfg: Settings, now: real, n: nat, k: string)
    requires s.queues.Valid() && n < |s.queues.keys|
    ensures var q := QueueFor(PruneKeys(s, cfg, now, n).store, k);
            QueueFor(PruneKeys(s, cfg, now, n + 1).store, k)
            == if k == s.queues.keys[n] then q[ExpiredPrefix(cfg, q, now)..] else q
  {
    PruneKeysStep(s, cfg, now, n);
    PruneKeyAt(PruneKeys(s, cfg, now, n).store, cfg, s.queues.keys[n], now, k);
  }

  /** After the first `n` rounds the queue for `k` is cut down if `k` is one of the first `n` keys, and untouched
      otherwise. */
  lemma {:induction false} PruneKeysAt(s: Store, cfg: Settings, now: real, n: nat, k: string)
    requires s.queues.Valid() && n <= |s.queues.keys|
    ensures QueueFor(PruneKeys(s, cfg, now, n).store, k)
            == if k in s.queues.keys[..n] then QueueFor(s, k)[ExpiredPrefix(cfg, QueueFor(s, k), now)..]
               else QueueFor(s, k)
  {
    if n > 0 {
      PruneKeysAt(s, cfg, now, n - 1, k);
      PruneKeysNext(s, cfg, now, n - 1, k);
      KeysUpTo(s.queues.keys, n, k);
    }
  }

  lemma KeysUpTo(keys: seq<string>, n: nat, k: string)
    requires Distinct(keys) && 0 < n <= |keys|
    ensures k in keys[..n] <==> k in keys[..n - 1] || k == keys[n - 1]
    ensures keys[n - 1] !in keys[..n - 1]
  {
    DistinctKeys(keys);
    assert keys[..n] == keys[..n - 1] + [keys[n - 1]];
  }

  /** `prune_expired` cuts every queue down. */
  lemma PruneAt(s: Store, cfg: Settings, now: real, k: string)
    requires s.queues.Valid()
    ensures QueueFor(Prune(s, cfg, now).store, k) == QueueFor(s, k)[ExpiredPrefix(cfg, QueueFor(s, k), now)..]
  {
    PruneKeysAt(s, cfg, now, |s.queues.keys|, k);
    assert s.queues.keys[..|s.queues.keys|] == s.queues.keys;
  }

  ghost predicate AllSorted(s: Store) {
    forall k :: Sorted(QueueFor(s, k))
  }

  /** Which packets have expired: those that are older than the time to live. */
  lemma {:induction false} FilterMembers(
      cfg: Settings, items: seq<QueuedPacket>, now: real, expired: bool, x: QueuedPacket)
    ensures x in Filter(cfg, items, now, expired) <==>
            x in items && (expired <==> now - x.enqueuedAt > cfg.packetTtl)
  {
    if items != [] {
      FilterMembers(cfg, items[1..], now, expired, x);
    }
  }

  /** `prune_expired`, on queues in order of time, leaves exactly the packets that have not expired, in their order. */
  lemma PruneRemovesExactlyExpired(s: Store, cfg: Settings, now: real)
    requires s.queues.Valid() && AllSorted(s)
    ensures forall k :: QueueFor(Prune(s, cfg, now).store, k) == Filter(cfg, QueueFor(s, k), now, false)
  {
    forall k ensures QueueFor(Prune(s, cfg, now).store, k) == Filter(cfg, QueueFor(s, k), now, false) {
      ExpiredComeFirst(cfg, QueueFor(s, k), now);
      PruneAt(s, cfg, now, k);
    }
  }

  /** That is: those queued for no longer than the time to live. */
  lemma PruneKeepsExactlyFresh(s: Store, cfg: Settings, now: real, k: string, x: QueuedPacket)
    requires s.queues.Valid() && AllSorted(s)
    ensures x in QueueFor(Prune(s, cfg, now).store, k) <==> x in QueueFor(s, k) && now - x.enqueuedAt <= cfg.packetTtl
  {
    PruneRemovesExactlyExpired(s, cfg, now);
    FilterMembers(cfg, QueueFor(s, k), now, false, x);
  }

  /** A peer is handed exactly the packets queued for it for no longer than the time to live, in their order. */
  lemma HandsOverExactlyFresh(s: Store, cfg: Settings, peer: string, now: real, x: QueuedPacket)
    requires s.queues.Valid()
    ensures x in Filter(cfg, QueueFor(s, peer), now, false) <==>
            x in QueueFor(s, peer) && now - x.enqueuedAt <= cfg.packetTtl
  {
    FilterMembers(cfg, QueueFor(s, peer), now, false, x);
  }

  lemma PruneShrinks(s: Store, cfg: Settings, now: real)
    requires s.queues.Valid()
    ensures Shrunk(s, Prune(s, cfg, now).store)
  {
    forall k ensures IsSuffix(QueueFor(Prune(s, cfg, now).store, k), QueueFor(s, k)) {
      PruneAt(s, cfg, now, k);
    }
  }

  // ---- eviction takes the oldest ----

  lemma {:induction false} OldestHead(q: Queues, n: nat)
    requires n <= |q.keys| && AllIn(q.keys, q.vals) && Oldest(q, n).Some?
    ensures forall i :: 0 <= i < n ==>
              var items := q.vals[q.keys[i]];
              items == [] || q.vals[Oldest(q, n).value][0].enqueuedAt <= items[0].enqueuedAt
  {
    if Oldest(q, n - 1).Some? {
      OldestHead(q, n - 1);
    } else {
      NoneIsAllEmpty(q, n - 1);
    }
  }

  /** What `_evict_oldest` takes is the oldest of all packets queued. */
  lemma EvictTakesOldest(s: Store)
    requires s.queues.Valid() && AllSorted(s)
    ensures Evict(s).gone == [] ==> forall k :: QueueFor(s, k) == []
    ensures Evict(s).gone != [] ==>
              forall k, x :: x in QueueFor(s, k) ==> Evict(s).gone[0].enqueuedAt <= x.enqueuedAt
  {
    var n := |s.queues.keys|;
    match Oldest(s.queues, n)
    case None =>
      NoneIsAllEmpty(s.queues, n);
      forall k ensures QueueFor(s, k) == [] {
        if k in s.queues.keys {
          var i :| 0 <= i < n && s.queues.keys[i] == k;
        }
      }
    case Some(e) =>
      OldestHead(s.queues, n);
      forall k, x | x in QueueFor(s, k) ensures s.queues.vals[e][0].enqueuedAt <= x.enqueuedAt {
        var items := QueueFor(s, k);
        assert k in s.queues.keys;
        var i :| 0 <= i < n && s.queues.keys[i] == k;
        var j :| 0 <= j < |items| && items[j] == x;
        assert Sorted(items);
        assert items[0].enqueuedAt <= items[j].enqueuedAt;
      }
  }

  // ---- every packet is accounted for ----

  lemma {:induction false} EvictWhileConserves(f: QueuedPacket -> int, s: Store, c: Ceiling)
    requires s.queues.Valid()
    ensures var e := EvictWhile(s, c); InQueues(f, s.queues) == InQueues(f, e.store.queues) + Weigh(f, e.gone)
    decreases InQueues(Each, s.queues)
  {
    if c.Exceeded(s) && Oldest(s.queues, |s.queues.keys|).Some? {
      EvictShrinks(s);
      EvictTakes(f, s);
      EvictWhileConserves(f, Evict(s).store, c);
      WeighConcat(f, Evict(s).gone, EvictWhile(Evict(s).store, c).gone);
    }
  }

  lemma PruneKeyConserves(f: QueuedPacket -> int, s: Store, cfg: Settings, k: string, now: real)
    requires s.queues.Valid()
    ensures var e := PruneKey(s, cfg, k, now);
            e.store.queues.Valid() && InQueues(f, s.queues) == InQueues(f, e.store.queues) + Weigh(f, e.gone)
  {
    if k in s.queues.vals {
      var n := ExpiredPrefix(cfg, s.queues.vals[k], now);
      TakeFrontTakes(f, s, k, n);
      DropEmptyKeeps(f, TakeFront(s, k, n).queues, k);
    }
  }

  /** The packets queued are those of `total` less those gone. */
  ghost predicate Accounts(f: QueuedPacket -> int, total: int, e: Effect) {
    e.store.queues.Valid() && total == InQueues(f, e.store.queues) + Weigh(f, e.gone)
  }

  lemma OneRoundAccounts(f: QueuedPacket -> int, total: int, before: Effect, cfg: Settings, k: string, now: real)
    requires Accounts(f, total, before)
    ensures var e := PruneKey(before.store, cfg, k, now); Accounts(f, total, Effect(e.store, before.gone + e.gone))
  {
    PruneKeyConserves(f, before.store, cfg, k, now);
    PruneKeyKeeps(before.store, cfg, k, now);
    WeighConcat(f, before.gone, PruneKey(before.store, cfg, k, now).gone);
  }

  lemma {:induction false} PruneKeysAccounts(f: QueuedPacket -> int, s: Store, cfg: Settings, now: real, n: nat)
    requires s.queues.Valid() && n <= |s.queues.keys|
    ensures Accounts(f, InQueues(f, s.queues), PruneKeys(s, cfg, now, n))
  {
    if n > 0 {
      PruneKeysAccounts(f, s, cfg, now, n - 1);
      OneRoundAccounts(f, InQueues(f, s.queues), PruneKeys(s, cfg, now, n - 1), cfg, s.queues.keys[n - 1], now);
      PruneKeysStep(s, cfg, now, n - 1);
    }
  }

  lemma PruneConserves(f: QueuedPacket -> int, s: Store, cfg: Settings, now: real)
    requires s.queues.Valid()
    ensures var e := Prune(s, cfg, now); InQueues(f, s.queues) == InQueues(f, e.store.queues) + Weigh(f, e.gone)
  {
    PruneKeysAccounts(f, s, cfg, now, |s.queues.keys|);
  }

  lemma MakeRoomConserves(f: QueuedPacket -> int, s: Store, cfg: Settings, size: int)
    requires s.queues.Valid()
    ensures var e := MakeRoom(s, cfg, size); InQueues(f, s.queues) == InQueues(f, e.store.queues) + Weigh(f, e.gone)
  {
    var a := EvictWhile(s, PacketCeiling(cfg.maxTotalPackets));
    var b := EvictWhile(a.store, ByteCeiling(cfg.maxTotalBytes - size));
    EvictWhileConserves(f, s, PacketCeiling(cfg.maxTotalPackets));
    EvictWhileConserves(f, a.store, ByteCeiling(cfg.maxTotalBytes - size));
    WeighConcat(f, a.gone, b.gone);
  }

  /** What an `enqueue` puts in equals what it leaves in the queues and what it removes or loses. */
  ghost predicate Conserves(f: QueuedPacket -> int, s: Store, x: QueuedPacket, out: Outcome)
    requires s.queues.Valid() && out.store.queues.Valid()
  {
    InQueues(f, s.queues) + (if out.answer == Accepted then f(x) else 0)
    == InQueues(f, out.store.queues) + Weigh(f, out.expired) + Weigh(f, out.evicted) + Weigh(f, out.lost)
  }

  lemma PlaceConserves(f: QueuedPacket -> int, s: Store, cfg: Settings, peer: string, x: QueuedPacket)
    requires s.queues.Valid() && peer in s.queues.vals
    ensures Conserves(f, s, x, Place(s, cfg, peer, x))
  {
    var q, n := s.queues.vals[peer], OverQuota(s, cfg, peer);
    TakeFrontTakes(f, s, peer, n);
    MakeRoomConserves(f, TakeFront(s, peer, n), cfg, x.byteSize);
    var made := MakeRoom(TakeFront(s, peer, n), cfg, x.byteSize);
    WeighConcat(f, q[..n], made.gone);
    AppendKeeps(f, made.store, peer, x);
    WeighOne(f, x);
  }

  lemma EnqueuePlaces(s: Store, cfg: Settings, peer: string, packet: BitchatPacket, now: real)
    requires s.queues.Valid() && Item(packet, now).byteSize <= cfg.maxTotalBytes
    requires WithQueue(Prune(s, cfg, now).store, peer).queues.Valid()
    ensures var pruned := Prune(s, cfg, now);
            var placed := Place(WithQueue(pruned.store, peer), cfg, peer, Item(packet, now));
            placed.expired == [] && Enqueue(s, cfg, peer, packet, now) == placed.(expired := pruned.gone)
  {}

  lemma EnqueueConserves(
      f: QueuedPacket -> int, s: Store, cfg: Settings, peer: string, packet: BitchatPacket, now: real)
    requires s.queues.Valid()
    ensures Conserves(f, s, Item(packet, now), Enqueue(s, cfg, peer, packet, now))
  {
    var pruned := Prune(s, cfg, now);
    PruneConserves(f, s, cfg, now);
    if Item(packet, now).byteSize <= cfg.maxTotalBytes {
      WithQueueKeeps(f, pruned.store, peer);
      PlaceConserves(f, WithQueue(pruned.store, peer), cfg, peer, Item(packet, now));
      EnqueuePlaces(s, cfg, peer, packet, now);
    }
  }

  lemma {:induction false} FilterConserves(f: QueuedPacket -> int, cfg: Settings, items: seq<QueuedPacket>, now: real)
    ensures Weigh(f, items) == Weigh(f, Filter(cfg, items, now, false)) + Weigh(f, Filter(cfg, items, now, true))
  {
    if items != [] {
      FilterConserves(f, cfg, items[1..], now);
      var good, bad := Filter(cfg, items[1..], now, false), Filter(cfg, items[1..], now, true);
      WeighOne(f, items[0]);
      WeighConcat(f, [items[0]], good);
      WeighConcat(f, [items[0]], bad);
      assert [] + good == good && [] + bad == bad;
    }
  }

  lemma DequeueConserves(f: QueuedPacket -> int, s: Store, cfg: Settings, peer: string, now: real)
    requires s.queues.Valid()
    ensures var t := Dequeue(s, peer);
            && t.queues.Valid()
            && InQueues(f, s.queues)
               == InQueues(f, t.queues) + Weigh(f, Filter(cfg, QueueFor(s, peer), now, false))
                  + Weigh(f, Filter(cfg, QueueFor(s, peer), now, true))
  {
    FilterConserves(f, cfg, QueueFor(s, peer), now);
    if peer in s.queues.vals {
      InQueuesDelete(f, s.queues, peer);
    } else {
      WithoutAbsent(s.queues.keys, peer);
      assert s.queues.vals - {peer} == s.queues.vals;
    }
  }

  // ---- when the eviction loops end, and what enqueue answers ----

  /** The counters never fall below what is really queued. */
  ghost predicate Sound(s: Store) {
    s.queues.Valid() && PhantomPackets(s) >= 0 && PhantomBytes(s) >= 0
  }

  lemma {:induction false} EvictWhileEnds(s: Store, c: Ceiling)
    requires s.queues.Valid()
    ensures var t := EvictWhile(s, c).store;
            && SamePhantoms(s, t) && t.packets <= s.packets
            && (c.Exceeded(t) ==> Oldest(t.queues, |t.queues.keys|) == None)
    decreases InQueues(Each, s.queues)
  {
    if c.Exceeded(s) && Oldest(s.queues, |s.queues.keys|).Some? {
      EvictShrinks(s);
      EvictKeepsPhantoms(s);
      EvictWhileEnds(Evict(s).store, c);
    }
  }

  /** Without packets there are no bytes. */
  lemma {:induction false} NoPacketsNoBytes(keys: seq<string>, vals: map<string, seq<QueuedPacket>>)
    requires AllIn(keys, vals) && WeighQueues(Each, keys, vals) <= 0
    ensures WeighQueues(Size, keys, vals) == 0
  {
    if keys != [] {
      WeighEach(vals[keys[0]]);
      InQueuesNonNegative(Each, keys[1..], vals);
      NoPacketsNoBytes(keys[1..], vals);
    }
  }

  /** Given room, both loops end, with room for the packet. */
  lemma MakeRoomFits(s: Store, cfg: Settings, size: int)
    requires Sound(s) && RoomFor(s, cfg, size)
    ensures var t := MakeRoom(s, cfg, size).store;
            SamePhantoms(s, t) && t.packets < cfg.maxTotalPackets && t.bytes + size <= cfg.maxTotalBytes
  {
    var a := EvictWhile(s, PacketCeiling(cfg.maxTotalPackets)).store;
    var b := EvictWhile(a, ByteCeiling(cfg.maxTotalBytes - size)).store;
    EvictWhileEnds(s, PacketCeiling(cfg.maxTotalPackets));
    if a.packets >= cfg.maxTotalPackets {
      NothingLeft(Each, a);
    }
    EvictWhileEnds(a, ByteCeiling(cfg.maxTotalBytes - size));
    if b.bytes + size > cfg.maxTotalBytes {
      if b.packets > 0 {
        NothingLeft(Size, b);
      } else {
        NoPacketsNoBytes(b.queues.keys, b.queues.vals);
      }
    }
  }

  /** The store after so many evictions. */
  function EvictTimes(s: Store, n: nat): (t: Store)
    requires s.queues.Valid()
    ensures t.queues.Valid()
    decreases n
  {
    if n == 0 then s
    else
      EvictTakes(Each, s);
      EvictTimes(Evict(s).store, n - 1)
  }

  /** Without room a loop goes on for ever: no number of evictions brings the counters down far enough. */
  lemma {:induction false} StuckForEver(s: Store, c: Ceiling, n: nat)
    requires s.queues.Valid()
    requires match c
             case PacketCeiling(max) => PhantomPackets(s) >= max
             case ByteCeiling(budget) => PhantomPackets(s) > 0 && PhantomBytes(s) > budget
    ensures c.Exceeded(EvictTimes(s, n))
    decreases n
  {
    if n == 0 {
      InQueuesNonNegative(Each, s.queues.keys, s.queues.vals);
      InQueuesNonNegative(Size, s.queues.keys, s.queues.vals);
    } else {
      EvictKeepsPhantoms(s);
      StuckForEver(Evict(s).store, c, n - 1);
    }
  }

  lemma {:induction false} EvictTimesAgain(s: Store, m: nat, n: nat)
    requires s.queues.Valid()
    ensures EvictTimes(EvictTimes(s, m), n) == EvictTimes(s, m + n)
    decreases m
  {
    if m > 0 {
      EvictTakes(Each, s);
      EvictTimesAgain(Evict(s).store, m - 1, n);
    }
  }

  /** A loop evicts some number of times. */
  lemma {:induction false} EvictWhileIsTimes(s: Store, c: Ceiling) returns (n: nat)
    requires s.queues.Valid()
    ensures EvictWhile(s, c).store == EvictTimes(s, n)
    decreases InQueues(Each, s.queues)
  {
    n := 0;
    if c.Exceeded(s) && Oldest(s.queues, |s.queues.keys|).Some? {
      EvictShrinks(s);
      n := EvictWhileIsTimes(Evict(s).store, c);
      n := n + 1;
    }
  }

  /** Some number of evictions ends both eviction loops for a packet of this size. */
  ghost predicate LoopsEnd(s: Store, cfg: Settings, size: int)
    requires s.queues.Valid()
  {
    exists n: nat :: !PacketCeiling(cfg.maxTotalPackets).Exceeded(EvictTimes(s, n))
                     && !ByteCeiling(cfg.maxTotalBytes - size).Exceeded(EvictTimes(s, n))
  }

  lemma RoomEndsLoops(s: Store, cfg: Settings, size: int)
    requires Sound(s) && RoomFor(s, cfg, size)
    ensures LoopsEnd(s, cfg, size)
  {
    var a := EvictWhile(s, PacketCeiling(cfg.maxTotalPackets)).store;
    var m := EvictWhileIsTimes(s, PacketCeiling(cfg.maxTotalPackets));
    var n := EvictWhileIsTimes(a, ByteCeiling(cfg.maxTotalBytes - size));
    EvictTimesAgain(s, m, n);
    MakeRoomFits(s, cfg, size);
    assert EvictTimes(s, m + n) == MakeRoom(s, cfg, size).store;
  }

  /** The eviction loops end exactly if what the counters have too much leaves room. */
  lemma LoopsEndExactly(s: Store, cfg: Settings, size: int)
    requires Sound(s) && size <= cfg.maxTotalBytes && (PhantomPackets(s) == 0 ==> PhantomBytes(s) == 0)
    ensures LoopsEnd(s, cfg, size) <==> RoomFor(s, cfg, size)
  {
    if RoomFor(s, cfg, size) {
      RoomEndsLoops(s, cfg, size);
    } else {
      forall n: nat
        ensures PacketCeiling(cfg.maxTotalPackets).Exceeded(EvictTimes(s, n))
                || ByteCeiling(cfg.maxTotalBytes - size).Exceeded(EvictTimes(s, n))
      {
        if PhantomPackets(s) >= cfg.maxTotalPackets {
          StuckForEver(s, PacketCeiling(cfg.maxTotalPackets), n);
        } else {
          StuckForEver(s, ByteCeiling(cfg.maxTotalBytes - size), n);
        }
      }
    }
  }

  /** The store at the moment the evictions start. */
  function BeforeEvictions(s: Store, cfg: Settings, peer: string, now: real): Store
    requires s.queues.Valid()
  {
    var t := WithQueue(Prune(s, cfg, now).store, peer);
    TakeFront(t, peer, OverQuota(t, cfg, peer))
  }

  /** The per-peer cap makes `enqueue` pop from an empty queue; only a cap below 1 does. */
  predicate PopsEmpty(s: Store, cfg: Settings, peer: string, now: real)
    requires s.queues.Valid()
  {
    cfg.maxPerPeer <= 0 && QueueFor(Prune(s, cfg, now).store, peer) == []
  }

  /** Up to the evictions, packets leave at the heads of the queues, and the peer's queue gets a place to spare. */
  lemma UpToEvictions(s: Store, cfg: Settings, peer: string, now: real)
    requires s.queues.Valid()
    ensures var h := BeforeEvictions(s, cfg, peer, now);
            && SamePhantoms(s, h) && Shrunk(s, h) && peer in h.queues.vals
            && (|QueueFor(s, peer)| <= cfg.maxPerPeer && cfg.maxPerPeer > 0 ==> |QueueFor(h, peer)| < cfg.maxPerPeer)
  {
    var pruned := Prune(s, cfg, now).store;
    PruneShrinks(s, cfg, now);
    PruneKeysKeepsPhantoms(s, cfg, now, |s.queues.keys|);
    FromPruned(pruned, cfg, peer);
    ShrunkTransitive(s, pruned, BeforeEvictions(s, cfg, peer, now));
    assert IsSuffix(QueueFor(pruned, peer), QueueFor(s, peer));
  }

  /** The part of this after pruning. */
  lemma FromPruned(s: Store, cfg: Settings, peer: string)
    requires s.queues.Valid()
    ensures var t := WithQueue(s, peer);
            var h := TakeFront(t, peer, OverQuota(t, cfg, peer));
            && h.queues.Valid() && SamePhantoms(s, h) && Shrunk(s, h) && peer in h.queues.vals
            && (|QueueFor(s, peer)| <= cfg.maxPerPeer && cfg.maxPerPeer > 0 ==> |QueueFor(h, peer)| < cfg.maxPerPeer)
  {
    var t := WithQueue(s, peer);
    var n := OverQuota(t, cfg, peer);
    SetDefaultShrinks(s, peer);
    TakeFrontKeepsPhantoms(t, peer, n);
    TakeFrontShrinks(t, peer, n);
    ShrunkTransitive(s, t, TakeFront(t, peer, n));
    assert IsSuffix(QueueFor(t, peer), QueueFor(s, peer));
  }

  lemma SetDefaultShrinks(s: Store, peer: string)
    requires s.queues.Valid()
    ensures SamePhantoms(s, WithQueue(s, peer)) && Shrunk(s, WithQueue(s, peer))
    ensures peer in WithQueue(s, peer).queues.vals
  {
    WithQueueKeepsPhantoms(s, peer);
  }

  /** The end of an `enqueue` after evictions that left the store `made`. */
  ghost predicate EndsFrom(made: Store, cfg: Settings, peer: string, x: QueuedPacket, out: Outcome) {
    if made.bytes + x.byteSize > cfg.maxTotalBytes
    then out.answer == Rejected && out.store == made && out.lost == []
    else out.answer == Accepted && out.store == Append(made, peer, x)
         && out.lost == if peer in made.queues.vals then [] else [x]
  }

  lemma EnqueueEnds(s: Store, cfg: Settings, peer: string, packet: BitchatPacket, now: real)
    requires s.queues.Valid() && Item(packet, now).byteSize <= cfg.maxTotalBytes && !PopsEmpty(s, cfg, peer, now)
    ensures var x, h := Item(packet, now), BeforeEvictions(s, cfg, peer, now);
            h.queues.Valid()
            && EndsFrom(MakeRoom(h, cfg, x.byteSize).store, cfg, peer, x, Enqueue(s, cfg, peer, packet, now))
  {
    var t := WithQueue(Prune(s, cfg, now).store, peer);
    WithQueueKeepsPhantoms(Prune(s, cfg, now).store, peer);
    TakeFrontKeepsPhantoms(t, peer, OverQuota(t, cfg, peer));
    PlaceEnds(t, cfg, peer, Item(packet, now));
  }

  /** An `enqueue` that does not get as far as evicting. */
  lemma EnqueueStopsShort(s: Store, cfg: Settings, peer: string, packet: BitchatPacket, now: real)
    requires s.queues.Valid() && (Item(packet, now).byteSize > cfg.maxTotalBytes || PopsEmpty(s, cfg, peer, now))
    ensures var out, pruned := Enqueue(s, cfg, peer, packet, now), Prune(s, cfg, now).store;
            && out.answer != Accepted && out.lost == []
            && out.store == if Item(packet, now).byteSize > cfg.maxTotalBytes then pruned else WithQueue(pruned, peer)
  {
    WithQueueKeeps(Each, Prune(s, cfg, now).store, peer);
  }

  lemma PlaceEnds(s: Store, cfg: Settings, peer: string, x: QueuedPacket)
    requires s.queues.Valid() && peer in s.queues.vals && (s.queues.vals[peer] != [] || cfg.maxPerPeer > 0)
    ensures var h := TakeFront(s, peer, OverQuota(s, cfg, peer));
            h.queues.Valid() && EndsFrom(MakeRoom(h, cfg, x.byteSize).store, cfg, peer, x, Place(s, cfg, peer, x))
  {
    TakeFrontKeepsPhantoms(s, peer, OverQuota(s, cfg, peer));
  }

  /** What `enqueue` answers. Given room, a packet is refused only for its own size: the check after the evictions never
      finds the store still too full. */
  lemma AnswersExactly(s: Store, cfg: Settings, peer: string, packet: BitchatPacket, now: real)
    requires Sound(s) && RoomFor(s, cfg, Item(packet, now).byteSize)
    ensures var answer := Enqueue(s, cfg, peer, packet, now).answer;
            && (answer == Rejected <==> Item(packet, now).byteSize > cfg.maxTotalBytes)
            && (answer == PoppedEmpty <==>
                  Item(packet, now).byteSize <= cfg.maxTotalBytes && PopsEmpty(s, cfg, peer, now))
  {
    if Item(packet, now).byteSize <= cfg.maxTotalBytes && !PopsEmpty(s, cfg, peer, now) {
      UpToEvictions(s, cfg, peer, now);
      EnqueueEnds(s, cfg, peer, packet, now);
      MakeRoomFits(BeforeEvictions(s, cfg, peer, now), cfg, Item(packet, now).byteSize);
    }
  }
}
