/** When the store-and-forward queue accepts a packet and loses it: exactly if making room takes away the whole queue
    the packet is meant for (src/bitchat/mesh/store_forward.py:91, 104-114, 139-140). */
module StoreForwardLoss {
  import opened Wrappers
  import opened Lists
  import opened OrderedDicts
  import opened Packets
  import opened StoreForward
  import opened StoreForwardProperties
  import opened StoreForwardRuns

  // ---- the order of eviction ----

  ghost predicate HeadsFrom(keys: seq<string>, vals: map<string, seq<QueuedPacket>>, t: real)
    requires AllIn(keys, vals)
  {
    forall k :: k in keys ==> vals[k] == [] || vals[k][0].enqueuedAt >= t
  }

  ghost predicate HeadsAfter(keys: seq<string>, vals: map<string, seq<QueuedPacket>>, t: real)
    requires AllIn(keys, vals)
  {
    forall k :: k in keys ==> vals[k] == [] || vals[k][0].enqueuedAt > t
  }

  /** The head of the queue for `k` is younger than none, and older than all heads of earlier keys. */
  ghost predicate First(keys: seq<string>, vals: map<string, seq<QueuedPacket>>, k: string)
    requires AllIn(keys, vals) && k in vals && vals[k] != []
  {
    keys != [] &&
    if keys[0] == k then HeadsFrom(keys[1..], vals, vals[k][0].enqueuedAt)
    else (vals[keys[0]] == [] || vals[keys[0]][0].enqueuedAt > vals[k][0].enqueuedAt) && First(keys[1..], vals, k)
  }

  lemma {:induction false} FirstStays(keys: seq<string>, vals: map<string, seq<QueuedPacket>>, k: string, last: string)
    requires AllIn(keys + [last], vals) && k in vals && vals[k] != [] && AllIn(keys, vals) && First(keys, vals, k)
    requires vals[last] == [] || vals[last][0].enqueuedAt >= vals[k][0].enqueuedAt
    ensures First(keys + [last], vals, k)
  {
    assert (keys + [last])[1..] == keys[1..] + [last];
    if keys[0] != k {
      FirstStays(keys[1..], vals, k, last);
    }
  }

  lemma {:induction false} FirstIsLast(keys: seq<string>, vals: map<string, seq<QueuedPacket>>, last: string)
    requires AllIn(keys + [last], vals) && vals[last] != [] && AllIn(keys, vals)
    requires last !in keys && HeadsAfter(keys, vals, vals[last][0].enqueuedAt)
    ensures First(keys + [last], vals, last)
  {
    if keys == [] {
      assert [last][1..] == [];
    } else {
      assert (keys + [last])[1..] == keys[1..] + [last];
      FirstIsLast(keys[1..], vals, last);
    }
  }

  lemma {:induction false} FirstIsOldest(keys: seq<string>, vals: map<string, seq<QueuedPacket>>, k: string)
    requires AllIn(keys, vals) && k in vals && vals[k] != [] && First(keys, vals, k)
    ensures HeadsFrom(keys, vals, vals[k][0].enqueuedAt) && k in keys
  {
    if keys[0] != k {
      FirstIsOldest(keys[1..], vals, k);
    }
  }

  /** `_evict_oldest` picks the first of the oldest heads. */
  lemma {:induction false} OldestIsFirst(q: Queues, n: nat)
    requires q.Valid() && n <= |q.keys|
    ensures AllIn(q.keys[..n], q.vals)
    ensures match Oldest(q, n)
            case None => forall i :: 0 <= i < n ==> q.vals[q.keys[i]] == []
            case Some(k) => First(q.keys[..n], q.vals, k)
  {
    if n > 0 {
      var last := q.keys[n - 1];
      OldestIsFirst(q, n - 1);
      assert q.keys[..n] == q.keys[..n - 1] + [last];
      DistinctKeys(q.keys);
      match Oldest(q, n - 1)
      case None =>
        if q.vals[last] != [] {
          FirstIsLast(q.keys[..n - 1], q.vals, last);
        }
      case Some(k) =>
        FirstIsOldest(q.keys[..n - 1], q.vals, k);
        if Oldest(q, n) == Some(k) {
          FirstStays(q.keys[..n - 1], q.vals, k, last);
        } else {
          FirstIsLast(q.keys[..n - 1], q.vals, last);
        }
    }
  }

  // ---- what is evicted later than the last packet of a queue ----

  /** The measure of the packets from time `t` on, or after it. */
  function Younger(f: QueuedPacket -> int, items: seq<QueuedPacket>, t: real, strictly: bool): int {
    if items == [] then 0
    else
      (if items[0].enqueuedAt > t || (!strictly && items[0].enqueuedAt == t) then f(items[0]) else 0)
      + Younger(f, items[1..], t, strictly)
  }

  function YoungerQueues(f: QueuedPacket -> int, keys: seq<string>, vals: map<string, seq<QueuedPacket>>, t: real): int
    requires AllIn(keys, vals)
  {
    if keys == [] then 0 else Younger(f, vals[keys[0]], t, false) + YoungerQueues(f, keys[1..], vals, t)
  }

  /** The measure of the packets in other queues that go later than one of time `t` in the queue for `k`: in the queues
      before it those after `t`, in the queues behind it those from `t` on. */
  function Later(f: QueuedPacket -> int, keys: seq<string>, vals: map<string, seq<QueuedPacket>>, k: string, t: real)
    : int
    requires AllIn(keys, vals)
  {
    if keys == [] then 0
    else if keys[0] == k then YoungerQueues(f, keys[1..], vals, t)
    else Younger(f, vals[keys[0]], t, true) + Later(f, keys[1..], vals, k, t)
  }

  function Last(items: seq<QueuedPacket>): QueuedPacket
    requires items != []
  {
    items[|items| - 1]
  }

  /** The measure of what is still in the store when the last packet of the queue for `k` is next to go. */
  function Survivors(f: QueuedPacket -> int, q: Queues, k: string): int
    requires q.Valid() && QueueAt(q, k) != []
  {
    f(Last(QueueAt(q, k))) + Later(f, q.keys, q.vals, k, Last(QueueAt(q, k)).enqueuedAt)
  }

  function QueueAt(q: Queues, k: string): seq<QueuedPacket> {
    if k in q.vals then q.vals[k] else []
  }

  // ---- no more than everything ----

  lemma {:induction false} YoungerAtMost(f: QueuedPacket -> int, items: seq<QueuedPacket>, t: real, strictly: bool)
    requires f == Each || f == Size
    ensures 0 <= Younger(f, items, t, strictly) <= Weigh(f, items)
  {
    if items != [] {
      YoungerAtMost(f, items[1..], t, strictly);
    }
  }

  lemma {:induction false} YoungerQueuesAtMost(
      f: QueuedPacket -> int, keys: seq<string>, vals: map<string, seq<QueuedPacket>>, t: real)
    requires AllIn(keys, vals) && (f == Each || f == Size)
    ensures 0 <= YoungerQueues(f, keys, vals, t) <= WeighQueues(f, keys, vals)
  {
    if keys != [] {
      YoungerAtMost(f, vals[keys[0]], t, false);
      YoungerQueuesAtMost(f, keys[1..], vals, t);
    }
  }

  lemma {:induction false} LaterAtMost(
      f: QueuedPacket -> int, keys: seq<string>, vals: map<string, seq<QueuedPacket>>, k: string, t: real)
    requires AllIn(keys, vals) && k in keys && (f == Each || f == Size)
    ensures Later(f, keys, vals, k, t) + Weigh(f, vals[k]) <= WeighQueues(f, keys, vals)
  {
    if keys[0] == k {
      YoungerQueuesAtMost(f, keys[1..], vals, t);
    } else {
      YoungerAtMost(f, vals[keys[0]], t, true);
      LaterAtMost(f, keys[1..], vals, k, t);
    }
  }

  lemma SurvivorsAtMost(f: QueuedPacket -> int, q: Queues, k: string)
    requires q.Valid() && QueueAt(q, k) != [] && (f == Each || f == Size)
    ensures Survivors(f, q, k) <= InQueues(f, q)
  {
    var items := q.vals[k];
    LaterAtMost(f, q.keys, q.vals, k, Last(items).enqueuedAt);
    WeighSplit(f, items, |items| - 1);
    WeighNonNegative(f, items[..|items| - 1]);
    assert items[|items| - 1..] == [Last(items)];
    WeighOne(f, Last(items));
  }

  // ---- evicting the last packet of a queue: only the survivors are left ----

  lemma {:induction false} YoungerIsAll(f: QueuedPacket -> int, items: seq<QueuedPacket>, t: real, strictly: bool)
    requires forall i :: 0 <= i < |items| ==> items[i].enqueuedAt > t || (!strictly && items[i].enqueuedAt == t)
    ensures Younger(f, items, t, strictly) == Weigh(f, items)
  {
    if items != [] {
      YoungerIsAll(f, items[1..], t, strictly);
    }
  }

  ghost predicate SortedQueues(keys: seq<string>, vals: map<string, seq<QueuedPacket>>)
    requires AllIn(keys, vals)
  {
    forall k :: k in keys ==> Sorted(vals[k])
  }

  lemma YoungerFromHead(f: QueuedPacket -> int, items: seq<QueuedPacket>, t: real, strictly: bool)
    requires Sorted(items)
    requires items == [] || items[0].enqueuedAt > t || (!strictly && items[0].enqueuedAt == t)
    ensures Younger(f, items, t, strictly) == Weigh(f, items)
  {
    YoungerIsAll(f, items, t, strictly);
  }

  lemma {:induction false} YoungerQueuesIsAll(
      f: QueuedPacket -> int, keys: seq<string>, vals: map<string, seq<QueuedPacket>>, t: real)
    requires AllIn(keys, vals) && SortedQueues(keys, vals) && HeadsFrom(keys, vals, t)
    ensures YoungerQueues(f, keys, vals, t) == WeighQueues(f, keys, vals)
  {
    if keys != [] {
      assert keys[0] in keys;
      YoungerFromHead(f, vals[keys[0]], t, false);
      YoungerQueuesIsAll(f, keys[1..], vals, t);
    }
  }

  lemma {:induction false} LaterIsAll(
      f: QueuedPacket -> int, keys: seq<string>, vals: map<string, seq<QueuedPacket>>, k: string)
    requires AllIn(keys, vals) && SortedQueues(keys, vals) && k in vals && vals[k] != [] && First(keys, vals, k)
    ensures Later(f, keys, vals, k, vals[k][0].enqueuedAt) + Weigh(f, vals[k]) == WeighQueues(f, keys, vals)
  {
    if keys[0] == k {
      YoungerQueuesIsAll(f, keys[1..], vals, vals[k][0].enqueuedAt);
    } else {
      YoungerFromHead(f, vals[keys[0]], vals[k][0].enqueuedAt, true);
      LaterIsAll(f, keys[1..], vals, k);
    }
  }

  /** If a queue of one packet is next, the survivors are all there is. */
  lemma LastOneNext(f: QueuedPacket -> int, q: Queues, k: string)
    requires q.Valid() && SortedQueues(q.keys, q.vals) && |QueueAt(q, k)| == 1 && Oldest(q, |q.keys|) == Some(k)
    ensures Survivors(f, q, k) == InQueues(f, q)
  {
    OldestIsFirst(q, |q.keys|);
    assert q.keys[..|q.keys|] == q.keys;
    LaterIsAll(f, q.keys, q.vals, k);
    assert q.vals[k] == [Last(q.vals[k])];
    WeighOne(f, Last(q.vals[k]));
  }

  // ---- any other eviction leaves the survivors as they are ----

  lemma {:induction false} LaterWithoutEmpty(
      f: QueuedPacket -> int, keys: seq<string>, vals: map<string, seq<QueuedPacket>>, k: string, t: real, e: string)
    requires AllIn(keys, vals) && Distinct(keys) && e in keys && e != k && vals[e] == []
    ensures AllIn(Without(keys, e), vals - {e})
    ensures Later(f, Without(keys, e), vals - {e}, k, t) == Later(f, keys, vals, k, t)
  {
    WithoutMembers(keys, e);
    var rest := Without(keys[1..], e);
    if keys[0] == e {
      WithoutAbsent(keys[1..], e);
      LaterSame(f, keys[1..], vals, vals - {e}, k, t);
    } else {
      assert ([keys[0]] + rest)[1..] == rest;
      if keys[0] == k {
        YoungerWithoutEmpty(f, keys[1..], vals, t, e);
      } else {
        LaterWithoutEmpty(f, keys[1..], vals, k, t, e);
      }
    }
  }

  lemma {:induction false} YoungerWithoutEmpty(
      f: QueuedPacket -> int, keys: seq<string>, vals: map<string, seq<QueuedPacket>>, t: real, e: string)
    requires AllIn(keys, vals) && Distinct(keys) && e in keys && vals[e] == []
    ensures AllIn(Without(keys, e), vals - {e})
    ensures YoungerQueues(f, Without(keys, e), vals - {e}, t) == YoungerQueues(f, keys, vals, t)
  {
    WithoutMembers(keys, e);
    var rest := Without(keys[1..], e);
    if keys[0] == e {
      WithoutAbsent(keys[1..], e);
      YoungerQueuesSame(f, keys[1..], vals, vals - {e}, t);
    } else {
      assert ([keys[0]] + rest)[1..] == rest;
      YoungerWithoutEmpty(f, keys[1..], vals, t, e);
    }
  }

  lemma {:induction false} YoungerQueuesSame(
      f: QueuedPacket -> int, keys: seq<string>, vals: map<string, seq<QueuedPacket>>,
      other: map<string, seq<QueuedPacket>>, t: real)
    requires AllIn(keys, vals) && AllIn(keys, other) && forall k :: k in keys ==> vals[k] == other[k]
    ensures YoungerQueues(f, keys, vals, t) == YoungerQueues(f, keys, other, t)
  {
    if keys != [] {
      YoungerQueuesSame(f, keys[1..], vals, other, t);
    }
  }

  lemma {:induction false} LaterSame(
      f: QueuedPacket -> int, keys: seq<string>, vals: map<string, seq<QueuedPacket>>,
      other: map<string, seq<QueuedPacket>>, k: string, t: real)
    requires AllIn(keys, vals) && AllIn(keys, other) && forall l :: l in keys && l != k ==> vals[l] == other[l]
    requires Distinct(keys)
    ensures Later(f, keys, vals, k, t) == Later(f, keys, other, k, t)
  {
    if keys != [] {
      if keys[0] == k {
        YoungerQueuesSame(f, keys[1..], vals, other, t);
      } else {
        LaterSame(f, keys[1..], vals, other, k, t);
      }
    }
  }

  lemma {:induction false} YoungerQueuesDropHead(
      f: QueuedPacket -> int, keys: seq<string>, vals: map<string, seq<QueuedPacket>>, t: real, e: string)
    requires AllIn(keys, vals) && Distinct(keys) && e in keys && vals[e] != [] && vals[e][0].enqueuedAt < t
    ensures YoungerQueues(f, keys, vals[e := vals[e][1..]], t) == YoungerQueues(f, keys, vals, t)
  {
    if keys[0] == e {
      YoungerQueuesSame(f, keys[1..], vals, vals[e := vals[e][1..]], t);
    } else {
      YoungerQueuesDropHead(f, keys[1..], vals, t, e);
    }
  }

  /** The head that is next to go, in another queue, does not count as later. */
  lemma {:induction false} LaterDropHead(
      f: QueuedPacket -> int, keys: seq<string>, vals: map<string, seq<QueuedPacket>>, k: string, t: real, e: string)
    requires AllIn(keys, vals) && Distinct(keys) && e in keys && e != k && vals[e] != [] && First(keys, vals, e)
    requires k in keys && vals[k] != [] && vals[k][0].enqueuedAt <= t
    ensures Later(f, keys, vals[e := vals[e][1..]], k, t) == Later(f, keys, vals, k, t)
  {
    if keys[0] == e {
      LaterSame(f, keys[1..], vals, vals[e := vals[e][1..]], k, t);
    } else if keys[0] == k {
      YoungerQueuesDropHead(f, keys[1..], vals, t, e);
    } else {
      LaterDropHead(f, keys[1..], vals, k, t, e);
    }
  }

  lemma SortedByKey(s: Store)
    requires s.queues.Valid() && AllSorted(s)
    ensures SortedQueues(s.queues.keys, s.queues.vals)
  {
    forall k | k in s.queues.keys ensures Sorted(s.queues.vals[k]) {
      assert Sorted(QueueFor(s, k));
    }
  }

  lemma EvictKeepsSorted(s: Store)
    requires s.queues.Valid() && AllSorted(s)
    ensures AllSorted(Evict(s).store)
  {
    EvictShrinksQueues(s);
    forall k ensures Sorted(QueueFor(Evict(s).store, k)) {
      assert IsSuffix(QueueFor(Evict(s).store, k), QueueFor(s, k)) && Sorted(QueueFor(s, k));
    }
  }

  /** Taking the head of the queue itself, if it is not the last. */
  lemma TakingOwnHead(f: QueuedPacket -> int, q: Queues, k: string)
    requires q.Valid() && |QueueAt(q, k)| > 1
    ensures var r := q.Put(k, q.vals[k][1..]); r.Valid() && Survivors(f, r, k) == Survivors(f, q, k)
  {
    q.PutValid(k, q.vals[k][1..]);
    LaterSame(f, q.keys, q.vals, q.vals[k := q.vals[k][1..]], k, Last(q.vals[k]).enqueuedAt);
  }

  /** Taking the head of another queue, if that is next, and dropping the queue if that was all. */
  lemma TakingOtherHead(f: QueuedPacket -> int, q: Queues, k: string, e: string)
    requires q.Valid() && SortedQueues(q.keys, q.vals) && QueueAt(q, k) != [] && e != k
    requires Oldest(q, |q.keys|) == Some(e)
    ensures var r := DropEmpty(q.Put(e, q.vals[e][1..]), e);
            r.Valid() && QueueAt(r, k) == QueueAt(q, k) && Survivors(f, r, k) == Survivors(f, q, k)
  {
    var t, put := Last(q.vals[k]).enqueuedAt, q.Put(e, q.vals[e][1..]);
    OldestIsFirst(q, |q.keys|);
    assert q.keys[..|q.keys|] == q.keys;
    assert Sorted(q.vals[k]);
    LaterDropHead(f, q.keys, q.vals, k, t, e);
    q.PutValid(e, q.vals[e][1..]);
    if put.vals[e] == [] {
      put.DeleteValid(e);
      LaterWithoutEmpty(f, put.keys, put.vals, k, t, e);
    }
  }

  lemma EvictSpares(f: QueuedPacket -> int, s: Store, k: string)
    requires s.queues.Valid() && AllSorted(s) && QueueFor(s, k) != []
    requires !(Oldest(s.queues, |s.queues.keys|) == Some(k) && |QueueFor(s, k)| == 1)
    ensures var t := Evict(s).store;
            t.queues.Valid() && QueueFor(t, k) != [] && Survivors(f, t.queues, k) == Survivors(f, s.queues, k)
  {
    SortedByKey(s);
    match Oldest(s.queues, |s.queues.keys|)
    case None =>
    case Some(e) =>
      if e == k {
        TakingOwnHead(f, s.queues, k);
      } else {
        TakingOtherHead(f, s.queues, k, e);
      }
  }

  lemma {:induction false} GoneStaysGone(s: Store, c: Ceiling, k: string)
    requires s.queues.Valid() && k !in s.queues.vals
    ensures k !in EvictWhile(s, c).store.queues.vals
    decreases InQueues(Each, s.queues)
  {
    if c.Exceeded(s) && Oldest(s.queues, |s.queues.keys|).Some? {
      EvictShrinks(s);
      GoneStaysGone(Evict(s).store, c, k);
    }
  }

  lemma {:induction false} EmptyStays(s: Store, c: Ceiling, k: string)
    requires s.queues.Valid() && k in s.queues.vals && s.queues.vals[k] == []
    ensures k in EvictWhile(s, c).store.queues.vals && QueueFor(EvictWhile(s, c).store, k) == []
    decreases InQueues(Each, s.queues)
  {
    if c.Exceeded(s) && Oldest(s.queues, |s.queues.keys|).Some? {
      EvictShrinks(s);
      EmptyStays(Evict(s).store, c, k);
    }
  }

  /** What is left when the last packet for `k` is next is still too much. */
  ghost predicate SurvivorsExceed(s: Store, c: Ceiling, k: string)
    requires s.queues.Valid() && QueueFor(s, k) != []
  {
    match c
    case PacketCeiling(max) => PhantomPackets(s) + Survivors(Each, s.queues, k) >= max
    case ByteCeiling(budget) => PhantomBytes(s) + Survivors(Size, s.queues, k) > budget
  }

  ghost predicate SameSurvivors(s: Store, t: Store, k: string) {
    && s.queues.Valid() && t.queues.Valid() && QueueFor(s, k) != [] && QueueFor(t, k) != []
    && Survivors(Each, t.queues, k) == Survivors(Each, s.queues, k)
    && Survivors(Size, t.queues, k) == Survivors(Size, s.queues, k)
    && SamePhantoms(s, t)
  }

  /** The eviction of the last packet for `k` is reached only if even the survivors are too much. */
  lemma LastOneEvicted(s: Store, c: Ceiling, k: string)
    requires Sound(s) && AllSorted(s) && c.Exceeded(s)
    requires Oldest(s.queues, |s.queues.keys|) == Some(k) && |QueueFor(s, k)| == 1
    ensures SurvivorsExceed(s, c, k) && k !in Evict(s).store.queues.vals
  {
    SortedByKey(s);
    LastOneNext(Each, s.queues, k);
    LastOneNext(Size, s.queues, k);
  }

  lemma EndsWithSurvivors(s: Store, c: Ceiling, k: string)
    requires Sound(s) && QueueFor(s, k) != [] && !c.Exceeded(s)
    ensures !SurvivorsExceed(s, c, k)
  {
    SurvivorsAtMost(Each, s.queues, k);
    SurvivorsAtMost(Size, s.queues, k);
    LaterAtMost(Each, s.queues.keys, s.queues.vals, k, Last(s.queues.vals[k]).enqueuedAt);
    WeighEach(s.queues.vals[k]);
    InQueuesNonNegative(Each, s.queues.keys, s.queues.vals);
    SomePackets(s, k);
  }

  lemma SomePackets(s: Store, k: string)
    requires Sound(s) && QueueFor(s, k) != []
    ensures s.packets > 0
  {
    WeighQueuesPut(Each, s.queues.keys, s.queues.vals, k, []);
    InQueuesNonNegative(Each, s.queues.keys, s.queues.vals[k := []]);
    WeighEach(s.queues.vals[k]);
  }

  /** An eviction loop takes away the queue for `k` exactly if what goes later than its last packet, and that packet,
      are too much by themselves. */
  lemma {:induction false} TakenAwayExactly(s: Store, c: Ceiling, k: string)
    requires Sound(s) && AllSorted(s) && QueueFor(s, k) != []
    ensures var t := EvictWhile(s, c).store;
            && (k in t.queues.vals <==> !SurvivorsExceed(s, c, k))
            && (k in t.queues.vals ==> SameSurvivors(s, t, k) && AllSorted(t))
    decreases InQueues(Each, s.queues)
  {
    if !c.Exceeded(s) {
      EndsWithSurvivors(s, c, k);
    } else if Oldest(s.queues, |s.queues.keys|) == None {
      EvictTakesOldest(s);
      assert false;
    } else {
      EvictShrinks(s);
      if Oldest(s.queues, |s.queues.keys|) == Some(k) && |QueueFor(s, k)| == 1 {
        LastOneEvicted(s, c, k);
        GoneStaysGone(Evict(s).store, c, k);
      } else {
        EvictSpares(Each, s, k);
        EvictSpares(Size, s, k);
        EvictKeepsPhantoms(s);
        EvictKeepsSorted(s);
        TakenAwayExactly(Evict(s).store, c, k);
      }
    }
  }

  /** The same for both loops, one after the other. */
  lemma TakenAwayByEither(s: Store, cfg: Settings, size: int, k: string)
    requires Sound(s) && AllSorted(s) && k in s.queues.vals
    ensures k !in MakeRoom(s, cfg, size).store.queues.vals <==> TakesQueue(s, cfg, size, k)
  {
    var c, d := PacketCeiling(cfg.maxTotalPackets), ByteCeiling(cfg.maxTotalBytes - size);
    var a := EvictWhile(s, c).store;
    EvictWhileEnds(s, c);
    if QueueFor(s, k) == [] {
      EmptyStays(s, c, k);
      EmptyStays(a, d, k);
    } else {
      TakenAwayExactly(s, c, k);
      if k in a.queues.vals {
        TakenAwayExactly(a, d, k);
      } else {
        GoneStaysGone(a, d, k);
      }
    }
  }

  /** The queue for `k` has packets, and these of the store that are evicted no sooner than the last of them leave no
      room for a packet of this size. */
  ghost predicate TakesQueue(s: Store, cfg: Settings, size: int, k: string)
    requires s.queues.Valid()
  {
    QueueFor(s, k) != [] &&
    (|| PhantomPackets(s) + Survivors(Each, s.queues, k) >= cfg.maxTotalPackets
     || PhantomBytes(s) + Survivors(Size, s.queues, k) + size > cfg.maxTotalBytes)
  }

  /** A packet that `enqueue` accepts is lost exactly if, before any eviction, the peer has packets queued and those
      that are evicted no sooner than its last one leave no room for the new one. */
  lemma LostExactly(s: Store, cfg: Settings, peer: string, packet: BitchatPacket, now: real)
    requires Sound(s) && AllSorted(s) && RoomFor(s, cfg, Item(packet, now).byteSize)
    requires Item(packet, now).byteSize <= cfg.maxTotalBytes && !PopsEmpty(s, cfg, peer, now)
    ensures var h := BeforeEvictions(s, cfg, peer, now);
            && h.queues.Valid() && Enqueue(s, cfg, peer, packet, now).answer == Accepted
            && (Enqueue(s, cfg, peer, packet, now).lost != [] <==> TakesQueue(h, cfg, Item(packet, now).byteSize, peer))
  {
    var h := BeforeEvictions(s, cfg, peer, now);
    UpToEvictions(s, cfg, peer, now);
    SortedAgain(s, h);
    EnqueueEnds(s, cfg, peer, packet, now);
    MakeRoomFits(h, cfg, Item(packet, now).byteSize);
    TakenAwayByEither(h, cfg, Item(packet, now).byteSize, peer);
  }

  lemma SortedAgain(s: Store, t: Store)
    requires AllSorted(s) && Shrunk(s, t)
    ensures AllSorted(t)
  {
    forall k ensures Sorted(QueueFor(t, k)) {
      assert IsSuffix(QueueFor(t, k), QueueFor(s, k)) && Sorted(QueueFor(s, k));
    }
  }
}
