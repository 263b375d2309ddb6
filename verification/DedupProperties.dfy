/** What the duplicate cache remembers, and for how long. */
module DedupProperties {
  import opened Wrappers
  import opened ByteStrings
  import opened Lists
  import opened OrderedDicts
  import opened Dedup

  /** The calls made on the cache. */
  datatype Event =
    | CheckEvent(id: Bytes, now: real)   // check_and_record
    | RecordEvent(id: Bytes, now: real)  // record
    | QueryEvent(id: Bytes, now: real)   // is_duplicate
    | PruneEvent(now: real)              // prune_expired
    | ClearEvent(now: real)              // clear

  ghost predicate CacheInv(c: Cache, b: Bounds) {
    c.Valid() && |c.keys| <= b.maxEntries
  }

  function Step(c: Cache, b: Bounds, e: Event): Cache
    requires c.Valid()
  {
    match e
    case CheckEvent(id, now) => CheckAndRecord(c, b, id, now).0
    case RecordEvent(id, now) => Record(c, b, id, now)
    case QueryEvent(id, now) => CheckId(c, b, id, now).0
    case PruneEvent(now) => Prune(c, b, now).0
    case ClearEvent(_) => NO_ENTRIES
  }

  /** The id that a call records, if it records one. */
  function RecordedBy(c: Cache, b: Bounds, e: Event): set<Bytes> {
    match e
    case CheckEvent(id, now) => if CheckId(c, b, id, now).1 then {} else {id}
    case RecordEvent(id, now) => {id}
    case _ => {}
  }

  lemma RecordKeepsInvariant(c: Cache, b: Bounds, id: Bytes, now: real)
    requires b.Valid() && CacheInv(c, b)
    ensures CacheInv(Record(c, b, id, now), b)
  {
    if id in c.vals {
      c.DeleteValid(id);
      c.Delete(id).PutValid(id, now);
    } else if |c.keys| >= b.maxEntries {
      c.PopFirstValid();
      c.PopFirst().PutValid(id, now);
    } else {
      c.PutValid(id, now);
    }
  }

  lemma {:induction false} PruneKeepsInvariant(c: Cache, b: Bounds, now: real)
    requires CacheInv(c, b)
    ensures CacheInv(Prune(c, b, now).0, b)
    decreases |c.keys|
  {
    if c.keys != [] && Expired(b, c.vals[c.keys[0]], now) {
      c.PopFirstValid();
      PruneKeepsInvariant(c.PopFirst(), b, now);
    }
  }

  /** The bound on the size holds after every call. */
  lemma StepKeepsInvariant(c: Cache, b: Bounds, e: Event)
    requires b.Valid() && CacheInv(c, b)
    ensures CacheInv(Step(c, b, e), b)
  {
    match e {
      case CheckEvent(id, now) =>
        c.DeleteValid(id);
        RecordKeepsInvariant(CheckId(c, b, id, now).0, b, id, now);
      case RecordEvent(id, now) => RecordKeepsInvariant(c, b, id, now);
      case QueryEvent(id, now) => c.DeleteValid(id);
      case PruneEvent(now) => PruneKeepsInvariant(c, b, now);
      case ClearEvent(_) =>
    }
  }

  // ---- retention ----

  /** `x` was last recorded at `last`, and since then only ids of `others` were. Then it is still there with that
      time and only `others` behind it, unless it expired or `others` fill the cache. */
  ghost predicate Retained(c: Cache, b: Bounds, x: Bytes, last: real, others: set<Bytes>, now: real) {
    if x in c.vals then c.vals[x] == last && After(c.keys, x) <= others
    else |others| >= b.maxEntries || now - last > b.entryTtl
  }

  lemma RecordOther(c: Cache, b: Bounds, id: Bytes, now: real, x: Bytes, last: real, others: set<Bytes>)
    requires b.Valid() && CacheInv(c, b) && id != x && Retained(c, b, x, last, others, now)
    ensures Retained(Record(c, b, id, now), b, x, last, others + {id}, now)
  {
    SubsetSize(others, others + {id});
    if x in c.vals {
      if id in c.vals {
        AfterWithout(c.keys, id, x);
        WithoutMembers(c.keys, id);
        AfterAppend(Without(c.keys, id), id, x);
      } else if |c.keys| >= b.maxEntries {
        if c.keys[0] == x {
          c.AfterFirst();
          assert id !in After(c.keys, x);
          SubsetSize(After(c.keys, x) + {id}, others + {id});
        } else {
          AfterAppend(c.PopFirst().keys, id, x);
        }
      } else {
        AfterAppend(c.keys, id, x);
      }
    }
  }

  lemma DeleteOther(c: Cache, b: Bounds, id: Bytes, x: Bytes, last: real, others: set<Bytes>, now: real)
    requires CacheInv(c, b) && id != x && Retained(c, b, x, last, others, now)
    ensures Retained(c.Delete(id), b, x, last, others, now)
  {
    AfterWithout(c.keys, id, x);
  }

  lemma {:induction false} PruneRetains(c: Cache, b: Bounds, x: Bytes, last: real, others: set<Bytes>, now: real)
    requires CacheInv(c, b) && Retained(c, b, x, last, others, now)
    ensures Retained(Prune(c, b, now).0, b, x, last, others, now)
    decreases |c.keys|
  {
    if c.keys != [] && Expired(b, c.vals[c.keys[0]], now) {
      c.PopFirstValid();
      PruneRetains(c.PopFirst(), b, x, last, others, now);
    }
  }

  /** One call that does not record `x`. */
  lemma StepRetains(c: Cache, b: Bounds, e: Event, x: Bytes, last: real, others: set<Bytes>, before: real)
    requires b.Valid() && CacheInv(c, b) && Retained(c, b, x, last, others, before) && before <= e.now
    requires x !in RecordedBy(c, b, e) && !e.ClearEvent?
    ensures Retained(Step(c, b, e), b, x, last, others + RecordedBy(c, b, e), e.now)
  {
    assert Retained(c, b, x, last, others, e.now);
    assert others + {} == others;
    match e {
      case CheckEvent(id, now) =>
        if id != x {
          c.DeleteValid(id);
          DeleteOther(c, b, id, x, last, others, now);
          if !CheckId(c, b, id, now).1 {
            RecordOther(CheckId(c, b, id, now).0, b, id, now, x, last, others);
          }
        }
      case RecordEvent(id, now) => RecordOther(c, b, id, now, x, last, others);
      case QueryEvent(id, now) =>
        if id != x {
          DeleteOther(c, b, id, x, last, others, now);
        }
      case PruneEvent(now) => PruneRetains(c, b, x, last, others, now);
    }
  }

  function Run(c: Cache, b: Bounds, events: seq<Event>): Cache
    requires b.Valid() && CacheInv(c, b)
    decreases events
  {
    if events == [] then c
    else
      StepKeepsInvariant(c, b, events[0]);
      Run(Step(c, b, events[0]), b, events[1..])
  }

  /** The ids recorded during a run. */
  function RecordedIn(c: Cache, b: Bounds, events: seq<Event>): set<Bytes>
    requires b.Valid() && CacheInv(c, b)
    decreases events
  {
    if events == [] then {}
    else
      StepKeepsInvariant(c, b, events[0]);
      RecordedBy(c, b, events[0]) + RecordedIn(Step(c, b, events[0]), b, events[1..])
  }

  /** The clock does not run backwards. */
  predicate Timely(events: seq<Event>, start: real)
    decreases events
  {
    events == [] || (start <= events[0].now && Timely(events[1..], events[0].now))
  }

  function EndTime(events: seq<Event>, start: real): real {
    if events == [] then start else events[|events| - 1].now
  }

  predicate Cleared(events: seq<Event>) {
    exists i :: 0 <= i < |events| && events[i].ClearEvent?
  }

  lemma {:induction false} RunRetains(
      c: Cache, b: Bounds, events: seq<Event>, x: Bytes, last: real, others: set<Bytes>, start: real)
    requires b.Valid() && CacheInv(c, b) && Timely(events, start)
    requires Retained(c, b, x, last, others, start) && x !in RecordedIn(c, b, events) && !Cleared(events)
    ensures CacheInv(Run(c, b, events), b)
    ensures Retained(Run(c, b, events), b, x, last, others + RecordedIn(c, b, events), EndTime(events, start))
    decreases events
  {
    if events == [] {
      assert others + {} == others;
    } else {
      var e, rest := events[0], events[1..];
      StepKeepsInvariant(c, b, e);
      StepRetains(c, b, e, x, last, others, start);
      var c' := Step(c, b, e);
      RunRetains(c', b, rest, x, last, others + RecordedBy(c, b, e), e.now);
      assert others + RecordedBy(c, b, e) + RecordedIn(c', b, rest) == others + RecordedIn(c, b, events);
    }
  }

  /** Retention: after `x` has been recorded, a later check reports it as new only if its entry has expired, or at least
      `maxEntries` distinct other ids have been recorded in between, or the cache has been cleared. */
  lemma DedupRetention(c: Cache, b: Bounds, x: Bytes, last: real, events: seq<Event>, now: real)
    requires b.Valid() && CacheInv(c, b) && CacheInv(Record(c, b, x, last), b)
    requires Timely(events, last) && EndTime(events, last) <= now
    requires x !in RecordedIn(Record(c, b, x, last), b, events)
    ensures var c1 := Record(c, b, x, last);
            !CheckAndRecord(Run(c1, b, events), b, x, now).1
            ==> now - last > b.entryTtl || |RecordedIn(c1, b, events)| >= b.maxEntries || Cleared(events)
  {
    var c1 := Record(c, b, x, last);
    JustRecorded(c, b, x, last);
    if !Cleared(events) {
      RunRetains(c1, b, events, x, last, {}, last);
      assert {} + RecordedIn(c1, b, events) == RecordedIn(c1, b, events);
    }
  }

  lemma JustRecorded(c: Cache, b: Bounds, x: Bytes, now: real)
    requires b.Valid() && CacheInv(c, b)
    ensures Retained(Record(c, b, x, now), b, x, now, {}, now)
  {
    if x in c.vals {
      WithoutMembers(c.keys, x);
      AfterAppend(Without(c.keys, x), x, x);
    } else if |c.keys| >= b.maxEntries {
      assert x !in c.keys[1..];
      AfterAppend(c.keys[1..], x, x);
    } else {
      AfterAppend(c.keys, x, x);
    }
  }

  // ---- pruning ----

  /** The entries stand in the order of their times. */
  ghost predicate InOrder(keys: seq<Bytes>, vals: map<Bytes, real>)
    requires forall k :: k in keys ==> k in vals
    decreases keys
  {
    keys == [] ||
    ((forall k :: k in keys[1..] ==> vals[keys[0]] <= vals[k]) && InOrder(keys[1..], vals))
  }

  ghost predicate Sorted(c: Cache, now: real)
    requires c.Valid()
  {
    InOrder(c.keys, c.vals) && forall k :: k in c.vals ==> c.vals[k] <= now
  }

  lemma {:induction false} InOrderWithout(keys: seq<Bytes>, vals: map<Bytes, real>, k: Bytes)
    requires (forall j :: j in keys ==> j in vals) && InOrder(keys, vals)
    ensures (forall j :: j in Without(keys, k) ==> j in vals - {k}) && InOrder(Without(keys, k), vals - {k})
    decreases keys
  {
    WithoutMembers(keys, k);
    if keys != [] {
      InOrderWithout(keys[1..], vals, k);
      WithoutMembers(keys[1..], k);
      var rest := Without(keys[1..], k);
      assert ([keys[0]] + rest)[1..] == rest;
    }
  }

  lemma {:induction false} InOrderAppend(keys: seq<Bytes>, vals: map<Bytes, real>, k: Bytes, now: real)
    requires (forall j :: j in keys ==> j in vals && vals[j] <= now) && k !in keys && InOrder(keys, vals)
    ensures (forall j :: j in keys + [k] ==> j in vals[k := now]) && InOrder(keys + [k], vals[k := now])
    decreases keys
  {
    var longer, vals' := keys + [k], vals[k := now];
    if keys == [] {
      assert longer == [k] && longer[1..] == [];
      assert InOrder([], vals');
      assert InOrder(longer, vals');
    } else {
      InOrderAppend(keys[1..], vals, k, now);
      assert longer[1..] == keys[1..] + [k];
      forall j | j in longer[1..] ensures vals'[longer[0]] <= vals'[j] {
        assert longer[0] == keys[0] && keys[0] in keys;
      }
      assert InOrder(longer, vals');
    }
  }

  lemma {:induction false} InOrderDropMap(keys: seq<Bytes>, vals: map<Bytes, real>, gone: Bytes)
    requires (forall j :: j in keys ==> j in vals) && gone !in keys && InOrder(keys, vals)
    ensures InOrder(keys, vals - {gone})
    decreases keys
  {
    if keys != [] {
      InOrderDropMap(keys[1..], vals, gone);
    }
  }

  /** Recording under a clock that does not run backwards keeps the entries in order. */
  lemma RecordKeepsOrder(c: Cache, b: Bounds, id: Bytes, before: real, now: real)
    requires b.Valid() && CacheInv(c, b) && Sorted(c, before) && before <= now
    ensures Record(c, b, id, now).Valid() && Sorted(Record(c, b, id, now), now)
  {
    RecordKeepsInvariant(c, b, id, now);
    if id in c.vals {
      InOrderWithout(c.keys, c.vals, id);
      WithoutMembers(c.keys, id);
      InOrderAppend(Without(c.keys, id), c.vals - {id}, id, now);
    } else if |c.keys| >= b.maxEntries {
      InOrderDropMap(c.keys[1..], c.vals, c.keys[0]);
      assert forall j :: j in c.keys[1..] ==> j in c.keys && j != c.keys[0];
      InOrderAppend(c.keys[1..], c.vals - {c.keys[0]}, id, now);
    } else {
      InOrderAppend(c.keys, c.vals, id, now);
    }
  }

  /** `kept` has exactly those entries of `c` that have not expired. */
  ghost predicate KeepsUnexpired(c: Cache, kept: Cache, b: Bounds, now: real) {
    && (forall k :: k in kept.vals ==> k in c.vals && kept.vals[k] == c.vals[k] && !Expired(b, c.vals[k], now))
    && (forall k :: k in c.vals && !Expired(b, c.vals[k], now) ==> k in kept.vals)
  }

  /** On entries in order, stopping at the first fresh one loses nothing: pruning removes exactly the expired. */
  lemma {:induction false} PruneRemovesExactlyExpired(c: Cache, b: Bounds, now: real)
    requires c.Valid() && InOrder(c.keys, c.vals)
    ensures KeepsUnexpired(c, Prune(c, b, now).0, b, now)
    ensures Prune(c, b, now).1 == |c.keys| - |Prune(c, b, now).0.keys|
    decreases |c.keys|
  {
    if c.keys != [] {
      if Expired(b, c.vals[c.keys[0]], now) {
        c.PopFirstValid();
        InOrderDropMap(c.keys[1..], c.vals, c.keys[0]);
        PruneRemovesExactlyExpired(c.PopFirst(), b, now);
      } else {
        assert forall k :: k in c.keys ==> k == c.keys[0] || k in c.keys[1..];
      }
    }
  }

  // ---- the order over every run ----

  lemma DeleteKeepsOrder(c: Cache, id: Bytes, now: real)
    requires c.Valid() && Sorted(c, now)
    ensures c.Delete(id).Valid() && Sorted(c.Delete(id), now)
  {
    c.DeleteValid(id);
    InOrderWithout(c.keys, c.vals, id);
  }

  lemma {:induction false} PruneKeepsOrder(c: Cache, b: Bounds, now: real)
    requires CacheInv(c, b) && Sorted(c, now)
    ensures Prune(c, b, now).0.Valid() && Sorted(Prune(c, b, now).0, now)
    decreases |c.keys|
  {
    if c.keys != [] && Expired(b, c.vals[c.keys[0]], now) {
      c.PopFirstValid();
      InOrderDropMap(c.keys[1..], c.vals, c.keys[0]);
      PruneKeepsOrder(c.PopFirst(), b, now);
    }
  }

  /** Every call, under a clock that does not run backwards, keeps the entries in order. */
  lemma StepKeepsOrder(c: Cache, b: Bounds, e: Event, before: real)
    requires b.Valid() && CacheInv(c, b) && Sorted(c, before) && before <= e.now
    ensures CacheInv(Step(c, b, e), b) && Sorted(Step(c, b, e), e.now)
  {
    StepKeepsInvariant(c, b, e);
    match e {
      case CheckEvent(id, now) =>
        DeleteKeepsOrder(c, id, before);
        c.DeleteValid(id);
        RecordKeepsOrder(CheckId(c, b, id, now).0, b, id, before, now);
      case RecordEvent(id, now) => RecordKeepsOrder(c, b, id, before, now);
      case QueryEvent(id, now) => DeleteKeepsOrder(c, id, before);
      case PruneEvent(now) => PruneKeepsOrder(c, b, now);
      case ClearEvent(_) =>
    }
  }

  lemma {:induction false} RunKeepsOrder(c: Cache, b: Bounds, events: seq<Event>, start: real)
    requires b.Valid() && CacheInv(c, b) && Sorted(c, start) && Timely(events, start)
    ensures CacheInv(Run(c, b, events), b) && Sorted(Run(c, b, events), EndTime(events, start))
    decreases events
  {
    if events != [] {
      StepKeepsOrder(c, b, events[0], start);
      RunKeepsOrder(Step(c, b, events[0]), b, events[1..], events[0].now);
    }
  }

  /** After any run of calls under a clock that does not run backwards, pruning removes exactly the expired entries,
      though it stops at the first that has not expired. */
  lemma PruneExactAfterEveryRun(b: Bounds, events: seq<Event>, start: real, now: real)
    requires b.Valid() && Timely(events, start)
    ensures var c := Run(NO_ENTRIES, b, events);
            CacheInv(c, b) && Sorted(c, EndTime(events, start)) && KeepsUnexpired(c, Prune(c, b, now).0, b, now)
  {
    RunKeepsOrder(NO_ENTRIES, b, events, start);
    PruneRemovesExactlyExpired(Run(NO_ENTRIES, b, events), b, now);
  }
}
