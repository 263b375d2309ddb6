/** What the reassembler guarantees over every run, whatever it is fed. */
module ReassemblyProperties {
  import opened Wrappers
  import opened ByteStrings
  import opened Lists
  import opened OrderedDicts
  import opened Packets
  import opened Fragmentation
  import opened Reassembly

  // ---- counting chunks and bytes ----

  function Lengths(chunks: map<int, Bytes>, n: nat): nat {
    if n == 0 then 0 else Lengths(chunks, n - 1) + (if n - 1 in chunks then |chunks[n - 1]| else 0)
  }

  lemma {:induction false} LengthsAdd(chunks: map<int, Bytes>, i: int, chunk: Bytes, n: nat)
    requires i !in chunks && 0 <= i
    ensures Lengths(chunks[i := chunk], n) == Lengths(chunks, n) + if i < n then |chunk| else 0
  {
    if n > 0 {
      LengthsAdd(chunks, i, chunk, n - 1);
    }
  }

  lemma {:induction false} JoinedLength(chunks: map<int, Bytes>, n: nat)
    requires AllPresent(chunks, n)
    ensures |Joined(chunks, n)| == Lengths(chunks, n)
  {
    if n > 0 {
      JoinedLength(chunks, n - 1);
    }
  }

  function Indices(n: nat): set<int> {
    if n == 0 then {} else Indices(n - 1) + {n - 1}
  }

  ghost predicate IsRange(s: set<int>, n: nat) {
    forall i :: i in s <==> 0 <= i < n
  }

  lemma {:induction false} IndicesSize(n: nat)
    ensures |Indices(n)| == n && IsRange(Indices(n), n)
  {
    if n > 0 {
      IndicesSize(n - 1);
    }
  }

  /** With only indices below `n` and `n` of them, none is missing: the source's check for a missing index
      can never find one. */
  lemma MissingIndexUnreachable(chunks: map<int, Bytes>, n: nat)
    requires forall i :: i in chunks ==> 0 <= i < n
    ensures |chunks| <= n
    ensures |chunks| == n <==> AllPresent(chunks, n)
  {
    var all := Indices(n);
    IndicesSize(n);
    assert |chunks.Keys| == |chunks|;
    assert IsRange(all, n);
    assert forall i :: i in chunks.Keys ==> i in all;
    SubsetSize(chunks.Keys, all);
    if AllPresent(chunks, n) {
      assert forall i :: i in all ==> i in chunks.Keys;
      assert chunks.Keys == all;
    }
  }

  // ---- the table invariant ----

  ghost predicate WellFormed(a: Assembly, limits: Limits) {
    && 1 <= a.total <= limits.maxFragments
    && (forall i :: i in a.chunks ==> 0 <= i < a.total)
    && |a.chunks| < a.total
    && a.totalBytes == Lengths(a.chunks, a.total) <= limits.maxBytes
  }

  ghost predicate TableInv(t: Table, limits: Limits) {
    && t.Valid()
    && (t.keys == [] || |t.keys| <= limits.maxActive)
    && forall k :: k in t.vals ==> WellFormed(t.vals[k], limits)
  }

  /** Chunk `i` came in earlier, under the same sender, fragment id, total and type. */
  ghost predicate Received(history: seq<Input>, key: AssemblyKey, total: int, originalType: int, i: int, chunk: Bytes) {
    exists j :: 0 <= j < |history|
      && history[j].key == key && history[j].total == total && history[j].originalType == originalType
      && history[j].index == i && history[j].chunk == chunk
  }

  ghost predicate AllReceived(history: seq<Input>, key: AssemblyKey, a: Assembly) {
    forall i :: i in a.chunks ==> Received(history, key, a.total, a.originalType, i, a.chunks[i])
  }

  ghost predicate Provenance(t: Table, history: seq<Input>) {
    forall k :: k in t.vals ==> AllReceived(history, k, t.vals[k])
  }

  /** `data` is the in-order concatenation of `x.total` chunks that all came in for the assembly of `x`. */
  ghost predicate MadeOfReceived(history: seq<Input>, x: Input, data: Bytes) {
    exists chunks: seq<Bytes> ::
      && |chunks| == x.total && Concat(chunks) == data
      && forall i :: 0 <= i < |chunks| ==> Received(history, x.key, x.total, x.originalType, i, chunks[i])
  }

  lemma AllReceivedExtends(history: seq<Input>, x: Input, key: AssemblyKey, a: Assembly)
    requires AllReceived(history, key, a)
    ensures AllReceived(history + [x], key, a)
  {
    forall i | i in a.chunks
      ensures Received(history + [x], key, a.total, a.originalType, i, a.chunks[i])
    {
      assert Received(history, key, a.total, a.originalType, i, a.chunks[i]);
      var j :| 0 <= j < |history|
               && history[j].key == key && history[j].total == a.total && history[j].originalType == a.originalType
               && history[j].index == i && history[j].chunk == a.chunks[i];
      assert (history + [x])[j] == history[j];
    }
  }

  lemma ProvenanceExtends(t: Table, history: seq<Input>, x: Input)
    requires Provenance(t, history)
    ensures Provenance(t, history + [x])
  {
    forall k | k in t.vals ensures AllReceived(history + [x], k, t.vals[k]) {
      AllReceivedExtends(history, x, k, t.vals[k]);
    }
  }

  function ChunkList(chunks: map<int, Bytes>, n: nat): seq<Bytes>
    requires AllPresent(chunks, n)
  {
    seq(n, i requires 0 <= i < n => chunks[i])
  }

  lemma {:induction false} JoinedIsConcat(chunks: map<int, Bytes>, n: nat)
    requires AllPresent(chunks, n)
    ensures Concat(ChunkList(chunks, n)) == Joined(chunks, n)
  {
    if n > 0 {
      JoinedIsConcat(chunks, n - 1);
      assert ChunkList(chunks, n) == ChunkList(chunks, n - 1) + [chunks[n - 1]];
      ConcatAppend(ChunkList(chunks, n - 1), chunks[n - 1]);
    }
  }

  /** An assembly with one more chunk: either still incomplete and well formed, or exactly complete. */
  lemma AddChunkKeepsWellFormed(a: Assembly, limits: Limits, x: Input)
    requires WellFormed(a, limits) && 0 <= x.index < a.total && x.index !in a.chunks
    requires a.totalBytes + |x.chunk| <= limits.maxBytes
    ensures var b := AddChunk(a, x);
            if |b.chunks| == b.total
            then AllPresent(b.chunks, b.total) && |Joined(b.chunks, b.total)| <= limits.maxBytes
            else WellFormed(b, limits)
  {
    var b := AddChunk(a, x);
    LengthsAdd(a.chunks, x.index, x.chunk, a.total);
    MissingIndexUnreachable(b.chunks, b.total);
    if |b.chunks| == b.total {
      JoinedLength(b.chunks, b.total);
    }
  }

  lemma StoreKeepsInvariant(t: Table, limits: Limits, x: Input)
    requires TableInv(t, limits) && x.key in t.vals
    requires t.vals[x.key].total == x.total && 0 <= x.index < x.total && x.index !in t.vals[x.key].chunks
    ensures var (t', r) := Store(t, limits, x);
            && TableInv(t', limits)
            && (r.Success? && r.value.Some? ==> |r.value.value| <= limits.maxBytes)
  {
    t.DeleteValid(x.key);
    var a := t.vals[x.key];
    if a.totalBytes + |x.chunk| <= limits.maxBytes {
      AddChunkKeepsWellFormed(a, limits, x);
      t.PutValid(x.key, AddChunk(a, x));
      t.Put(x.key, AddChunk(a, x)).DeleteValid(x.key);
    }
  }

  /** One call keeps the invariant, whatever the input. */
  lemma InsertKeepsInvariant(t: Table, limits: Limits, x: Input)
    requires TableInv(t, limits)
    ensures var (t', r) := Insert(t, limits, x);
            && TableInv(t', limits)
            && (r.Success? && r.value.Some? ==> |r.value.value| <= limits.maxBytes)
  {
    if x.total <= 0 || !(0 <= x.index < x.total) || x.total > limits.maxFragments {
    } else if x.key in t.vals {
      t.MoveToEndValid(x.key);
      var moved := t.MoveToEnd(x.key);
      moved.DeleteValid(x.key);
      var a := t.vals[x.key];
      if a.total == x.total && a.originalType == x.originalType && x.index !in a.chunks {
        StoreKeepsInvariant(moved, limits, x);
      }
    } else if |t.keys| >= limits.maxActive && t.keys == [] {
    } else {
      FreshAssemblyKeepsInvariant(t, limits, x);
    }
  }

  lemma FreshAssemblyKeepsInvariant(t: Table, limits: Limits, x: Input)
    requires TableInv(t, limits) && x.key !in t.vals && 0 <= x.index < x.total <= limits.maxFragments
    requires |t.keys| >= limits.maxActive ==> t.keys != []
    ensures var (t', r) := Insert(t, limits, x);
            && TableInv(t', limits)
            && (r.Success? && r.value.Some? ==> |r.value.value| <= limits.maxBytes)
  {
    var room := MakeRoom(t, limits);
    MakeRoomKeepsInvariant(t, limits);
    StartKeepsInvariant(room, limits, x);
  }

  lemma StartKeepsInvariant(room: Table, limits: Limits, x: Input)
    requires TableInv(room, limits) && |room.keys| < limits.maxActive
    requires x.key !in room.vals && 0 <= x.index < x.total <= limits.maxFragments
    ensures var (t', r) := Store(room.Put(x.key, NewAssembly(x)), limits, x);
            && TableInv(t', limits)
            && (r.Success? && r.value.Some? ==> |r.value.value| <= limits.maxBytes)
  {
    if |x.chunk| <= limits.maxBytes {
      RegisterKeepsInvariant(room, limits, x);
      StoreKeepsInvariant(room.Put(x.key, NewAssembly(x)), limits, x);
    } else {
      DeleteAfterPut(room, x.key, NewAssembly(x));
    }
  }

  lemma RegisterKeepsInvariant(room: Table, limits: Limits, x: Input)
    requires TableInv(room, limits) && |room.keys| < limits.maxActive && x.key !in room.vals
    requires 0 <= x.index < x.total <= limits.maxFragments && 0 <= limits.maxBytes
    ensures TableInv(room.Put(x.key, NewAssembly(x)), limits)
  {
    room.PutValid(x.key, NewAssembly(x));
    LengthsOfNothing(x.total);
  }

  lemma MakeRoomKeepsInvariant(t: Table, limits: Limits)
    requires TableInv(t, limits)
    requires |t.keys| >= limits.maxActive ==> t.keys != []
    ensures TableInv(MakeRoom(t, limits), limits) && |MakeRoom(t, limits).keys| < limits.maxActive
  {
    if t.keys != [] {
      t.PopFirstValid();
    }
  }

  /** A key that is put in new and deleted again leaves the rest as it was. */
  lemma DeleteAfterPut(t: Table, k: AssemblyKey, a: Assembly)
    requires t.Valid() && k !in t.vals
    ensures var u := t.Put(k, a).Delete(k);
            u.Valid() && u.vals == t.vals && |u.keys| == |t.keys|
  {
    t.PutValid(k, a);
    t.Put(k, a).DeleteValid(k);
    assert t.vals[k := a] - {k} == t.vals;
  }

  lemma StoreProvenance(t: Table, limits: Limits, x: Input, history: seq<Input>)
    requires x.key in t.vals && Provenance(t, history + [x])
    requires t.vals[x.key].total == x.total && t.vals[x.key].originalType == x.originalType
    ensures var (t', r) := Store(t, limits, x);
            && Provenance(t', history + [x])
            && (r.Success? && r.value.Some? ==> MadeOfReceived(history + [x], x, r.value.value))
  {
    var a := t.vals[x.key];
    var b := AddChunk(a, x);
    AddChunkReceived(a, x, history);
    if |b.chunks| == b.total && AllPresent(b.chunks, b.total) {
      JoinedIsConcat(b.chunks, b.total);
      var list := ChunkList(b.chunks, b.total);
      assert forall i :: 0 <= i < |list| ==> Received(history + [x], x.key, x.total, x.originalType, i, list[i]);
    }
  }

  lemma AddChunkReceived(a: Assembly, x: Input, history: seq<Input>)
    requires AllReceived(history + [x], x.key, a) && a.total == x.total && a.originalType == x.originalType
    ensures AllReceived(history + [x], x.key, AddChunk(a, x))
  {
    assert (history + [x])[|history|] == x;
    assert Received(history + [x], x.key, x.total, x.originalType, x.index, x.chunk);
  }

  /** One call returns only bytes that came in for the assembly it names. */
  lemma InsertProvenance(t: Table, limits: Limits, x: Input, history: seq<Input>)
    requires TableInv(t, limits) && Provenance(t, history)
    ensures var (t', r) := Insert(t, limits, x);
            && Provenance(t', history + [x])
            && (r.Success? && r.value.Some? ==> MadeOfReceived(history + [x], x, r.value.value))
  {
    ProvenanceExtends(t, history, x);
    if x.total <= 0 || !(0 <= x.index < x.total) || x.total > limits.maxFragments {
    } else if x.key in t.vals {
      t.MoveToEndValid(x.key);
      var a := t.vals[x.key];
      if a.total == x.total && a.originalType == x.originalType && x.index !in a.chunks {
        StoreProvenance(t.MoveToEnd(x.key), limits, x, history);
      }
    } else if |t.keys| >= limits.maxActive && t.keys == [] {
    } else {
      FreshProvenance(t, limits, x, history);
    }
  }

  lemma FreshProvenance(t: Table, limits: Limits, x: Input, history: seq<Input>)
    requires Provenance(t, history + [x])
    requires x.key !in t.vals && 0 <= x.index < x.total <= limits.maxFragments
    requires |t.keys| >= limits.maxActive ==> t.keys != []
    ensures var (t', r) := Insert(t, limits, x);
            && Provenance(t', history + [x])
            && (r.Success? && r.value.Some? ==> MadeOfReceived(history + [x], x, r.value.value))
  {
    var room := MakeRoom(t, limits);
    assert Provenance(room, history + [x]);
    StoreProvenance(room.Put(x.key, NewAssembly(x)), limits, x, history);
  }

  // ---- what is refused ----

  /** The fragment contradicts what is held of its assembly. */
  predicate Contradicts(a: Assembly, x: Input) {
    a.total != x.total || a.originalType != x.originalType || (x.index in a.chunks && a.chunks[x.index] != x.chunk)
  }

  /** There is no room for the bytes of the chunk. */
  predicate TooManyBytes(t: Table, limits: Limits, x: Input) {
    if x.key in t.vals then x.index !in t.vals[x.key].chunks && t.vals[x.key].totalBytes + |x.chunk| > limits.maxBytes
    else |x.chunk| > limits.maxBytes
  }

  /** Each error, exactly. A place out of range, or too many fragments, changes nothing; a fragment that contradicts the
      assembly held, or is too much for it, costs the assembly. */
  lemma InsertRefusedExactly(t: Table, limits: Limits, x: Input)
    requires TableInv(t, limits)
    ensures var (t', r) := Insert(t, limits, x);
            var placed, few, held := 0 <= x.index < x.total, x.total <= limits.maxFragments, x.key in t.vals;
            var wrong := held && Contradicts(t.vals[x.key], x);
            var stuck := !held && limits.maxActive <= 0;
            && (r == Failure(InvalidFragment) <==> !placed || (few && wrong))
            && (r == Failure(NothingToEvict) <==> placed && few && stuck)
            && (r == Failure(LimitExceeded) <==>
                  placed && (!few || (!wrong && !stuck && TooManyBytes(t, limits, x))))
            && (r.Failure? ==> r.error in {InvalidFragment, NothingToEvict, LimitExceeded})
            && (r.Failure? ==> if placed && few && !stuck then x.key !in t'.vals else t' == t)
  {
    if 0 <= x.index < x.total <= limits.maxFragments {
      if x.key in t.vals {
        t.MoveToEndValid(x.key);
        t.MoveToEnd(x.key).DeleteValid(x.key);
      } else if limits.maxActive > 0 {
        StartRefusedExactly(MakeRoom(t, limits), limits, x);
      }
    }
  }

  lemma StartRefusedExactly(room: Table, limits: Limits, x: Input)
    ensures var (t', r) := Store(room.Put(x.key, NewAssembly(x)), limits, x);
            && (r.Failure? <==> |x.chunk| > limits.maxBytes)
            && (r.Failure? ==> r == Failure(LimitExceeded) && x.key !in t'.vals)
  {}

  /** What is held of an assembly once a fragment of it was taken: what was held before and the chunk, from the time of
      the first; or nothing, once the last chunk was handed back. */
  lemma InsertHolds(t: Table, limits: Limits, x: Input)
    requires TableInv(t, limits)
    ensures var (t', r) := Insert(t, limits, x);
            var held := x.key in t.vals;
            && (r == Success(None) ==>
                  && x.key in t'.vals
                  && var a := t'.vals[x.key];
                     && a.total == x.total && a.originalType == x.originalType
                     && a.chunks == (if held then t.vals[x.key].chunks else map[])[x.index := x.chunk]
                     && a.createdAt == if held then t.vals[x.key].createdAt else x.now)
            && (r.Success? && r.value.Some? ==> x.key !in t'.vals)
  {
    if 0 <= x.index < x.total <= limits.maxFragments {
      if x.key in t.vals {
        t.MoveToEndValid(x.key);
        SameChunk(t.vals[x.key].chunks, x.index);
      }
    }
  }

  lemma SameChunk(chunks: map<int, Bytes>, i: int)
    ensures i in chunks ==> chunks[i := chunks[i]] == chunks
  {}

  /** Of the packets that parse, those get to the table whose type is that of their place; and none that is alone, for
      it would have to be the first and the last. */
  lemma AddPacketExactly(t: Table, limits: Limits, p: BitchatPacket, now: real)
    ensures var f := ParseFragmentPayload(p.payload);
            AddPacket(t, limits, p, now)
            == if f.Failure? then (t, Failure(if p.messageType.IsFragment() then f.error else InvalidFragment))
               else if f.value.total >= 2 && p.messageType == FragmentType(f.value.index, f.value.total)
               then Insert(t, limits, PacketInput(p.senderId, f.value, now))
               else (t, Failure(InvalidFragment))
  {
    ParseRefusedExactly(p.payload);
    var f := ParseFragmentPayload(p.payload);
    if f.Success? {
      FragmentTypeExactly(f.value.index, f.value.total);
    }
  }

  lemma {:induction false} LengthsOfNothing(n: nat)
    ensures Lengths(map[], n) == 0
  {
    if n > 0 {
      LengthsOfNothing(n - 1);
    }
  }

  // ---- pruning ----

  ghost predicate StaleExactly(t: Table, stale: seq<AssemblyKey>, n: nat, maxAge: real, now: real)
    requires n <= |t.keys| && forall i :: 0 <= i < n ==> t.keys[i] in t.vals
  {
    && (forall k :: k in stale ==> k in t.keys[..n] && k in t.vals && now - t.vals[k].createdAt > maxAge)
    && (forall i :: 0 <= i < n && now - t.vals[t.keys[i]].createdAt > maxAge ==> t.keys[i] in stale)
  }

  lemma OneMoreKey(t: Table, stale: seq<AssemblyKey>, n: nat, maxAge: real, now: real)
    requires n < |t.keys| && (forall i :: 0 <= i <= n ==> t.keys[i] in t.vals) && StaleExactly(t, stale, n, maxAge, now)
    ensures var k := t.keys[n];
            StaleExactly(t, stale + (if now - t.vals[k].createdAt > maxAge then [k] else []), n + 1, maxAge, now)
  {
    assert forall k :: k in t.keys[..n + 1] <==> k in t.keys[..n] || k == t.keys[n];
  }

  lemma {:induction false} StaleKeysExactly(t: Table, n: nat, maxAge: real, now: real)
    requires n <= |t.keys| && forall i :: 0 <= i < n ==> t.keys[i] in t.vals
    ensures StaleExactly(t, StaleKeys(t, n, maxAge, now), n, maxAge, now)
  {
    if n > 0 {
      StaleKeysExactly(t, n - 1, maxAge, now);
      OneMoreKey(t, StaleKeys(t, n - 1, maxAge, now), n - 1, maxAge, now);
    }
  }

  /** `prune_stale` removes exactly the assemblies older than `maxAge` and leaves the others as they are. */
  lemma PruneRemovesExactlyStale(t: Table, maxAge: real, now: real)
    requires t.Valid()
    ensures var kept := t.DeleteAll(StaleKeys(t, |t.keys|, maxAge, now));
            && kept.Valid()
            && (forall k :: k in kept.vals ==> k in t.vals && kept.vals[k] == t.vals[k])
            && (forall k :: k in t.vals ==> (k in kept.vals <==> now - t.vals[k].createdAt <= maxAge))
  {
    var stale := StaleKeys(t, |t.keys|, maxAge, now);
    StaleKeysExactly(t, |t.keys|, maxAge, now);
    t.DeleteAllExactly(stale);
    var kept := t.DeleteAll(stale);
    forall k | k in t.vals ensures k in kept.vals <==> now - t.vals[k].createdAt <= maxAge {
      assert k in t.keys;
    }
  }

  // ---- whole runs ----

  /** A call of the reassembler: a fragment comes in, `prune_stale` or `clear`. */
  datatype Call = Inserts(x: Input) | Prunes(maxAge: real, now: real) | Clears

  function Pruned(t: Table, maxAge: real, now: real): Table
    requires t.Valid()
  {
    t.DeleteAll(StaleKeys(t, |t.keys|, maxAge, now))
  }

  function Called(t: Table, limits: Limits, call: Call): Table
    requires t.Valid()
  {
    match call
    case Inserts(x) => Insert(t, limits, x).0
    case Prunes(maxAge, now) => Pruned(t, maxAge, now)
    case Clears => EMPTY
  }

  /** The inputs since the table was last cleared. */
  function Heard(history: seq<Input>, call: Call): seq<Input> {
    match call
    case Inserts(x) => history + [x]
    case Prunes(_, _) => history
    case Clears => []
  }

  function HeardAll(history: seq<Input>, calls: seq<Call>): seq<Input>
    decreases calls
  {
    if calls == [] then history else HeardAll(Heard(history, calls[0]), calls[1..])
  }

  lemma PruneKeepsInvariant(t: Table, limits: Limits, maxAge: real, now: real)
    requires TableInv(t, limits)
    ensures TableInv(Pruned(t, maxAge, now), limits)
  {
    PruneRemovesExactlyStale(t, maxAge, now);
    t.DeleteAllExactly(StaleKeys(t, |t.keys|, maxAge, now));
  }

  lemma CallKeepsInvariant(t: Table, limits: Limits, call: Call)
    requires TableInv(t, limits)
    ensures TableInv(Called(t, limits, call), limits)
  {
    match call
    case Inserts(x) => InsertKeepsInvariant(t, limits, x);
    case Prunes(maxAge, now) => PruneKeepsInvariant(t, limits, maxAge, now);
    case Clears =>
  }

  lemma CallProvenance(t: Table, limits: Limits, call: Call, history: seq<Input>)
    requires TableInv(t, limits) && Provenance(t, history)
    ensures Provenance(Called(t, limits, call), Heard(history, call))
  {
    match call
    case Inserts(x) => InsertProvenance(t, limits, x, history);
    case Prunes(maxAge, now) => PruneRemovesExactlyStale(t, maxAge, now);
    case Clears =>
  }

  function RunFrom(t: Table, limits: Limits, calls: seq<Call>): Table
    requires TableInv(t, limits)
    decreases calls
  {
    if calls == [] then t
    else
      CallKeepsInvariant(t, limits, calls[0]);
      RunFrom(Called(t, limits, calls[0]), limits, calls[1..])
  }

  lemma {:induction false} RunKeepsInvariant(t: Table, limits: Limits, history: seq<Input>, calls: seq<Call>)
    requires TableInv(t, limits) && Provenance(t, history)
    ensures TableInv(RunFrom(t, limits, calls), limits)
    ensures Provenance(RunFrom(t, limits, calls), HeardAll(history, calls))
    decreases calls
  {
    if calls != [] {
      CallKeepsInvariant(t, limits, calls[0]);
      CallProvenance(t, limits, calls[0], history);
      RunKeepsInvariant(Called(t, limits, calls[0]), limits, Heard(history, calls[0]), calls[1..]);
    }
  }

  /** Soundness: whatever calls came before, any bytes returned are the in-order concatenation of chunks received since
      the table was last cleared, under the same sender, fragment id, total and type, and the bounds on the table hold
      throughout. */
  lemma ReassemblySound(limits: Limits, calls: seq<Call>, x: Input)
    ensures var t := RunFrom(EMPTY, limits, calls);
            var r := Insert(t, limits, x).1;
            && TableInv(t, limits)
            && (r.Success? && r.value.Some? ==>
                  |r.value.value| <= limits.maxBytes && MadeOfReceived(HeardAll([], calls) + [x], x, r.value.value))
  {
    RunKeepsInvariant(EMPTY, limits, [], calls);
    InsertKeepsInvariant(RunFrom(EMPTY, limits, calls), limits, x);
    InsertProvenance(RunFrom(EMPTY, limits, calls), limits, x, HeardAll([], calls));
  }

  /** Whatever calls came before, an input that is in range meets the KeyError of an empty table exactly if no assembly
      is allowed at all. */
  lemma NothingToEvictExactly(limits: Limits, calls: seq<Call>, x: Input)
    ensures Insert(RunFrom(EMPTY, limits, calls), limits, x).1 == Failure(NothingToEvict)
            <==> limits.maxActive <= 0 && 0 <= x.index < x.total <= limits.maxFragments
  {
    RunKeepsInvariant(EMPTY, limits, [], calls);
    var t := RunFrom(EMPTY, limits, calls);
    assert x.key in t.vals ==> x.key in t.keys;
  }

  // ---- isolation and survival ----

  /** `k` is still there with the same contents, and nothing but `touched` came after it. */
  ghost predicate Undisturbed(t: Table, t': Table, k: AssemblyKey, touched: AssemblyKey)
    requires k in t.vals
  {
    k in t'.vals && t'.vals[k] == t.vals[k] && After(t'.keys, k) <= After(t.keys, k) + {touched}
  }

  /** An input for one key leaves any other assembly as it is, unless the table was full, the input's key new
      and the other assembly the least recently touched. */
  lemma InsertIsolated(t: Table, limits: Limits, x: Input, k: AssemblyKey)
    requires TableInv(t, limits) && k in t.vals && k != x.key
    ensures var t' := Insert(t, limits, x).0;
            if k in t'.vals then Undisturbed(t, t', k, x.key)
            else
              && x.key !in t.vals && |t.keys| == limits.maxActive
              && x.key !in After(t.keys, k) && |After(t.keys, k)| == |t.keys| - 1
  {
    if x.total <= 0 || !(0 <= x.index < x.total) || x.total > limits.maxFragments {
    } else if x.key in t.vals {
      ExtendIsolated(t, limits, x, k);
    } else if |t.keys| >= limits.maxActive && k == t.keys[0] {
      t.AfterFirst();
      EvictedStaysOut(t, limits, x);
    } else {
      StartIsolated(t, limits, x, k);
    }
  }

  lemma ExtendIsolated(t: Table, limits: Limits, x: Input, k: AssemblyKey)
    requires TableInv(t, limits) && k in t.vals && k != x.key && x.key in t.vals
    requires 0 <= x.index < x.total <= limits.maxFragments
    ensures Undisturbed(t, Insert(t, limits, x).0, k, x.key)
  {
    var moved := t.MoveToEnd(x.key);
    MoveIsolated(t, x.key, k);
    StoreIsolated(moved, limits, x, k);
    DeleteIsolated(moved, x.key, k);
    assert Insert(t, limits, x).0 in {moved, moved.Delete(x.key), Store(moved, limits, x).0};
  }

  lemma MoveIsolated(t: Table, touched: AssemblyKey, k: AssemblyKey)
    requires t.Valid() && k in t.vals && k != touched
    ensures Undisturbed(t, t.MoveToEnd(touched), k, touched)
  {
    WithoutMembers(t.keys, touched);
    AfterWithout(t.keys, touched, k);
    AfterAppend(Without(t.keys, touched), touched, k);
  }

  lemma DeleteIsolated(t: Table, touched: AssemblyKey, k: AssemblyKey)
    requires k in t.vals && k != touched
    ensures var t' := t.Delete(touched);
            k in t'.vals && t'.vals[k] == t.vals[k] && After(t'.keys, k) <= After(t.keys, k)
  {
    AfterWithout(t.keys, touched, k);
  }

  lemma StartIsolated(t: Table, limits: Limits, x: Input, k: AssemblyKey)
    requires TableInv(t, limits) && k in t.vals && k != x.key && x.key !in t.vals
    requires 0 <= x.index < x.total <= limits.maxFragments
    requires |t.keys| >= limits.maxActive ==> k != t.keys[0]
    ensures Undisturbed(t, Insert(t, limits, x).0, k, x.key)
  {
    var room := MakeRoom(t, limits);
    if |t.keys| >= limits.maxActive {
      t.AfterPopFirst(k);
    }
    AfterAppend(room.keys, x.key, k);
    StoreIsolated(room.Put(x.key, NewAssembly(x)), limits, x, k);
  }

  lemma EvictedStaysOut(t: Table, limits: Limits, x: Input)
    requires TableInv(t, limits) && t.keys != [] && |t.keys| >= limits.maxActive
    requires x.key !in t.vals && 0 <= x.index < x.total <= limits.maxFragments
    ensures t.keys[0] !in Insert(t, limits, x).0.vals
  {}

  lemma StoreIsolated(t: Table, limits: Limits, x: Input, k: AssemblyKey)
    requires x.key in t.vals && k in t.vals && k != x.key
    ensures var t' := Store(t, limits, x).0;
            && k in t'.vals && t'.vals[k] == t.vals[k]
            && After(t'.keys, k) <= After(t.keys, k)
  {
    AfterWithout(t.keys, x.key, k);
  }

  lemma {:induction false} DeleteAllIsolated(t: Table, ks: seq<AssemblyKey>, k: AssemblyKey)
    requires k in t.vals && k !in ks
    ensures var t' := t.DeleteAll(ks);
            k in t'.vals && t'.vals[k] == t.vals[k] && After(t'.keys, k) <= After(t.keys, k)
    decreases ks
  {
    if ks != [] {
      DeleteIsolated(t, ks[0], k);
      DeleteAllIsolated(t.Delete(ks[0]), ks[1..], k);
    }
  }

  /** The call is for another assembly than `k`, or prunes only older ones than that. */
  predicate Spares(call: Call, k: AssemblyKey, createdAt: real) {
    match call
    case Inserts(x) => x.key != k
    case Prunes(maxAge, now) => now - createdAt <= maxAge
    case Clears => false
  }

  function KeysOf(calls: seq<Call>): set<AssemblyKey> {
    set call | call in calls && call.Inserts? :: call.x.key
  }

  lemma InsertSpares(t: Table, limits: Limits, x: Input, k: AssemblyKey, touched: set<AssemblyKey>)
    requires TableInv(t, limits) && k in t.vals && k != x.key
    requires After(t.keys, k) <= touched && |touched + {x.key}| < limits.maxActive
    ensures var t' := Insert(t, limits, x).0;
            k in t'.vals && t'.vals[k] == t.vals[k] && After(t'.keys, k) <= touched + {x.key}
  {
    InsertIsolated(t, limits, x, k);
    if k !in Insert(t, limits, x).0.vals {
      SubsetSize(After(t.keys, k) + {x.key}, touched + {x.key});
      assert false;
    }
  }

  lemma CallSpares(t: Table, limits: Limits, call: Call, k: AssemblyKey, touched: set<AssemblyKey>)
    requires TableInv(t, limits) && k in t.vals && Spares(call, k, t.vals[k].createdAt)
    requires After(t.keys, k) <= touched && |touched + KeysOf([call])| < limits.maxActive
    ensures var t' := Called(t, limits, call);
            k in t'.vals && t'.vals[k] == t.vals[k] && After(t'.keys, k) <= touched + KeysOf([call])
  {
    match call
    case Inserts(x) =>
      assert call in [call];
      assert KeysOf([call]) == {x.key};
      InsertSpares(t, limits, x, k, touched);
    case Prunes(maxAge, now) =>
      StaleKeysExactly(t, |t.keys|, maxAge, now);
      DeleteAllIsolated(t, StaleKeys(t, |t.keys|, maxAge, now), k);
  }

  lemma KeysOfFirst(calls: seq<Call>)
    requires calls != []
    ensures KeysOf(calls) == KeysOf([calls[0]]) + KeysOf(calls[1..])
  {
    assert forall call :: call in calls <==> call == calls[0] || call in calls[1..];
  }

  /** An assembly that no call prunes or clears stays as it is while fewer than `maxActive` distinct other keys have
      been touched since it was. */
  lemma {:induction false} LruSurvival(
      t: Table, limits: Limits, calls: seq<Call>, k: AssemblyKey, touched: set<AssemblyKey>)
    requires TableInv(t, limits) && k in t.vals
    requires After(t.keys, k) <= touched
    requires forall call :: call in calls ==> Spares(call, k, t.vals[k].createdAt)
    requires |touched + KeysOf(calls)| < limits.maxActive
    ensures var t' := RunFrom(t, limits, calls);
            k in t'.vals && t'.vals[k] == t.vals[k] && After(t'.keys, k) <= touched + KeysOf(calls)
    decreases calls
  {
    if calls != [] {
      var touched' := touched + KeysOf([calls[0]]);
      KeysOfFirst(calls);
      assert touched' + KeysOf(calls[1..]) == touched + KeysOf(calls);
      SubsetSize(touched', touched + KeysOf(calls));
      CallSpares(t, limits, calls[0], k, touched);
      CallKeepsInvariant(t, limits, calls[0]);
      LruSurvival(Called(t, limits, calls[0]), limits, calls[1..], k, touched');
    }
  }
}
