/** Out-of-order reassembly behind a bounded, least-recently-touched table
    (src/bitchat/protocol/reassembly.py). */
module Reassembly {
  import opened Wrappers
  import opened ByteStrings
  import opened OrderedDicts
  import opened Packets
  import opened Fragmentation

  datatype AssemblyKey = AssemblyKey(senderId: Bytes, fragmentId: Bytes)

  datatype Assembly = Assembly(
    total: int, originalType: int, chunks: map<int, Bytes>, createdAt: real, totalBytes: int)

  datatype Limits = Limits(maxActive: int, maxFragments: int, maxBytes: int)

  const DEFAULT_LIMITS := Limits(100, 1000, 150_000)

  type Table = OrderedDict<AssemblyKey, Assembly>

  const EMPTY: Table := OrderedDict([], map[])

  /** One call of `_insert_chunk`, at clock reading `now`. */
  datatype Input = Input(key: AssemblyKey, index: int, total: int, originalType: int, chunk: Bytes, now: real)

  /** The reassembled bytes when the last chunk arrives, nothing before that, or the error raised. */
  type Outcome = Result<Option<Bytes>, FragmentError>

  // ---- specification ----

  predicate AllPresent(chunks: map<int, Bytes>, n: int) {
    forall i :: 0 <= i < n ==> i in chunks
  }

  function Joined(chunks: map<int, Bytes>, n: nat): Bytes
    requires AllPresent(chunks, n)
  {
    if n == 0 then [] else Joined(chunks, n - 1) + chunks[n - 1]
  }

  function Store(t: Table, limits: Limits, x: Input): (Table, Outcome)
    requires x.key in t.vals
  {
    var a := t.vals[x.key];
    if a.totalBytes + |x.chunk| > limits.maxBytes then (t.Delete(x.key), Failure(LimitExceeded))
    else Finish(t.Put(x.key, AddChunk(a, x)), x.key)
  }

  function AddChunk(a: Assembly, x: Input): Assembly {
    a.(chunks := a.chunks[x.index := x.chunk], totalBytes := a.totalBytes + |x.chunk|)
  }

  /** Takes a completed assembly out of the table. */
  function Finish(t: Table, key: AssemblyKey): (Table, Outcome)
    requires key in t.vals
  {
    var chunks := t.vals[key].chunks;
    if |chunks| == t.vals[key].total && AllPresent(chunks, |chunks|)
    then (t.Delete(key), Success(Some(Joined(chunks, |chunks|))))
    else (t, Success(None))
  }

  /** The table after `_insert_chunk`, and what the call returns or raises. */
  function Insert(t: Table, limits: Limits, x: Input): (Table, Outcome) {
    if x.total <= 0 || !(0 <= x.index < x.total) then (t, Failure(InvalidFragment))
    else if x.total > limits.maxFragments then (t, Failure(LimitExceeded))
    else if x.key in t.vals then
      var moved := t.MoveToEnd(x.key);
      var a := t.vals[x.key];
      if a.total != x.total || a.originalType != x.originalType then (moved.Delete(x.key), Failure(InvalidFragment))
      else if x.index in a.chunks then
        if a.chunks[x.index] == x.chunk then (moved, Success(None))
        else (moved.Delete(x.key), Failure(InvalidFragment))
      else Store(moved, limits, x)
    else Start(t, limits, x)
  }

  /** The branch of `_insert_chunk` for a new key. */
  function Start(t: Table, limits: Limits, x: Input): (Table, Outcome) {
    if |t.keys| >= limits.maxActive && t.keys == [] then (t, Failure(NothingToEvict))
    else Store(MakeRoom(t, limits).Put(x.key, NewAssembly(x)), limits, x)
  }

  function NewAssembly(x: Input): Assembly {
    Assembly(x.total, x.originalType, map[], x.now, 0)
  }

  /** Evicts the least recently touched assembly of a full table. */
  function MakeRoom(t: Table, limits: Limits): Table
    requires |t.keys| >= limits.maxActive ==> t.keys != []
  {
    if |t.keys| >= limits.maxActive then t.PopFirst() else t
  }

  /** `add_fragment_packet`: the packet type has to agree with the place the payload claims. */
  function AddPacket(t: Table, limits: Limits, p: BitchatPacket, now: real): (Table, Outcome) {
    if !p.messageType.IsFragment() then (t, Failure(InvalidFragment))
    else match ParseFragmentPayload(p.payload)
    case Failure(e) => (t, Failure(e))
    case Success(f) =>
      if f.index == 0 && !p.messageType.FragmentStart? then (t, Failure(InvalidFragment))
      else if f.index == f.total - 1 && !p.messageType.FragmentEnd? then (t, Failure(InvalidFragment))
      else if 0 < f.index < f.total - 1 && !p.messageType.FragmentContinue? then (t, Failure(InvalidFragment))
      else Insert(t, limits, PacketInput(p.senderId, f, now))
  }

  function PacketInput(senderId: Bytes, f: FragmentInfo, now: real): Input {
    Input(AssemblyKey(senderId, f.fragmentId), f.index, f.total, f.originalType, f.chunk, now)
  }

  /** The stale ones among the first `n` keys of the table. */
  function StaleKeys(t: Table, n: nat, maxAge: real, now: real): seq<AssemblyKey>
    requires n <= |t.keys| && forall i :: 0 <= i < n ==> t.keys[i] in t.vals
  {
    if n == 0 then []
    else
      StaleKeys(t, n - 1, maxAge, now)
      + (if now - t.vals[t.keys[n - 1]].createdAt > maxAge then [t.keys[n - 1]] else [])
  }

  // ---- the mutable objects ----

  class AssemblyState {
    const key: AssemblyKey  // sender_id and fragment_id
    const total: int
    const originalType: int
    const createdAt: real
    var chunks: map<int, Bytes>
    var totalBytes: int

    ghost function Value(): Assembly
      reads this
    {
      Assembly(total, originalType, chunks, createdAt, totalBytes)
    }

    constructor (key: AssemblyKey, total: int, originalType: int, createdAt: real)
      ensures this.key == key && Value() == Assembly(total, originalType, map[], createdAt, 0)
    {
      this.key := key;
      this.total, this.originalType, this.createdAt := total, originalType, createdAt;
      chunks, totalBytes := map[], 0;
    }
  }

  /** The check for missing indices and the join at the end of `_insert_chunk`. */
  method JoinChunks(chunks: map<int, Bytes>, total: nat) returns (r: Option<Bytes>)
    ensures r == if AllPresent(chunks, total) then Some(Joined(chunks, total)) else None
  {
    var i, assembled := 0, [];
    while i < total
      invariant 0 <= i <= total
      invariant AllPresent(chunks, i) && assembled == Joined(chunks, i)
    {
      if i !in chunks {
        return None;
      }
      assembled := assembled + chunks[i];
      i := i + 1;
    }
    return Some(assembled);
  }

  class FragmentReassembler {
    const limits: Limits
    var assemblies: OrderedDict<AssemblyKey, AssemblyState>
    ghost var contents: Table  // the table as a value

    ghost function States(): set<AssemblyState>
      reads this
    {
      set k | k in assemblies.vals :: assemblies.vals[k]
    }

    ghost predicate Valid()
      reads this, States()
    {
      && assemblies.Valid() && contents.Valid()
      && contents.keys == assemblies.keys
      && forall k :: k in assemblies.vals ==>
           assemblies.vals[k].key == k && contents.vals[k] == assemblies.vals[k].Value()
    }

    constructor (limits: Limits)
      ensures Valid() && this.limits == limits && contents == EMPTY
    {
      this.limits := limits;
      assemblies, contents := OrderedDict([], map[]), EMPTY;
    }

    method Clear()
      modifies this
      ensures Valid() && contents == EMPTY
    {
      assemblies, contents := OrderedDict([], map[]), EMPTY;
    }

    method InsertChunk(x: Input) returns (r: Outcome)
      requires Valid()
      modifies this, States()
      ensures Valid() && fresh(States() - old(States()))
      ensures (contents, r) == Insert(old(contents), limits, x)
    {
      if x.total <= 0 {
        return Failure(InvalidFragment);
      }
      if !(0 <= x.index < x.total) {
        return Failure(InvalidFragment);
      }
      if x.total > limits.maxFragments {
        return Failure(LimitExceeded);
      }
      if x.key in assemblies.vals {
        r := ExtendAssembly(x);
      } else {
        r := StartAssembly(x);
      }
    }

    /** `_insert_chunk` for a key already in the table. */
    method ExtendAssembly(x: Input) returns (r: Outcome)
      requires Valid() && x.key in assemblies.vals
      requires 0 <= x.index < x.total <= limits.maxFragments
      modifies this, States()
      ensures Valid() && States() <= old(States())
      ensures (contents, r) == Insert(old(contents), limits, x)
    {
      var state := assemblies.vals[x.key];
      assemblies.MoveToEndValid(x.key);
      contents.MoveToEndValid(x.key);
      assemblies, contents := assemblies.MoveToEnd(x.key), contents.MoveToEnd(x.key);
      if state.total != x.total {
        Discard(x.key);
        return Failure(InvalidFragment);
      }
      if state.originalType != x.originalType {
        Discard(x.key);
        return Failure(InvalidFragment);
      }
      if x.index in state.chunks {
        if state.chunks[x.index] == x.chunk {
          return Success(None);
        }
        Discard(x.key);
        return Failure(InvalidFragment);
      }
      r := StoreChunk(x, state);
    }

    /** `_insert_chunk` for a new key. */
    method StartAssembly(x: Input) returns (r: Outcome)
      requires Valid() && x.key !in assemblies.vals
      requires 0 <= x.index < x.total <= limits.maxFragments
      modifies this
      ensures Valid() && fresh(States() - old(States()))
      ensures (contents, r) == Start(old(contents), limits, x)
    {
      if |assemblies.keys| >= limits.maxActive && assemblies.keys == [] {
        return Failure(NothingToEvict);
      }
      var state := OpenAssembly(x);
      r := StoreChunk(x, state);
    }

    /** A new assembly, in place of the least recently touched one if the table is full. */
    method OpenAssembly(x: Input) returns (state: AssemblyState)
      requires Valid() && x.key !in assemblies.vals
      requires |assemblies.keys| >= limits.maxActive ==> assemblies.keys != []
      modifies this
      ensures Valid() && fresh(state) && States() <= old(States()) + {state}
      ensures contents == MakeRoom(old(contents), limits).Put(x.key, NewAssembly(x))
      ensures x.key in assemblies.vals && assemblies.vals[x.key] == state
    {
      EvictIfFull();
      state := Register(x);
    }

    /** `if len(self._assemblies) >= self._max_active_assemblies: popitem(last=False)` */
    method EvictIfFull()
      requires Valid()
      requires |assemblies.keys| >= limits.maxActive ==> assemblies.keys != []
      modifies this
      ensures Valid() && States() <= old(States())
      ensures contents == MakeRoom(old(contents), limits)
    {
      if |assemblies.keys| >= limits.maxActive {
        assemblies.PopFirstValid();
        contents.PopFirstValid();
        assemblies, contents := assemblies.PopFirst(), contents.PopFirst();
      }
    }

    /** `self._assemblies[key] = _AssemblyState(...)` */
    method Register(x: Input) returns (state: AssemblyState)
      requires Valid() && x.key !in assemblies.vals
      modifies this
      ensures Valid() && fresh(state) && States() <= old(States()) + {state}
      ensures contents == old(contents).Put(x.key, NewAssembly(x))
      ensures x.key in assemblies.vals && assemblies.vals[x.key] == state
    {
      state := new AssemblyState(x.key, x.total, x.originalType, x.now);
      Enter(x.key, state);
    }

    method Enter(key: AssemblyKey, state: AssemblyState)
      requires Valid() && key !in assemblies.vals && state.key == key
      modifies this`assemblies, this`contents
      ensures Valid() && States() <= old(States()) + {state}
      ensures contents == old(contents).Put(key, state.Value())
      ensures key in assemblies.vals && assemblies.vals[key] == state
    {
      assemblies.PutValid(key, state);
      contents.PutValid(key, state.Value());
      assemblies, contents := assemblies.Put(key, state), contents.Put(key, state.Value());
    }

    /** `del self._assemblies[key]` */
    method Discard(key: AssemblyKey)
      requires Valid()
      modifies this`assemblies, this`contents
      ensures Valid() && States() <= old(States())
      ensures contents == old(contents).Delete(key)
    {
      assemblies.DeleteValid(key);
      contents.DeleteValid(key);
      assemblies, contents := assemblies.Delete(key), contents.Delete(key);
    }

    /** The part of `_insert_chunk` that both branches share. */
    method StoreChunk(x: Input, state: AssemblyState) returns (r: Outcome)
      requires Valid() && x.key in assemblies.vals && assemblies.vals[x.key] == state
      modifies this`assemblies, this`contents, state
      ensures Valid() && States() <= old(States())
      ensures (contents, r) == Store(old(contents), limits, x)
    {
      if state.totalBytes + |x.chunk| > limits.maxBytes {
        Discard(x.key);
        return Failure(LimitExceeded);
      }
      AddToState(x, state);
      r := TakeIfComplete(x.key, state);
    }

    /** `state.chunks[index] = chunk_data; state.total_bytes += len(chunk_data)` */
    method AddToState(x: Input, state: AssemblyState)
      requires Valid() && x.key in assemblies.vals && assemblies.vals[x.key] == state
      modifies this`contents, state
      ensures Valid()
      ensures contents == old(contents).Put(x.key, AddChunk(old(contents).vals[x.key], x))
    {
      state.chunks := state.chunks[x.index := x.chunk];
      state.totalBytes := state.totalBytes + |x.chunk|;
      contents.PutValid(x.key, state.Value());
      contents := contents.Put(x.key, state.Value());
    }

    method TakeIfComplete(key: AssemblyKey, state: AssemblyState) returns (r: Outcome)
      requires Valid() && key in assemblies.vals && assemblies.vals[key] == state
      modifies this`assemblies, this`contents
      ensures Valid() && States() <= old(States())
      ensures (contents, r) == Finish(old(contents), key)
    {
      if |state.chunks| == state.total {
        var assembled := JoinChunks(state.chunks, state.total);
        if assembled.Some? {
          Discard(key);
        }
        return Success(assembled);
      }
      return Success(None);
    }

    method AddFragmentPacket(p: BitchatPacket, now: real) returns (r: Outcome)
      requires Valid()
      modifies this, States()
      ensures Valid() && fresh(States() - old(States()))
      ensures (contents, r) == AddPacket(old(contents), limits, p, now)
    {
      if !p.messageType.IsFragment() {
        return Failure(InvalidFragment);
      }
      var parsed := ParseFragmentPayload(p.payload);
      if parsed.Failure? {
        return Failure(parsed.error);
      }
      var f := parsed.value;
      if f.index == 0 && !p.messageType.FragmentStart? {
        return Failure(InvalidFragment);
      }
      if f.index == f.total - 1 && !p.messageType.FragmentEnd? {
        return Failure(InvalidFragment);
      }
      if 0 < f.index < f.total - 1 && !p.messageType.FragmentContinue? {
        return Failure(InvalidFragment);
      }
      r := InsertChunk(PacketInput(p.senderId, f, now));
    }

    method PruneStale(maxAge: real, now: real) returns (removed: nat)
      requires Valid()
      modifies this
      ensures Valid() && States() <= old(States())
      ensures var stale := StaleKeys(old(contents), |old(contents).keys|, maxAge, now);
              contents == old(contents).DeleteAll(stale) && removed == |stale|
    {
      var stale := CollectStale(maxAge, now);
      removed := |stale|;
      for i := 0 to |stale|
        invariant Valid() && States() <= old(States())
        invariant contents.DeleteAll(stale[i..]) == old(contents).DeleteAll(stale)
      {
        assert stale[i..][1..] == stale[i + 1..];
        Discard(stale[i]);
      }
    }

    method CollectStale(maxAge: real, now: real) returns (stale: seq<AssemblyKey>)
      requires Valid()
      ensures stale == StaleKeys(contents, |contents.keys|, maxAge, now)
    {
      stale := [];
      for i := 0 to |assemblies.keys|
        invariant stale == StaleKeys(contents, i, maxAge, now)
      {
        var k := assemblies.keys[i];
        if now - assemblies.vals[k].createdAt > maxAge {
          stale := stale + [k];
        }
      }
    }
  }
}
