/** The replay window against the full history, and the channel that two cipher states make. */
module TransportChannel {
  import opened Wrappers
  import opened ByteStrings
  import opened Lists
  import opened CryptoSuite
  import opened CipherState

  // ---- the full history ----

  /** The greatest counter of a history, 0 if there is none. */
  function Highest(history: seq<nat>): (h: nat)
    ensures forall n :: n in history ==> n <= h
    ensures history != [] ==> h in history
  {
    if history == [] then 0
    else
      var front := Highest(history[..|history| - 1]);
      var last := history[|history| - 1];
      assert forall n :: n in history ==> n in history[..|history| - 1] || n == last;
      if last > front then last
      else
        assert |history| == 1 ==> last == 0;
        front
  }

  /** The window and the highest counter are what the history of accepted counters makes them. */
  ghost predicate Tracks(c: Cipher, accepted: seq<nat>) {
    && c.highest == Highest(accepted)
    && (forall n :: n in c.window ==> n in accepted && n + REPLAY_WINDOW_SIZE > c.highest)
    && (forall n :: n in accepted && n + REPLAY_WINDOW_SIZE > c.highest ==> n in c.window)
  }

  /** With the full history at hand a counter is accepted if and only if it is new and not too old. */
  predicate Acceptable(accepted: seq<nat>, counter: nat) {
    counter !in accepted && counter + REPLAY_WINDOW_SIZE > Highest(accepted)
  }

  lemma ValidIffAcceptable(c: Cipher, accepted: seq<nat>, counter: nat)
    requires Tracks(c, accepted)
    ensures IsValidNonce(c, counter) <==> Acceptable(accepted, counter)
  {}

  lemma MarkSeenTracks(c: Cipher, accepted: seq<nat>, counter: nat)
    requires Tracks(c, accepted) && Acceptable(accepted, counter)
    ensures Tracks(MarkSeen(c, counter), accepted + [counter])
  {
    HighestAppend(accepted, counter);
    var longer := accepted + [counter];
    assert forall n :: n in longer <==> n in accepted || n == counter;
  }

  lemma HighestAppend(history: seq<nat>, n: nat)
    ensures Highest(history + [n]) == if n > Highest(history) then n else Highest(history)
  {
    assert (history + [n])[..|history|] == history;
  }

  /** The window never holds more than 1024 counters. */
  lemma WindowBounded(c: Cipher, accepted: seq<nat>)
    requires Tracks(c, accepted)
    ensures |c.window| <= REPLAY_WINDOW_SIZE
  {
    RangeBound(c.window, c.highest, REPLAY_WINDOW_SIZE);
  }

  lemma {:induction false} RangeBound(s: set<nat>, top: int, size: nat)
    requires forall n :: n in s ==> top - size < n <= top
    ensures |s| <= size
    decreases size
  {
    if size == 0 {
      assert s == {};
    } else {
      var lowest := top - size + 1;
      var rest := set n | n in s && n != lowest;
      RangeBound(rest, top, size - 1);
      if lowest >= 0 {
        assert s <= rest + {lowest};
        SubsetSize(s, rest + {lowest});
      } else {
        assert s == rest;
      }
    }
  }

  // ---- any run of decryptions ----

  datatype Delivery = Delivery(ciphertext: Bytes, aad: Bytes)

  function DecryptRun(s: Suite, c: Cipher, msgs: seq<Delivery>): (Cipher, seq<Result<Bytes, CryptoError>>)
    decreases msgs
  {
    if msgs == [] then (c, [])
    else
      var (c', r) := DecryptWith(s, c, msgs[0].ciphertext, msgs[0].aad);
      var (final, rest) := DecryptRun(s, c', msgs[1..]);
      (final, [r] + rest)
  }

  /** The reference receiver: it keeps every counter it ever accepted. */
  function ReferenceStep(s: Suite, key: Bytes, accepted: seq<nat>, d: Delivery)
    : (seq<nat>, Result<Bytes, CryptoError>)
  {
    match ExtractWireNonce(d.ciphertext)
    case Failure(e) => (accepted, Failure(e))
    case Success((counter, payload)) =>
      if !Acceptable(accepted, counter) then (accepted, Failure(Replay))
      else
        var outcome := OpenWith(s, key, ChachaNonce(counter), d.aad, payload);
        (if outcome.Success? then accepted + [counter] else accepted, outcome)
  }

  function ReferenceRun(s: Suite, key: Bytes, accepted: seq<nat>, msgs: seq<Delivery>)
    : (seq<nat>, seq<Result<Bytes, CryptoError>>)
    decreases msgs
  {
    if msgs == [] then (accepted, [])
    else
      var (accepted', r) := ReferenceStep(s, key, accepted, msgs[0]);
      var (final, rest) := ReferenceRun(s, key, accepted', msgs[1..]);
      (final, [r] + rest)
  }

  lemma OneMoreAccepted(c: Cipher, accepted: seq<nat>, counter: nat)
    requires Tracks(c, accepted) && Distinct(accepted) && Acceptable(accepted, counter)
    ensures Tracks(MarkSeen(c, counter), accepted + [counter]) && Distinct(accepted + [counter])
  {
    MarkSeenTracks(c, accepted, counter);
    DistinctAppend(accepted, counter);
  }

  lemma StepRefines(s: Suite, c: Cipher, accepted: seq<nat>, d: Delivery)
    requires c.key.Some? && c.transport && Tracks(c, accepted) && Distinct(accepted)
    ensures var (c', r) := DecryptWith(s, c, d.ciphertext, d.aad);
            var (accepted', r') := ReferenceStep(s, c.key.value, accepted, d);
            && r == r' && Tracks(c', accepted') && Distinct(accepted')
            && c'.key == c.key && c'.transport
            && (r.Failure? ==> c' == c)
  {
    match ExtractWireNonce(d.ciphertext) {
      case Failure(e) =>
      case Success((counter, payload)) =>
        ValidIffAcceptable(c, accepted, counter);
        if Acceptable(accepted, counter) {
          OneMoreAccepted(c, accepted, counter);
        }
    }
  }

  /** The bounded window refines the unbounded history: over every run of deliveries, honest or not, the receiver's
      answers are those of the reference receiver, no counter is accepted twice, and the window is exactly the
      recent part of what was accepted. */
  lemma {:induction false} WindowRefinesHistory(s: Suite, c: Cipher, accepted: seq<nat>, msgs: seq<Delivery>)
    requires c.key.Some? && c.transport && Tracks(c, accepted) && Distinct(accepted)
    ensures var (c', out) := DecryptRun(s, c, msgs);
            var (accepted', out') := ReferenceRun(s, c.key.value, accepted, msgs);
            && out == out' && Tracks(c', accepted') && Distinct(accepted')
            && accepted <= accepted' && |c'.window| <= REPLAY_WINDOW_SIZE
    decreases msgs
  {
    if msgs == [] {
      WindowBounded(c, accepted);
    } else {
      StepRefines(s, c, accepted, msgs[0]);
      var c' := DecryptWith(s, c, msgs[0].ciphertext, msgs[0].aad).0;
      var accepted' := ReferenceStep(s, c.key.value, accepted, msgs[0]).0;
      WindowRefinesHistory(s, c', accepted', msgs[1..]);
    }
  }

  /** A receiver that starts fresh tracks the empty history. */
  lemma FreshTracks(key: Bytes)
    ensures Tracks(NewCipher(Some(key), true), [])
  {}

  // ---- wire counters ----

  /** The receiver reads the sender's counter back exactly below 2^32: only the low 32 bits travel. */
  lemma WireCounterExact(counter: nat, sealed: Bytes)
    requires counter < MAX_COUNTER
    ensures var r := ExtractWireNonce(CounterToWire(counter) + sealed);
            r.Success? && r.value.1 == sealed && (r.value.0 == counter <==> counter < 0x1_0000_0000)
  {
    var wire := CounterToWire(counter) + sealed;
    assert wire[..4] == CounterToWire(counter) && wire[4..] == sealed;
    LittleEndianPrefix(counter, 8, 4);
    LittleEndianRoundTrip(counter, 4);
    assert Pow256(4) == 0x1_0000_0000 by { assert Pow256(2) == 65536; }
  }

  /** No nonce is used twice under one key: distinct counters give distinct 12-byte nonces. */
  lemma NoncesDistinct(m: nat, n: nat)
    requires m < MAX_COUNTER && n < MAX_COUNTER
    requires ChachaNonce(m) == ChachaNonce(n)
    ensures m == n
  {
    assert ChachaNonce(m)[4..] == LittleEndian(m, 8);
    assert ChachaNonce(n)[4..] == LittleEndian(n, 8);
    assert Pow256(8) == MAX_COUNTER by {
      assert Pow256(4) == 0x1_0000_0000 by { assert Pow256(2) == 65536; }
      assert Pow256(6) == 0x1_0000_0000_0000;
    }
    LittleEndianInjective(m, n, 8);
  }

  // ---- the channel ----

  function EncryptRun(s: Suite, c: Cipher, plaintexts: seq<Bytes>, aad: Bytes)
    : (Cipher, seq<Result<Bytes, CryptoError>>)
    decreases plaintexts
  {
    if plaintexts == [] then (c, [])
    else
      var (c', r) := EncryptWith(s, c, plaintexts[0], aad);
      var (final, rest) := EncryptRun(s, c', plaintexts[1..], aad);
      (final, [r] + rest)
  }

  /** Message `i` of a sender: sealed under the nonce of counter `i`. */
  function WireAt(s: Suite, key: Bytes, i: nat, plaintext: Bytes, aad: Bytes): Bytes {
    CounterToWire(i) + s.seal(key, ChachaNonce(i), aad, plaintext)
  }

  ghost predicate SentFrom(s: Suite, key: Bytes, first: nat, plaintexts: seq<Bytes>, aad: Bytes,
                           sent: seq<Result<Bytes, CryptoError>>)
  {
    && |sent| == |plaintexts|
    && forall i :: 0 <= i < |sent| ==> sent[i] == Success(WireAt(s, key, first + i, plaintexts[i], aad))
  }

  /** A sender counts up from its counter: every message goes out under its own counter, so no nonce repeats. */
  lemma {:induction false} SenderCounts(s: Suite, c: Cipher, plaintexts: seq<Bytes>, aad: Bytes)
    requires c.key.Some? && |c.key.value| == KEY_SIZE && c.transport
    requires c.nonce + |plaintexts| <= MAX_COUNTER
    ensures var (c', sent) := EncryptRun(s, c, plaintexts, aad);
            && c' == c.(nonce := c.nonce + |plaintexts|)
            && SentFrom(s, c.key.value, c.nonce, plaintexts, aad, sent)
    decreases plaintexts
  {
    if plaintexts != [] {
      var (c', r) := EncryptWith(s, c, plaintexts[0], aad);
      var rest := EncryptRun(s, c', plaintexts[1..], aad).1;
      SenderCounts(s, c', plaintexts[1..], aad);
      SentFromFirst(s, c.key.value, c.nonce, plaintexts, aad, rest);
    }
  }

  lemma SentFromFirst(s: Suite, key: Bytes, first: nat, plaintexts: seq<Bytes>, aad: Bytes,
                      rest: seq<Result<Bytes, CryptoError>>)
    requires plaintexts != [] && SentFrom(s, key, first + 1, plaintexts[1..], aad, rest)
    ensures SentFrom(s, key, first, plaintexts, aad, [Success(WireAt(s, key, first, plaintexts[0], aad))] + rest)
  {
    var sent := [Success(WireAt(s, key, first, plaintexts[0], aad))] + rest;
    forall i | 0 <= i < |sent|
      ensures sent[i] == Success(WireAt(s, key, first + i, plaintexts[i], aad))
    {
      if i > 0 {
        assert sent[i] == rest[i - 1];
        assert plaintexts[1..][i - 1] == plaintexts[i];
      }
    }
  }

  /** Every entry of the schedule is the number of a message. */
  ghost predicate Numbers(schedule: seq<nat>, n: nat) {
    forall t :: 0 <= t < |schedule| ==> schedule[t] < n
  }

  /** The deliveries of a schedule: any sequence of message numbers, with losses, repeats and reordering. */
  ghost function Deliveries(s: Suite, key: Bytes, plaintexts: seq<Bytes>, aad: Bytes, schedule: seq<nat>): seq<Delivery>
    requires Numbers(schedule, |plaintexts|)
  {
    seq(|schedule|, t requires 0 <= t < |schedule| =>
      Delivery(WireAt(s, key, schedule[t], plaintexts[schedule[t]], aad), aad))
  }

  /** What a delivery of message `i` gives after the deliveries `before`. */
  function Expected(plaintexts: seq<Bytes>, before: seq<nat>, i: nat): Result<Bytes, CryptoError>
    requires i < |plaintexts|
  {
    if i !in before && i + REPLAY_WINDOW_SIZE > Highest(before) then Success(plaintexts[i]) else Failure(Replay)
  }

  ghost predicate AsExpected(
      plaintexts: seq<Bytes>, before: seq<nat>, schedule: seq<nat>, out: seq<Result<Bytes, CryptoError>>)
    requires Numbers(schedule, |plaintexts|)
  {
    && |out| == |schedule|
    && forall t :: 0 <= t < |schedule| ==>
         out[t] == Expected(plaintexts, before + schedule[..t], schedule[t])
  }

  /** The history accepted so far, seen from the deliveries so far: what is missing from it came too late. */
  ghost predicate AcceptedOf(accepted: seq<nat>, before: seq<nat>) {
    && Highest(accepted) == Highest(before)
    && (forall n :: n in accepted ==> n in before)
    && (forall n :: n in before ==> n in accepted || n + REPLAY_WINDOW_SIZE <= Highest(before))
  }

  lemma DeliverOne(
      s: Suite, key: Bytes, plaintexts: seq<Bytes>, aad: Bytes, accepted: seq<nat>, before: seq<nat>, i: nat)
    requires s.Aead() && |key| == KEY_SIZE && i < |plaintexts| <= 0x1_0000_0000 && AcceptedOf(accepted, before)
    ensures var (accepted', r) := ReferenceStep(s, key, accepted, Delivery(WireAt(s, key, i, plaintexts[i], aad), aad));
            && r == Expected(plaintexts, before, i)
            && AcceptedOf(accepted', before + [i])
  {
    WireCounterExact(i, s.seal(key, ChachaNonce(i), aad, plaintexts[i]));
    var d := Delivery(WireAt(s, key, i, plaintexts[i], aad), aad);
    assert ExtractWireNonce(d.ciphertext) == Success((i, s.seal(key, ChachaNonce(i), aad, plaintexts[i])));
    assert Acceptable(accepted, i) <==> i !in before && i + REPLAY_WINDOW_SIZE > Highest(before);
    HighestAppend(before, i);
    HighestAppend(accepted, i);
  }

  lemma {:induction false} DeliverAll(s: Suite, key: Bytes, plaintexts: seq<Bytes>, aad: Bytes, accepted: seq<nat>,
                                      before: seq<nat>, schedule: seq<nat>)
    requires s.Aead() && |key| == KEY_SIZE && |plaintexts| <= 0x1_0000_0000 && AcceptedOf(accepted, before)
    requires Numbers(schedule, |plaintexts|)
    ensures var out := ReferenceRun(s, key, accepted, Deliveries(s, key, plaintexts, aad, schedule)).1;
            AsExpected(plaintexts, before, schedule, out)
    decreases schedule
  {
    if schedule != [] {
      var i, later := schedule[0], schedule[1..];
      assert Numbers(later, |plaintexts|) by {
        assert forall t :: 0 <= t < |later| ==> later[t] == schedule[t + 1];
      }
      DeliverOne(s, key, plaintexts, aad, accepted, before, i);
      var all := Deliveries(s, key, plaintexts, aad, schedule);
      assert all[1..] == Deliveries(s, key, plaintexts, aad, later);
      var accepted' := ReferenceStep(s, key, accepted, all[0]).0;
      DeliverAll(s, key, plaintexts, aad, accepted', before + [i], later);
      var rest := ReferenceRun(s, key, accepted', all[1..]).1;
      AsExpectedFirst(plaintexts, before, schedule, rest);
    }
  }

  /** The deliveries before the one at `t`, with the first of the schedule counted among those before it. */
  lemma BeforeShifts(before: seq<nat>, schedule: seq<nat>, t: nat)
    requires 0 < t < |schedule|
    ensures before + [schedule[0]] + schedule[1..][..t - 1] == before + schedule[..t]
  {
    assert [schedule[0]] + schedule[1..][..t - 1] == schedule[..t];
  }

  lemma OutputShifts(first: Result<Bytes, CryptoError>, rest: seq<Result<Bytes, CryptoError>>, t: nat)
    requires 0 < t <= |rest|
    ensures ([first] + rest)[t] == rest[t - 1]
  {}

  lemma AsExpectedAt(
      plaintexts: seq<Bytes>, before: seq<nat>, schedule: seq<nat>, rest: seq<Result<Bytes, CryptoError>>, t: nat)
    requires 0 < t < |schedule| && Numbers(schedule, |plaintexts|) && Numbers(schedule[1..], |plaintexts|)
    requires AsExpected(plaintexts, before + [schedule[0]], schedule[1..], rest)
    ensures rest[t - 1] == Expected(plaintexts, before + schedule[..t], schedule[t])
  {
    BeforeShifts(before, schedule, t);
    assert schedule[1..][t - 1] == schedule[t];
  }

  lemma AsExpectedFirst(
      plaintexts: seq<Bytes>, before: seq<nat>, schedule: seq<nat>, rest: seq<Result<Bytes, CryptoError>>)
    requires schedule != [] && Numbers(schedule, |plaintexts|) && Numbers(schedule[1..], |plaintexts|)
    requires AsExpected(plaintexts, before + [schedule[0]], schedule[1..], rest)
    ensures AsExpected(plaintexts, before, schedule, [Expected(plaintexts, before, schedule[0])] + rest)
  {
    var first := Expected(plaintexts, before, schedule[0]);
    forall t | 0 <= t < |schedule|
      ensures ([first] + rest)[t] == Expected(plaintexts, before + schedule[..t], schedule[t])
    {
      if t == 0 {
        assert before + schedule[..0] == before;
      } else {
        OutputShifts(first, rest, t);
        AsExpectedAt(plaintexts, before, schedule, rest, t);
      }
    }
  }

  /** The transport channel: for a sender's first 2^32 messages and any schedule of losses, repeats and reordering,
      a delivery yields its plaintext if and only if it is the first arrival of that message and not more than 1023
      behind the newest one; any other delivery is refused as a replay. */
  lemma ChannelDelivers(s: Suite, key: Bytes, plaintexts: seq<Bytes>, aad: Bytes, schedule: seq<nat>)
    requires s.Aead() && |key| == KEY_SIZE && |plaintexts| <= 0x1_0000_0000
    requires Numbers(schedule, |plaintexts|)
    ensures SentFrom(s, key, 0, plaintexts, aad, EncryptRun(s, NewCipher(Some(key), true), plaintexts, aad).1)
    ensures var out := DecryptRun(s, NewCipher(Some(key), true), Deliveries(s, key, plaintexts, aad, schedule)).1;
            AsExpected(plaintexts, [], schedule, out)
  {
    var c := NewCipher(Some(key), true);
    SenderCounts(s, c, plaintexts, aad);
    FreshTracks(key);
    WindowRefinesHistory(s, c, [], Deliveries(s, key, plaintexts, aad, schedule));
    DeliverAll(s, key, plaintexts, aad, [], [], schedule);
  }

  /** So no message is output twice. */
  lemma EachMessageAtMostOnce(
      plaintexts: seq<Bytes>, schedule: seq<nat>, out: seq<Result<Bytes, CryptoError>>, t: nat, u: nat)
    requires Numbers(schedule, |plaintexts|)
    requires AsExpected(plaintexts, [], schedule, out)
    requires t < u < |schedule| && out[t].Success? && out[u].Success?
    ensures schedule[t] != schedule[u]
  {
    assert schedule[t] == ([] + schedule[..u])[t];
  }
}
