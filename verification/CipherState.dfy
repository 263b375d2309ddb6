/** The AEAD cipher state with its counter and its replay window (`NoiseCipherState`, src/bitchat/crypto/noise.py). */
module CipherState {
  import opened Wrappers
  import opened ByteStrings
  import opened CryptoSuite

  const REPLAY_WINDOW_SIZE := 1024
  const MAX_COUNTER := 0x1_0000_0000_0000_0000

  datatype Cipher = Cipher(key: Option<Bytes>, nonce: nat, transport: bool, window: set<nat>, highest: nat)

  function NewCipher(key: Option<Bytes>, transport: bool): Cipher {
    Cipher(key, 0, transport, {}, 0)
  }

  // ---- nonces ----

  function ChachaNonce(counter: nat): (n: Bytes)
    ensures |n| == 12
  {
    Zeros(4) + LittleEndian(counter, 8)
  }

  function CounterToWire(counter: nat): (w: Bytes)
    ensures |w| == 4
  {
    LittleEndian(counter, 8)[..4]
  }

  function ExtractWireNonce(data: Bytes): Result<(nat, Bytes), CryptoError> {
    if |data| < 4 then Failure(InvalidNonce) else Success((FromLittleEndian(data[..4]), data[4..]))
  }

  predicate IsValidNonce(c: Cipher, received: nat) {
    if received + REPLAY_WINDOW_SIZE <= c.highest then false
    else if received > c.highest then true
    else received !in c.window
  }

  function MarkSeen(c: Cipher, received: nat): Cipher {
    if received > c.highest then
      var kept :=
        if received - c.highest >= REPLAY_WINDOW_SIZE then {}
        else set n | n in c.window && n + REPLAY_WINDOW_SIZE > received;
      c.(window := kept + {received}, highest := received)
    else c.(window := c.window + {received})
  }

  // ---- encrypt and decrypt ----

  function EncryptWith(s: Suite, c: Cipher, plaintext: Bytes, aad: Bytes): (Cipher, Result<Bytes, CryptoError>) {
    if c.key.None? then (c, Failure(NoiseState))
    else if c.nonce >= MAX_COUNTER then (c, Failure(CounterOverflow))
    else if |c.key.value| != KEY_SIZE then (c, Failure(Encryption))
    else
      var sealed := s.seal(c.key.value, ChachaNonce(c.nonce), aad, plaintext);
      (c.(nonce := c.nonce + 1), Success(if c.transport then CounterToWire(c.nonce) + sealed else sealed))
  }

  function OpenWith(s: Suite, key: Bytes, nonce: Bytes, aad: Bytes, payload: Bytes): Result<Bytes, CryptoError> {
    if |key| != KEY_SIZE then Failure(Decryption)
    else match s.open(key, nonce, aad, payload)
    case None => Failure(Decryption)
    case Some(plaintext) => Success(plaintext)
  }

  function DecryptWith(s: Suite, c: Cipher, ciphertext: Bytes, aad: Bytes): (Cipher, Result<Bytes, CryptoError>) {
    if c.key.None? then (c, Failure(NoiseState))
    else if c.transport then
      match ExtractWireNonce(ciphertext)
      case Failure(e) => (c, Failure(e))
      case Success((counter, payload)) =>
        if !IsValidNonce(c, counter) then (c, Failure(Replay))
        else
          var outcome := OpenWith(s, c.key.value, ChachaNonce(counter), aad, payload);
          (if outcome.Success? then MarkSeen(c, counter) else c, outcome)
    else if c.nonce >= MAX_COUNTER then (c, Failure(CounterOverflow))
    else
      var outcome := OpenWith(s, c.key.value, ChachaNonce(c.nonce), aad, ciphertext);
      (if outcome.Success? then c.(nonce := c.nonce + 1) else c, outcome)
  }

  // ---- what is refused ----

  /** The counter was received before, or is 1024 or more below the highest received. */
  predicate IsReplay(c: Cipher, counter: nat) {
    counter + 1024 <= c.highest || (counter <= c.highest && counter in c.window)
  }

  /** Each error of decryption, exactly; none changes the state. */
  lemma DecryptRefusedExactly(s: Suite, c: Cipher, data: Bytes, aad: Bytes)
    ensures var (c', r) := DecryptWith(s, c, data, aad);
            var keyed, cut := c.key.Some?, |data| < 4;
            && (r.Failure? ==> c' == c)
            && (r == Failure(NoiseState) <==> !keyed)
            && (r == Failure(InvalidNonce) <==> keyed && c.transport && cut)
            && (r == Failure(Replay) <==> keyed && c.transport && !cut && IsReplay(c, FromLittleEndian(data[..4])))
            && (r == Failure(CounterOverflow) <==> keyed && !c.transport && c.nonce >= MAX_COUNTER)
            && (r.Failure? && r.error !in {NoiseState, InvalidNonce, Replay, CounterOverflow} ==> r.error == Decryption)
  {}

  /** And of encryption. */
  lemma EncryptRefusedExactly(s: Suite, c: Cipher, plaintext: Bytes, aad: Bytes)
    ensures var (c', r) := EncryptWith(s, c, plaintext, aad);
            && (r.Failure? ==> c' == c)
            && (r == Failure(NoiseState) <==> c.key.None?)
            && (r == Failure(CounterOverflow) <==> c.key.Some? && c.nonce >= MAX_COUNTER)
            && (r == Failure(Encryption) <==> c.key.Some? && c.nonce < MAX_COUNTER && |c.key.value| != 32)
            && (r.Success? <==> c.key.Some? && c.nonce < MAX_COUNTER && |c.key.value| == 32)
  {}

  // ---- on the wire ----

  /** Four zeros and the counter, least significant byte first. */
  lemma NonceLayout(counter: nat)
    ensures var n := ChachaNonce(counter);
            n[..4] == [0, 0, 0, 0] && forall i :: 4 <= i < 12 ==> n[i] == Shifted(counter, i - 4) % 256
  {
    forall i | 0 <= i < 8 ensures LittleEndian(counter, 8)[i] == Shifted(counter, i) % 256 {
      LittleEndianAt(counter, 8, i);
    }
  }

  /** A transport message: the low four bytes of its counter, least significant first, and the plaintext sealed under
      the key with the whole counter as nonce. The next message has the next counter. */
  lemma SentExactly(s: Suite, c: Cipher, plaintext: Bytes, aad: Bytes)
    requires c.transport && c.key.Some? && |c.key.value| == KEY_SIZE && c.nonce < MAX_COUNTER
    ensures var (c', r) := EncryptWith(s, c, plaintext, aad);
            && r.Success? && c' == c.(nonce := c.nonce + 1) && |r.value| >= 4
            && r.value[4..] == s.seal(c.key.value, ChachaNonce(c.nonce), aad, plaintext)
            && forall i :: 0 <= i < 4 ==> r.value[i] == Shifted(c.nonce, i) % 256
  {
    forall i | 0 <= i < 4 ensures CounterToWire(c.nonce)[i] == Shifted(c.nonce, i) % 256 {
      LittleEndianAt(c.nonce, 8, i);
    }
  }

  class NoiseCipherState {
    var key: Option<Bytes>
    var nonce: nat
    const transport: bool  // use_extracted_nonce
    var replayWindow: set<nat>
    var highestReceivedNonce: nat

    function State(): Cipher
      reads this
    {
      Cipher(key, nonce, transport, replayWindow, highestReceivedNonce)
    }

    constructor (key: Option<Bytes>, transport: bool)
      ensures State() == NewCipher(key, transport)
    {
      this.key, this.transport, nonce, replayWindow, highestReceivedNonce := key, transport, 0, {}, 0;
    }

    method InitializeKey(k: Bytes)
      modifies this
      ensures State() == NewCipher(Some(k), transport)
    {
      key, nonce, replayWindow, highestReceivedNonce := Some(k), 0, {}, 0;
    }

    method MarkNonceSeen(received: nat)
      modifies this`replayWindow, this`highestReceivedNonce
      ensures State() == MarkSeen(old(State()), received)
    {
      if received > highestReceivedNonce {
        var shift := received - highestReceivedNonce;
        if shift >= REPLAY_WINDOW_SIZE {
          replayWindow := {};
        } else {
          replayWindow := set n | n in replayWindow && n + REPLAY_WINDOW_SIZE > received;
        }
        highestReceivedNonce := received;
      }
      replayWindow := replayWindow + {received};
    }

    method Encrypt(s: Suite, plaintext: Bytes, aad: Bytes) returns (r: Result<Bytes, CryptoError>)
      modifies this`nonce
      ensures (State(), r) == EncryptWith(s, old(State()), plaintext, aad)
    {
      if key.None? {
        return Failure(NoiseState);
      }
      var current := nonce;
      if current >= MAX_COUNTER {
        return Failure(CounterOverflow);
      }
      if |key.value| != KEY_SIZE {
        return Failure(Encryption);
      }
      var ciphertext := s.seal(key.value, ChachaNonce(current), aad, plaintext);
      nonce := nonce + 1;
      r := Success(if transport then CounterToWire(current) + ciphertext else ciphertext);
    }

    method Decrypt(s: Suite, ciphertext: Bytes, aad: Bytes) returns (r: Result<Bytes, CryptoError>)
      modifies this
      ensures (State(), r) == DecryptWith(s, old(State()), ciphertext, aad)
      ensures r.Failure? ==> State() == old(State())
    {
      if key.None? {
        return Failure(NoiseState);
      }
      var counter, payload := nonce, ciphertext;
      if transport {
        var extracted := ExtractWireNonce(ciphertext);
        if extracted.Failure? {
          return Failure(extracted.error);
        }
        counter, payload := extracted.value.0, extracted.value.1;
        if !IsValidNonce(State(), counter) {
          return Failure(Replay);
        }
      } else if nonce >= MAX_COUNTER {
        return Failure(CounterOverflow);
      }
      r := OpenWith(s, key.value, ChachaNonce(counter), aad, payload);
      if r.Success? {
        if transport {
          MarkNonceSeen(counter);
        } else {
          nonce := nonce + 1;
        }
      }
    }
  }
}
