/** Chaining key, transcript hash and cipher of a running handshake (`NoiseSymmetricState`,
    src/bitchat/crypto/noise.py; section 5.2 of the Noise Protocol Framework). */
module SymmetricState {
  import opened Wrappers
  import opened ByteStrings
  import opened CryptoSuite
  import opened CipherState

  datatype Sym = Sym(hash: Bytes, chainingKey: Bytes, cipher: Cipher)

  /** A short protocol name is padded with zeros, a long one hashed. */
  function InitialHash(s: Suite, name: Bytes): Bytes {
    if |name| <= KEY_SIZE then name + Zeros(KEY_SIZE - |name|) else s.sha256(name)
  }

  function NewSym(s: Suite, name: Bytes): Sym {
    Sym(InitialHash(s, name), InitialHash(s, name), NewCipher(None, false))
  }

  function MixHash(s: Suite, y: Sym, data: Bytes): Sym {
    y.(hash := s.sha256(y.hash + data))
  }

  function MixKey(s: Suite, y: Sym, ikm: Bytes): Sym {
    TwoBlocks(s, y.chainingKey, ikm);
    var blocks := Hkdf(s, y.chainingKey, ikm, 2);
    Sym(y.hash, blocks[0], NewCipher(Some(blocks[1]), y.cipher.transport))
  }

  function EncryptAndHash(s: Suite, y: Sym, plaintext: Bytes): (Sym, Result<Bytes, CryptoError>) {
    if y.cipher.key.None? then (MixHash(s, y, plaintext), Success(plaintext))
    else
      var (c, r) := EncryptWith(s, y.cipher, plaintext, y.hash);
      var y' := y.(cipher := c);
      (if r.Success? then MixHash(s, y', r.value) else y', r)
  }

  /** A failed or replayed decryption surfaces as AuthenticationError, other errors as they are. */
  function AsAuthentication(r: Result<Bytes, CryptoError>): Result<Bytes, CryptoError> {
    if r == Failure(Decryption) || r == Failure(Replay) then Failure(Authentication) else r
  }

  function DecryptAndHash(s: Suite, y: Sym, ciphertext: Bytes): (Sym, Result<Bytes, CryptoError>) {
    if y.cipher.key.None? then (MixHash(s, y, ciphertext), Success(ciphertext))
    else if ciphertext == [] then (MixHash(s, y, []), Success([]))
    else
      var (c, r) := DecryptWith(s, y.cipher, ciphertext, y.hash);
      var y' := y.(cipher := c);
      (if r.Success? then MixHash(s, y', ciphertext) else y', AsAuthentication(r))
  }

  /** The two transport ciphers, for the two directions. */
  function Split(s: Suite, y: Sym): (Cipher, Cipher) {
    TwoBlocks(s, y.chainingKey, []);
    var blocks := Hkdf(s, y.chainingKey, [], 2);
    (NewCipher(Some(blocks[0]), true), NewCipher(Some(blocks[1]), true))
  }

  class NoiseSymmetricState {
    var hash: Bytes
    var chainingKey: Bytes
    const cipher: NoiseCipherState

    function State(): Sym
      reads this, cipher
    {
      Sym(hash, chainingKey, cipher.State())
    }

    constructor (s: Suite, name: Bytes)
      ensures State() == NewSym(s, name) && fresh(cipher)
    {
      hash, chainingKey := InitialHash(s, name), InitialHash(s, name);
      cipher := new NoiseCipherState(None, false);
    }

    method MixHashData(s: Suite, data: Bytes)
      modifies this`hash
      ensures State() == MixHash(s, old(State()), data)
    {
      hash := s.sha256(hash + data);
    }

    method MixKeyMaterial(s: Suite, ikm: Bytes)
      modifies this, cipher
      ensures State() == MixKey(s, old(State()), ikm)
    {
      var outputs := NoiseHkdf(s, chainingKey, ikm, 2);
      TwoBlocks(s, chainingKey, ikm);
      chainingKey := outputs.value[0];
      cipher.InitializeKey(outputs.value[1]);
    }

    method EncryptHashing(s: Suite, plaintext: Bytes) returns (r: Result<Bytes, CryptoError>)
      modifies this, cipher
      ensures (State(), r) == EncryptAndHash(s, old(State()), plaintext)
    {
      if cipher.key.Some? {
        r := cipher.Encrypt(s, plaintext, hash);
        if r.Success? {
          MixHashData(s, r.value);
        }
      } else {
        MixHashData(s, plaintext);
        r := Success(plaintext);
      }
    }

    method DecryptHashing(s: Suite, ciphertext: Bytes) returns (r: Result<Bytes, CryptoError>)
      modifies this, cipher
      ensures (State(), r) == DecryptAndHash(s, old(State()), ciphertext)
    {
      if cipher.key.Some? {
        if ciphertext == [] {
          MixHashData(s, []);
          return Success([]);
        }
        r := cipher.Decrypt(s, ciphertext, hash);
        if r.Success? {
          MixHashData(s, ciphertext);
        }
        r := AsAuthentication(r);
      } else {
        MixHashData(s, ciphertext);
        r := Success(ciphertext);
      }
    }

    method SplitCiphers(s: Suite) returns (c1: NoiseCipherState, c2: NoiseCipherState)
      ensures fresh(c1) && fresh(c2) && c1 != c2
      ensures (c1.State(), c2.State()) == Split(s, State())
    {
      var outputs := NoiseHkdf(s, chainingKey, [], 2);
      TwoBlocks(s, chainingKey, []);
      c1 := new NoiseCipherState(Some(outputs.value[0]), true);
      c2 := new NoiseCipherState(Some(outputs.value[1]), true);
    }
  }

  // ---- lockstep ----

  /** Two symmetric states that agree stay in agreement when one encrypts and the other decrypts, and the plaintext
      gets across. */
  lemma CryptLockstep(s: Suite, y: Sym, plaintext: Bytes)
    requires s.Aead()
    requires y.cipher.key.Some? ==>
             |y.cipher.key.value| == KEY_SIZE && y.cipher.nonce < MAX_COUNTER && !y.cipher.transport
    ensures var (w, sent) := EncryptAndHash(s, y, plaintext);
            && sent.Success?
            && |sent.value| == |plaintext| + (if y.cipher.key.Some? then TAG_SIZE else 0)
            && DecryptAndHash(s, y, sent.value) == (w, Success(plaintext))
            && w.chainingKey == y.chainingKey && w.cipher.key == y.cipher.key
            && w.cipher.transport == y.cipher.transport
            && w.cipher.nonce <= y.cipher.nonce + 1
  {}
}
