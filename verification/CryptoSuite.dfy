/** The cryptographic library as a record of functions. Nothing is known of them but the laws below. */
module CryptoSuite {
  import opened Wrappers
  import opened ByteStrings

  const KEY_SIZE := 32
  const TAG_SIZE := 16

  datatype CryptoError =
    | NoiseState       // NoiseStateError
    | NoiseProtocol    // NoiseError
    | Authentication   // AuthenticationError
    | InvalidNonce     // InvalidNonceError
    | Replay           // ReplayError
    | Encryption       // EncryptionError
    | Decryption       // DecryptionError
    | InvalidKey       // InvalidKeyError
    | KeyExchange      // KeyExchangeError
    | CounterOverflow  // OverflowError from int.to_bytes
    | BadValue         // ValueError

  datatype Suite = Suite(
    publicOf: Bytes -> Bytes,                        // X25519 public key of a private key
    isWeak: Bytes -> bool,                           // low-order or unparsable public key
    exchange: (Bytes, Bytes) -> Option<Bytes>,       // X25519(private, public)
    sha256: Bytes -> Bytes,
    hmac: (Bytes, Bytes) -> Bytes,                   // HMAC-SHA256(key, message)
    seal: (Bytes, Bytes, Bytes, Bytes) -> Bytes,     // ChaCha20-Poly1305(key, nonce, aad, plaintext)
    open: (Bytes, Bytes, Bytes, Bytes) -> Option<Bytes>)
  {
    /** `validate_public_key` */
    predicate ValidPublic(k: Bytes) {
      |k| == KEY_SIZE && !isWeak(k)
    }

    /** `diffie_hellman` */
    function DiffieHellman(priv: Bytes, remote: Bytes): Result<Bytes, CryptoError> {
      if |priv| != KEY_SIZE then Failure(InvalidKey)
      else if !ValidPublic(remote) then Failure(InvalidKey)
      else match exchange(priv, remote)
      case None => Failure(KeyExchange)
      case Some(shared) => Success(shared)
    }

    /** The exchange is made exactly with a private key of 32 bytes and a public key of 32 bytes that is not weak. */
    lemma ExchangedExactly(priv: Bytes, remote: Bytes)
      ensures var r := DiffieHellman(priv, remote);
              && (r.Success? <==> |priv| == 32 && |remote| == 32 && !isWeak(remote) && exchange(priv, remote).Some?)
              && (r.Success? ==> Some(r.value) == exchange(priv, remote))
              && (r == Failure(KeyExchange) <==> |priv| == 32 && |remote| == 32 && !isWeak(remote)
                                                 && exchange(priv, remote).None?)
    {}

    /** Keys that were generated honestly are valid and exchange to a common secret. */
    ghost predicate HonestKeys() {
      && (forall a {:trigger publicOf(a)} :: |a| == KEY_SIZE ==> ValidPublic(publicOf(a)))
      && (forall a, b {:trigger exchange(a, publicOf(b))} :: |a| == KEY_SIZE && |b| == KEY_SIZE ==>
            exchange(a, publicOf(b)).Some? && exchange(a, publicOf(b)) == exchange(b, publicOf(a)))
    }

    ghost predicate Digests() {
      && (forall x {:trigger sha256(x)} :: |sha256(x)| == KEY_SIZE)
      && (forall k, x {:trigger hmac(k, x)} :: |hmac(k, x)| == KEY_SIZE)
    }

    /** Opening undoes sealing. */
    ghost predicate Aead() {
      forall k, n, aad, p {:trigger seal(k, n, aad, p)} ::
        open(k, n, aad, seal(k, n, aad, p)) == Some(p) && |seal(k, n, aad, p)| == |p| + TAG_SIZE
    }

    ghost predicate Lawful() {
      HonestKeys() && Digests() && Aead()
    }
  }

  /** A suite without any secrecy that has all the laws: they do not contradict one another. */
  function ToySuite(): Suite {
    Suite(
      (a: Bytes) => if |a| == KEY_SIZE then a else Zeros(KEY_SIZE),
      (k: Bytes) => false,
      (a: Bytes, b: Bytes) => Some(Zeros(KEY_SIZE)),
      (x: Bytes) => Zeros(KEY_SIZE),
      (k: Bytes, x: Bytes) => Zeros(KEY_SIZE),
      (k: Bytes, n: Bytes, aad: Bytes, p: Bytes) => Zeros(TAG_SIZE) + p,
      (k: Bytes, n: Bytes, aad: Bytes, c: Bytes) => if |c| < TAG_SIZE then None else Some(c[TAG_SIZE..]))
  }

  lemma LawsAreConsistent()
    ensures ToySuite().Lawful()
  {
    var s := ToySuite();
    forall k, n, aad, p
      ensures s.open(k, n, aad, s.seal(k, n, aad, p)) == Some(p) && |s.seal(k, n, aad, p)| == |p| + TAG_SIZE
    {
      assert (Zeros(TAG_SIZE) + p)[TAG_SIZE..] == p;
    }
  }

  // ---- noise_hkdf (src/bitchat/crypto/hkdf.py) ----

  /** The first `n` blocks of the chain: each is the HMAC of the block before it and its own number. */
  function HkdfBlocks(s: Suite, tempKey: Bytes, n: nat): seq<Bytes>
    requires n <= 255
  {
    if n == 0 then []
    else
      var blocks := HkdfBlocks(s, tempKey, n - 1);
      var previous := if blocks == [] then [] else blocks[|blocks| - 1];
      blocks + [s.hmac(tempKey, previous + [n])]
  }

  function Hkdf(s: Suite, chainingKey: Bytes, ikm: Bytes, n: nat): seq<Bytes>
    requires n <= 255
  {
    HkdfBlocks(s, s.hmac(chainingKey, ikm), n)
  }

  method NoiseHkdf(s: Suite, chainingKey: Bytes, ikm: Bytes, numOutputs: int)
    returns (r: Result<seq<Bytes>, CryptoError>)
    ensures r == if 1 <= numOutputs <= 255 then Success(Hkdf(s, chainingKey, ikm, numOutputs)) else Failure(BadValue)
  {
    if numOutputs < 1 || numOutputs > 255 {
      return Failure(BadValue);
    }
    var tempKey := s.hmac(chainingKey, ikm);
    var outputs: seq<Bytes> := [];
    var current: Bytes := [];
    for i := 1 to numOutputs + 1
      invariant outputs == HkdfBlocks(s, tempKey, i - 1)
      invariant current == if outputs == [] then [] else outputs[|outputs| - 1]
    {
      current := s.hmac(tempKey, current + [i]);
      outputs := outputs + [current];
    }
    return Success(outputs);
  }

  /** T(i) of HKDF-Expand, section 2.3 of RFC 5869. */
  function ExpandT(s: Suite, prk: Bytes, info: Bytes, i: nat): Bytes
    requires i <= 255
  {
    if i == 0 then [] else s.hmac(prk, ExpandT(s, prk, info, i - 1) + info + [i])
  }

  /** T(1) | ... | T(n) */
  function ExpandAll(s: Suite, prk: Bytes, info: Bytes, n: nat): Bytes
    requires n <= 255
  {
    if n == 0 then [] else ExpandAll(s, prk, info, n - 1) + ExpandT(s, prk, info, n)
  }

  /** The chain is HKDF of RFC 5869 with the chaining key as salt and empty info, cut into blocks. */
  lemma {:induction false} HkdfIsRfc5869(s: Suite, tempKey: Bytes, n: nat)
    requires n <= 255
    ensures var blocks := HkdfBlocks(s, tempKey, n);
            && |blocks| == n && Concat(blocks) == ExpandAll(s, tempKey, [], n)
            && (n > 0 ==> blocks[n - 1] == ExpandT(s, tempKey, [], n))
  {
    if n > 0 {
      HkdfIsRfc5869(s, tempKey, n - 1);
      var blocks := HkdfBlocks(s, tempKey, n - 1);
      var previous := ExpandT(s, tempKey, [], n - 1);
      assert previous + [] == previous;
      ConcatAppend(blocks, s.hmac(tempKey, previous + [n]));
    }
  }

  lemma TwoBlocks(s: Suite, chainingKey: Bytes, ikm: Bytes)
    ensures var b := Hkdf(s, chainingKey, ikm, 2);
            var t := s.hmac(chainingKey, ikm);
            |b| == 2 && b[0] == s.hmac(t, [1]) && b[1] == s.hmac(t, b[0] + [2])
  {
    var t := s.hmac(chainingKey, ikm);
    assert HkdfBlocks(s, t, 0) == [];
    assert [] + [1] == [1];
    assert HkdfBlocks(s, t, 1) == [s.hmac(t, [1])];
  }
}
