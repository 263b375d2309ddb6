/** What an XX handshake computes, written out from the private keys with the primitives alone: the messages, the
    transcript hash and the transport keys (src/bitchat/crypto/noise.py, src/bitchat/crypto/hkdf.py; sections 5 and 7.5
    of the Noise Protocol Framework). */
module HandshakeTranscript {
  import opened Wrappers
  import opened ByteStrings
  import opened CryptoSuite
  import opened CipherState
  import opened SymmetricState
  import opened Handshake
  import opened HandshakeAgreement

  // ---- the primitives ----

  /** `h := sha256(h + item)`, over a list of items */
  function Absorbed(s: Suite, h: Bytes, items: seq<Bytes>): Bytes {
    if items == [] then h else s.sha256(Absorbed(s, h, items[..|items| - 1]) + items[|items| - 1])
  }

  /** The first and the second output of the HMAC chain: the next chaining key and the next cipher key. */
  function NextChain(s: Suite, chain: Bytes, secret: Bytes): Bytes {
    s.hmac(s.hmac(chain, secret), [1])
  }

  function NextKey(s: Suite, chain: Bytes, secret: Bytes): Bytes {
    s.hmac(s.hmac(chain, secret), NextChain(s, chain, secret) + [2])
  }

  const FIRST_NONCE: Bytes := [0, 0, 0, 0, 0, 0, 0, 0, 0, 0, 0, 0]
  const SECOND_NONCE: Bytes := [0, 0, 0, 0, 1, 0, 0, 0, 0, 0, 0, 0]

  const NAME := "Noise_XX_25519_ChaChaPoly_SHA256"

  lemma NameIsAscii()
    ensures Ascii(NAME) == PROTOCOL_NAME && |Ascii(NAME)| == 32
  {}

  lemma AbsorbedMore(s: Suite, h: Bytes, items: seq<Bytes>, item: Bytes)
    ensures Absorbed(s, h, items + [item]) == s.sha256(Absorbed(s, h, items) + item)
  {
    assert (items + [item])[..|items|] == items;
  }

  lemma AbsorbedOne(s: Suite, h: Bytes, item: Bytes)
    ensures Absorbed(s, h, [item]) == s.sha256(h + item)
  {
    assert [item][..0] == [];
  }

  lemma Nonces()
    ensures ChachaNonce(0) == FIRST_NONCE && ChachaNonce(1) == SECOND_NONCE
  {
    forall i: nat | i < 8 ensures LittleEndian(0, 8)[i] == 0 && LittleEndian(1, 8)[i] == if i == 0 then 1 else 0 {
      LittleEndianAt(0, 8, i);
      LittleEndianAt(1, 8, i);
      ShiftedSmall(0, i);
      ShiftedSmall(1, i);
    }
  }

  // ---- the handshake, written out ----

  /** The three messages, the final hash, and the keys with which the initiator and the responder send afterwards. */
  datatype Computed = Computed(
    first: Bytes, second: Bytes, third: Bytes, hash: Bytes, initiatorKey: Bytes, responderKey: Bytes)

  /** The three secrets, each from one private key and the public key of the other. */
  datatype Secrets = Secrets(ee: Bytes, es: Bytes, se: Bytes)

  function SecretsOf(s: Suite, a: Bytes, b: Bytes, ephA: Bytes, ephB: Bytes): Secrets {
    Secrets(Value(s.exchange(ephA, s.publicOf(ephB))), Value(s.exchange(ephA, s.publicOf(b))),
            Value(s.exchange(a, s.publicOf(ephB))))
  }

  function Value(o: Option<Bytes>): Bytes {
    if o.Some? then o.value else []
  }

  /** The empty prologue, and what the first message brings. */
  function FirstItems(ephemeral: Bytes, payload: Bytes): seq<Bytes> {
    [[]] + [ephemeral] + [payload]
  }

  /** XX from the static keys `a` and `b`, the ephemeral keys and the payloads. The transcript takes up the empty
      prologue, both ephemeral keys, both sealed static keys and the payloads, in the order in which they are sent. */
  function XX(s: Suite, a: Bytes, b: Bytes, ephA: Bytes, ephB: Bytes, p1: Bytes, p2: Bytes, p3: Bytes): Computed {
    var name, secrets := Ascii(NAME), SecretsOf(s, a, b, ephA, ephB);
    var chain1, key1 := NextChain(s, name, secrets.ee), NextKey(s, name, secrets.ee);
    var chain2, key2 := NextChain(s, chain1, secrets.es), NextKey(s, chain1, secrets.es);
    var chain3, key3 := NextChain(s, chain2, secrets.se), NextKey(s, chain2, secrets.se);
    var items1 := FirstItems(s.publicOf(ephA), p1) + [s.publicOf(ephB)];
    var staticB := s.seal(key1, FIRST_NONCE, Absorbed(s, name, items1), s.publicOf(b));
    var items2 := items1 + [staticB];
    var payload2 := s.seal(key2, FIRST_NONCE, Absorbed(s, name, items2), p2);
    var items3 := items2 + [payload2];
    var staticA := s.seal(key2, SECOND_NONCE, Absorbed(s, name, items3), s.publicOf(a));
    var items4 := items3 + [staticA];
    var payload3 := s.seal(key3, FIRST_NONCE, Absorbed(s, name, items4), p3);
    Computed(s.publicOf(ephA) + p1, s.publicOf(ephB) + staticB + payload2, staticA + payload3,
             Absorbed(s, name, items4 + [payload3]), NextChain(s, chain3, []), NextKey(s, chain3, []))
  }

  // ---- tokens ----

  /** A symmetric state of the handshake that has a key. */
  function Keyed(hash: Bytes, chain: Bytes, key: Bytes, nonce: nat): Sym {
    Sym(hash, chain, Cipher(Some(key), nonce, false, {}, 0))
  }

  lemma WriteFirst(s: Suite, h: Side, token: Token, rest: seq<Token>, ephemeral: Bytes, buffer: Bytes)
    ensures var (h', r) := WriteToken(s, h, token, ephemeral);
            r.Success? ==> WriteTokens(s, h, [token] + rest, ephemeral, buffer)
                           == WriteTokens(s, h', rest, ephemeral, buffer + r.value)
  {
    assert ([token] + rest)[1..] == rest;
  }

  lemma WriteDh(s: Suite, h: Side, token: Token, ephemeral: Bytes)
    requires (token.EE? || token.ES? || token.SE?) && !h.sym.cipher.transport
    requires var (mine, theirs) := DhKeys(h, token);
             mine.Some? && theirs.Some? && s.DiffieHellman(mine.value, theirs.value).Success?
    ensures var (mine, theirs) := DhKeys(h, token);
            var secret := s.exchange(mine.value, theirs.value).value;
            WriteToken(s, h, token, ephemeral)
            == (h.(sym := Keyed(h.sym.hash, NextChain(s, h.sym.chainingKey, secret),
                                NextKey(s, h.sym.chainingKey, secret), 0)),
                Success([]))
  {
    var (mine, theirs) := DhKeys(h, token);
    TwoBlocks(s, h.sym.chainingKey, s.exchange(mine.value, theirs.value).value);
  }

  /** What sealing does to a keyed state. */
  lemma Sealing(s: Suite, hash: Bytes, chain: Bytes, key: Bytes, nonce: nat, plaintext: Bytes)
    requires |key| == KEY_SIZE && nonce < MAX_COUNTER
    ensures var sealed := s.seal(key, ChachaNonce(nonce), hash, plaintext);
            EncryptAndHash(s, Keyed(hash, chain, key, nonce), plaintext)
            == (Keyed(s.sha256(hash + sealed), chain, key, nonce + 1), Success(sealed))
  {}

  // ---- the messages ----

  lemma FirstComputes(s: Suite, a: Bytes, ephA: Bytes, p1: Bytes)
    ensures var (h, r) := WriteMessage(s, NewSide(s, Initiator, a), p1, ephA);
            && r == Success(s.publicOf(ephA) + p1)
            && h.sym
               == Sym(Absorbed(s, Ascii(NAME), FirstItems(s.publicOf(ephA), p1)), Ascii(NAME), NewCipher(None, false))
            && h.ephemeralPrivate == Some(ephA) && h.ephemeralPublic == Some(s.publicOf(ephA)) && h.staticPrivate == a
            && h.staticPublic == s.publicOf(a)
            && h.role == Initiator
  {
    var h0, name, pub := NewSide(s, Initiator, a), Ascii(NAME), s.publicOf(ephA);
    NameIsAscii();
    WriteFirst(s, h0, E, [], ephA, []);
    assert [E] + [] == [E] && [] + pub == pub && PROTOCOL_NAME + Zeros(0) == PROTOCOL_NAME;
    AbsorbedOne(s, name, []);
    AbsorbedMore(s, name, [[]], pub);
    AbsorbedMore(s, name, [[]] + [pub], p1);
  }

  /** The state after a sealed static key and a DH token, from a keyed state. */
  function AfterStatic(s: Suite, y: Sym, sealed: Bytes, secret: Bytes): Sym {
    Keyed(s.sha256(y.hash + sealed), NextChain(s, y.chainingKey, secret), NextKey(s, y.chainingKey, secret), 0)
  }

  /** The end of the second and of the third message: the sealed static key, a DH token, and the sealed payload. */
  lemma StaticComputes(s: Suite, h: Side, token: Token, secret: Bytes, payload: Bytes, ephemeral: Bytes, buffer: Bytes,
                       key: Bytes, nonce: nat)
    requires s.Lawful() && |key| == KEY_SIZE && nonce < MAX_COUNTER && (token.ES? || token.SE?)
    requires h.sym == Keyed(h.sym.hash, h.sym.chainingKey, key, nonce)
    requires var (mine, theirs) := DhKeys(h, token);
             mine.Some? && theirs.Some? && s.DiffieHellman(mine.value, theirs.value) == Success(secret)
    ensures var sealed := s.seal(key, ChachaNonce(nonce), h.sym.hash, h.staticPublic);
            WriteTokens(s, h, [S] + ([token] + []), ephemeral, buffer)
            == (h.(sym := AfterStatic(s, h.sym, sealed, secret)), Success(buffer + sealed))
  {
    var sealed := s.seal(key, ChachaNonce(nonce), h.sym.hash, h.staticPublic);
    Sealing(s, h.sym.hash, h.sym.chainingKey, key, nonce, h.staticPublic);
    WriteFirst(s, h, S, [token] + [], ephemeral, buffer);
    var h1 := h.(sym := Keyed(s.sha256(h.sym.hash + sealed), h.sym.chainingKey, key, nonce + 1));
    WriteDh(s, h1, token, ephemeral);
    WriteFirst(s, h1, token, [], ephemeral, buffer + sealed);
    assert buffer + sealed + [] == buffer + sealed;
  }

  lemma PayloadComputes(s: Suite, h: Side, y: Sym, sealed: Bytes, secret: Bytes, payload: Bytes, buffer: Bytes)
    requires s.Lawful() && h.sym == AfterStatic(s, y, sealed, secret)
    ensures var tail := s.seal(h.sym.cipher.key.value, FIRST_NONCE, h.sym.hash, payload);
            var (h', r) := FinishWrite(s, h, buffer, payload);
            && r == Success(buffer + tail)
            && h' == h.(sym := Keyed(s.sha256(h.sym.hash + tail), h.sym.chainingKey, h.sym.cipher.key.value, 1),
                        pattern := h.pattern + 1)
  {
    Nonces();
    Sealing(s, h.sym.hash, h.sym.chainingKey, h.sym.cipher.key.value, 0, payload);
  }

  /** What a message that ends so computes, from the hash and chaining key at its sealed static key. */
  datatype Ending = Ending(sealed: Bytes, tail: Bytes, sym: Sym)

  function EndingOf(s: Suite, hash: Bytes, chain: Bytes, key: Bytes, nonce: Bytes, public: Bytes, secret: Bytes,
                    payload: Bytes): Ending
  {
    var sealed := s.seal(key, nonce, hash, public);
    var next := NextKey(s, chain, secret);
    var tail := s.seal(next, FIRST_NONCE, s.sha256(hash + sealed), payload);
    Ending(sealed, tail, Keyed(s.sha256(s.sha256(hash + sealed) + tail), NextChain(s, chain, secret), next, 1))
  }

  /** The second message, from a responder that has read the first. */
  lemma SecondComputes(s: Suite, h: Side, ephA: Bytes, p2: Bytes, ephB: Bytes)
    requires s.Lawful() && |ephA| == KEY_SIZE && |ephB| == KEY_SIZE && |h.staticPrivate| == KEY_SIZE
    requires h.pattern == 1 && h.role == Responder && h.remoteEphemeral == Some(s.publicOf(ephA))
    requires h.staticPublic == s.publicOf(h.staticPrivate) && !h.sym.cipher.transport
    ensures var ee, es := s.exchange(ephB, s.publicOf(ephA)).value, s.exchange(h.staticPrivate, s.publicOf(ephA)).value;
            var chain, key := NextChain(s, h.sym.chainingKey, ee), NextKey(s, h.sym.chainingKey, ee);
            var end := EndingOf(s, s.sha256(h.sym.hash + s.publicOf(ephB)), chain, key, FIRST_NONCE,
                                s.publicOf(h.staticPrivate), es, p2);
            var (h', r) := WriteMessage(s, h, p2, ephB);
            r == Success(s.publicOf(ephB) + end.sealed + end.tail) && h'.sym == end.sym
  {
    CommonSecret(s, ephB, ephA);
    CommonSecret(s, h.staticPrivate, ephA);
    Nonces();
    var pub, rest := s.publicOf(ephB), [S] + ([ES] + []);
    var h1 := WriteToken(s, h, E, ephB).0;
    WriteFirst(s, h, E, [EE] + rest, ephB, []);
    WriteDh(s, h1, EE, ephB);
    var h2 := WriteToken(s, h1, EE, ephB).0;
    WriteFirst(s, h1, EE, rest, ephB, [] + pub);
    assert [] + pub + [] == pub;
    var es := s.exchange(h.staticPrivate, s.publicOf(ephA)).value;
    StaticComputes(s, h2, ES, es, p2, ephB, pub, h2.sym.cipher.key.value, 0);
    var (h3, head) := WriteTokens(s, h2, rest, ephB, pub);
    PayloadComputes(s, h3, h2.sym, head.value[|pub|..], es, p2, head.value);
    assert [E] + ([EE] + rest) == XX_PATTERNS[1];
  }

  /** The third message, from an initiator that has read the second. */
  lemma ThirdComputes(s: Suite, h: Side, ephB: Bytes, key: Bytes, p3: Bytes, unused: Bytes)
    requires s.Lawful() && |ephB| == KEY_SIZE && |h.staticPrivate| == KEY_SIZE && |key| == KEY_SIZE
    requires h.pattern == 2 && h.role == Initiator && h.remoteEphemeral == Some(s.publicOf(ephB))
    requires h.staticPublic == s.publicOf(h.staticPrivate)
    requires h.sym == Keyed(h.sym.hash, h.sym.chainingKey, key, 1)
    ensures var se := s.exchange(h.staticPrivate, s.publicOf(ephB)).value;
            var end := EndingOf(s, h.sym.hash, h.sym.chainingKey, key, SECOND_NONCE, s.publicOf(h.staticPrivate), se,
                                p3);
            var (h', r) := WriteMessage(s, h, p3, unused);
            r == Success(end.sealed + end.tail) && h'.sym == end.sym && h'.pattern == 3 && h'.role == Initiator
  {
    CommonSecret(s, h.staticPrivate, ephB);
    Nonces();
    var se := s.exchange(h.staticPrivate, s.publicOf(ephB)).value;
    StaticComputes(s, h, SE, se, p3, unused, [], key, 1);
    var (h1, head) := WriteTokens(s, h, [S] + ([SE] + []), unused, []);
    var sealed := s.seal(key, SECOND_NONCE, h.sym.hash, h.staticPublic);
    assert [] + sealed == sealed;
    PayloadComputes(s, h1, h.sym, sealed, se, p3, sealed);
    assert [S] + ([SE] + []) == XX_PATTERNS[2];
  }

  // ---- the exchange ----

  /** The exchange with payloads: each message is delivered as written. */
  function Talk(s: Suite, a: Bytes, b: Bytes, ephA: Bytes, ephB: Bytes, unused: Bytes, p1: Bytes, p2: Bytes, p3: Bytes)
    : Exchange
  {
    var (i1, m1) := WriteMessage(s, NewSide(s, Initiator, a), p1, ephA);
    var r1 := ReadMessage(s, NewSide(s, Responder, b), BytesOf(m1)).0;
    var (r2, m2) := WriteMessage(s, r1, p2, ephB);
    var i2 := ReadMessage(s, i1, BytesOf(m2)).0;
    var (i3, m3) := WriteMessage(s, i2, p3, unused);
    var r3 := ReadMessage(s, r2, BytesOf(m3)).0;
    Exchange(i1, BytesOf(m1), r1, r2, BytesOf(m2), i2, i3, BytesOf(m3), r3)
  }

  ghost predicate Sizes(a: Bytes, b: Bytes, ephA: Bytes, ephB: Bytes, unused: Bytes) {
    |a| == KEY_SIZE && |b| == KEY_SIZE && |ephA| == KEY_SIZE && |ephB| == KEY_SIZE && |unused| == KEY_SIZE
  }

  /** The two sides stay paired, and each has read what the other has written. */
  lemma TalkPaired(
      s: Suite, a: Bytes, b: Bytes, ephA: Bytes, ephB: Bytes, unused: Bytes, p1: Bytes, p2: Bytes, p3: Bytes)
    requires s.Lawful() && Sizes(a, b, ephA, ephB, unused)
    ensures var x := Talk(s, a, b, ephA, ephB, unused, p1, p2, p3);
            && Paired(s, x.i1, x.r1, 5) && Paired(s, x.i2, x.r2, 10) && Paired(s, x.i3, x.r3, 15)
            && x.r1.pattern == 1 && x.i2.pattern == 2 && x.r1.role == Responder && x.i2.role == Initiator
            && x.r1.remoteEphemeral.Some? && x.i2.remoteEphemeral.Some?
  {
    var x := Talk(s, a, b, ephA, ephB, unused, p1, p2, p3);
    FreshSidesPaired(s, a, b);
    PatternOneReady(Initiator);
    MessageLockstep(s, NewSide(s, Initiator, a), NewSide(s, Responder, b), p1, ephA, 0);
    PatternTwoReady();
    MessageLockstep(s, x.r1, x.i1, p2, ephB, 5);
    PatternThreeReady();
    MessageLockstep(s, x.i2, x.r2, p3, unused, 10);
  }

  /** Reading and writing leave the private keys of a side alone, but for the ephemeral one that it makes. */
  lemma {:induction false} WritingKeepsKeys(s: Suite, h: Side, tokens: seq<Token>, ephemeral: Bytes, buffer: Bytes)
    ensures var h' := WriteTokens(s, h, tokens, ephemeral, buffer).0;
            && h'.staticPrivate == h.staticPrivate
            && (h'.ephemeralPrivate == h.ephemeralPrivate || h'.ephemeralPrivate == Some(ephemeral))
            && (E in tokens && WriteTokens(s, h, tokens, ephemeral, buffer).1.Success? ==>
                  h'.ephemeralPrivate == Some(ephemeral))
    decreases tokens
  {
    if tokens != [] {
      var (h', r) := WriteToken(s, h, tokens[0], ephemeral);
      if r.Success? {
        WritingKeepsKeys(s, h', tokens[1..], ephemeral, buffer + r.value);
      }
    }
  }

  lemma {:induction false} ReadingKeepsKeys(s: Suite, h: Side, tokens: seq<Token>, message: Bytes, offset: nat)
    requires offset <= |message|
    ensures var h' := ReadTokens(s, h, tokens, message, offset).0;
            h'.staticPrivate == h.staticPrivate && h'.ephemeralPrivate == h.ephemeralPrivate
    decreases tokens
  {
    if tokens != [] {
      var (h', r) := ReadToken(s, h, tokens[0], message, offset);
      if r.Success? {
        ReadingKeepsKeys(s, h', tokens[1..], message, r.value);
      }
    }
  }

  lemma TalkKeys(
      s: Suite, a: Bytes, b: Bytes, ephA: Bytes, ephB: Bytes, unused: Bytes, p1: Bytes, p2: Bytes, p3: Bytes)
    requires s.Lawful() && Sizes(a, b, ephA, ephB, unused)
    ensures var x := Talk(s, a, b, ephA, ephB, unused, p1, p2, p3);
            && x.r1.staticPrivate == b && x.i2.staticPrivate == a
            && x.r1.remoteEphemeral == Some(s.publicOf(ephA)) && x.i2.remoteEphemeral == Some(s.publicOf(ephB))
  {
    var x := Talk(s, a, b, ephA, ephB, unused, p1, p2, p3);
    var i0, r0 := NewSide(s, Initiator, a), NewSide(s, Responder, b);
    TalkPaired(s, a, b, ephA, ephB, unused, p1, p2, p3);
    FirstComputes(s, a, ephA, p1);
    ReadingKeepsKeys(s, r0, XX_PATTERNS[0], x.m1, 0);
    SecondComputes(s, x.r1, ephA, p2, ephB);
    assert XX_PATTERNS[1][0] == E;
    WritingKeepsKeys(s, x.r1, XX_PATTERNS[1], ephB, []);
    ReadingKeepsKeys(s, x.i1, XX_PATTERNS[1], x.m2, 0);
  }

  /** The messages, the final hash and the transport keys are those of `XX`: at both ends. */
  lemma TalkComputes(
      s: Suite, a: Bytes, b: Bytes, ephA: Bytes, ephB: Bytes, unused: Bytes, p1: Bytes, p2: Bytes, p3: Bytes)
    requires s.Lawful() && Sizes(a, b, ephA, ephB, unused)
    ensures var x, y := Talk(s, a, b, ephA, ephB, unused, p1, p2, p3), XX(s, a, b, ephA, ephB, p1, p2, p3);
            && x.m1 == y.first && x.m2 == y.second && x.m3 == y.third
            && x.i3.sym.hash == x.r3.sym.hash == y.hash
  {
    var x := Talk(s, a, b, ephA, ephB, unused, p1, p2, p3);
    TalkPaired(s, a, b, ephA, ephB, unused, p1, p2, p3);
    TalkKeys(s, a, b, ephA, ephB, unused, p1, p2, p3);
    FirstComputes(s, a, ephA, p1);
    SecondComputes(s, x.r1, ephA, p2, ephB);
    ThirdComputes(s, x.i2, ephB, x.i2.sym.cipher.key.value, p3, unused);
  }

  /** A transport cipher that has not been used. */
  function FreshCipher(key: Bytes): Cipher {
    Cipher(Some(key), 0, true, {}, 0)
  }

  lemma SplitComputes(s: Suite, y: Sym)
    ensures Split(s, y) == (FreshCipher(NextChain(s, y.chainingKey, [])), FreshCipher(NextKey(s, y.chainingKey, [])))
  {
    TwoBlocks(s, y.chainingKey, []);
  }

  /** So are the transport keys: the initiator sends under the first, the responder under the second. */
  lemma TalkKeysTransport(
      s: Suite, a: Bytes, b: Bytes, ephA: Bytes, ephB: Bytes, unused: Bytes, p1: Bytes, p2: Bytes, p3: Bytes)
    requires s.Lawful() && Sizes(a, b, ephA, ephB, unused)
    ensures var x, y := Talk(s, a, b, ephA, ephB, unused, p1, p2, p3), XX(s, a, b, ephA, ephB, p1, p2, p3);
            var first, second := FreshCipher(y.initiatorKey), FreshCipher(y.responderKey);
            && TransportCiphers(s, x.i3) == Success((first, second))
            && TransportCiphers(s, x.r3) == Success((second, first))
  {
    var x := Talk(s, a, b, ephA, ephB, unused, p1, p2, p3);
    TalkPaired(s, a, b, ephA, ephB, unused, p1, p2, p3);
    TalkKeys(s, a, b, ephA, ephB, unused, p1, p2, p3);
    FirstComputes(s, a, ephA, p1);
    SecondComputes(s, x.r1, ephA, p2, ephB);
    ThirdComputes(s, x.i2, ephB, x.i2.sym.cipher.key.value, p3, unused);
    SplitComputes(s, x.i3.sym);
  }

  /** The exchange without payloads, as the sessions have it. */
  lemma XXComputes(s: Suite, a: Bytes, b: Bytes, ephA: Bytes, ephB: Bytes, unused: Bytes)
    requires s.Lawful() && Sizes(a, b, ephA, ephB, unused)
    ensures var x, y := HonestExchange(s, a, b, ephA, ephB, unused), XX(s, a, b, ephA, ephB, [], [], []);
            var first, second := FreshCipher(y.initiatorKey), FreshCipher(y.responderKey);
            && x.m1 == y.first && x.m2 == y.second && x.m3 == y.third
            && x.i3.sym.hash == x.r3.sym.hash == y.hash
            && TransportCiphers(s, x.i3) == Success((first, second))
            && TransportCiphers(s, x.r3) == Success((second, first))
  {
    TalkComputes(s, a, b, ephA, ephB, unused, [], [], []);
    TalkKeysTransport(s, a, b, ephA, ephB, unused, [], [], []);
    assert HonestExchange(s, a, b, ephA, ephB, unused) == Talk(s, a, b, ephA, ephB, unused, [], [], []);
  }
}
