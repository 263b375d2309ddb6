/** The two sides of an XX handshake under honest delivery: they move in lockstep and end in agreement. */
module HandshakeAgreement {
  import opened Wrappers
  import opened ByteStrings
  import opened CryptoSuite
  import opened CipherState
  import opened SymmetricState
  import opened Handshake

  /** Whatever `a` holds of its peer `b` is really `b`'s. */
  ghost predicate Knows(s: Suite, a: Side, b: Side) {
    && |a.staticPrivate| == KEY_SIZE && a.staticPublic == s.publicOf(a.staticPrivate)
    && (a.ephemeralPrivate.Some? ==> |a.ephemeralPrivate.value| == KEY_SIZE)
    && (a.remoteStatic.Some? ==> a.remoteStatic.value == b.staticPublic)
    && (a.remoteEphemeral.Some? ==>
          b.ephemeralPrivate.Some? && a.remoteEphemeral.value == s.publicOf(b.ephemeralPrivate.value))
  }

  /** A handshake cipher that has been used at most `used` times since it was keyed. */
  ghost predicate Fit(c: Cipher, used: nat) {
    !c.transport && c.nonce <= used && (c.key.Some? ==> |c.key.value| == KEY_SIZE)
  }

  /** The lockstep invariant: opposite roles, the same transcript hash, chaining key, cipher key and nonce. */
  ghost predicate Paired(s: Suite, w: Side, r: Side, used: nat) {
    && w.role != r.role && w.pattern == r.pattern
    && Knows(s, w, r) && Knows(s, r, w)
    && w.sym == r.sym && Fit(w.sym.cipher, used)
  }

  // ---- what the two sides know, and what a token needs ----

  datatype Known = Known(e: bool, re: bool, rs: bool)

  function KnownTo(h: Side): Known {
    Known(h.ephemeralPrivate.Some?, h.remoteEphemeral.Some?, h.remoteStatic.Some?)
  }

  function WriterLearns(k: Known, token: Token): Known {
    if token.E? then k.(e := true) else k
  }

  function ReaderLearns(k: Known, token: Token): Known {
    match token
    case E => k.(re := true)
    case S => k.(rs := true)
    case _ => k
  }

  /** The side in role `role` has both keys of a DH token. */
  predicate Has(k: Known, token: Token, role: Role) {
    match token
    case EE => k.e && k.re
    case ES => if role.Initiator? then k.e && k.rs else k.re
    case SE => if role.Initiator? then k.re else k.e && k.rs
    case _ => true
  }

  function Opposite(role: Role): Role {
    if role.Initiator? then Responder else Initiator
  }

  predicate Ready(tokens: seq<Token>, writer: Known, reader: Known, role: Role)
    decreases tokens
  {
    tokens == [] ||
    (Has(writer, tokens[0], role) && Has(reader, tokens[0], Opposite(role))
     && Ready(tokens[1..], WriterLearns(writer, tokens[0]), ReaderLearns(reader, tokens[0]), role))
  }

  function WriterLearnsAll(k: Known, tokens: seq<Token>): Known
    decreases tokens
  {
    if tokens == [] then k else WriterLearnsAll(WriterLearns(k, tokens[0]), tokens[1..])
  }

  function ReaderLearnsAll(k: Known, tokens: seq<Token>): Known
    decreases tokens
  {
    if tokens == [] then k else ReaderLearnsAll(ReaderLearns(k, tokens[0]), tokens[1..])
  }

  // ---- one token ----

  lemma CommonSecret(s: Suite, a: Bytes, b: Bytes)
    requires s.HonestKeys() && |a| == KEY_SIZE && |b| == KEY_SIZE
    ensures s.DiffieHellman(a, s.publicOf(b)).Success?
    ensures s.DiffieHellman(a, s.publicOf(b)) == s.DiffieHellman(b, s.publicOf(a))
  {
    assert s.ValidPublic(s.publicOf(a)) && s.ValidPublic(s.publicOf(b));
    assert s.exchange(a, s.publicOf(b)) == s.exchange(b, s.publicOf(a));
  }

  /** Both sides of a DH token combine the same pair of key pairs. */
  ghost predicate SameDh(s: Suite, mine: (Option<Bytes>, Option<Bytes>), theirs: (Option<Bytes>, Option<Bytes>)) {
    && mine.0.Some? && theirs.0.Some? && |mine.0.value| == KEY_SIZE && |theirs.0.value| == KEY_SIZE
    && mine.1 == Some(s.publicOf(theirs.0.value)) && theirs.1 == Some(s.publicOf(mine.0.value))
  }

  lemma DhKeysMatch(s: Suite, w: Side, r: Side, token: Token)
    requires Knows(s, w, r) && Knows(s, r, w) && w.role != r.role && (token.EE? || token.ES? || token.SE?)
    requires Has(KnownTo(w), token, w.role) && Has(KnownTo(r), token, r.role)
    ensures SameDh(s, DhKeys(w, token), DhKeys(r, token))
  {
    match token {
      case EE =>
      case ES =>
      case SE =>
    }
  }

  /** A DH token takes both sides from one common symmetric state to another. */
  lemma DhLockstep(
      s: Suite, w: Side, r: Side, mine: (Option<Bytes>, Option<Bytes>), theirs: (Option<Bytes>, Option<Bytes>))
    requires s.Lawful() && w.sym == r.sym && !w.sym.cipher.transport && SameDh(s, mine, theirs)
    ensures var (w', a) := DhMixKey(s, w, mine.0, mine.1);
            var (r', b) := DhMixKey(s, r, theirs.0, theirs.1);
            && a.Success? && b.Success?
            && w' == w.(sym := w'.sym) && r' == r.(sym := w'.sym) && Fit(w'.sym.cipher, 0)
  {
    CommonSecret(s, mine.0.value, theirs.0.value);
    TwoBlocks(s, w.sym.chainingKey, s.DiffieHellman(mine.0.value, mine.1.value).value);
  }

  /** After one token the two sides are still in lockstep. */
  ghost predicate Advanced(s: Suite, w: Side, r: Side, token: Token, w': Side, r': Side, used: nat) {
    && Paired(s, w', r', used + 1) && w'.role == w.role && w'.pattern == w.pattern
    && KnownTo(w') == WriterLearns(KnownTo(w), token)
    && KnownTo(r') == ReaderLearns(KnownTo(r), token)
  }

  lemma TokenLockstep(s: Suite, w: Side, r: Side, token: Token, ephemeral: Bytes, used: nat)
    requires s.Lawful() && Paired(s, w, r, used) && used < MAX_COUNTER && |ephemeral| == KEY_SIZE
    requires Has(KnownTo(w), token, w.role) && Has(KnownTo(r), token, r.role)
    ensures var (w', sent) := WriteToken(s, w, token, ephemeral);
            && sent.Success?
            && var (r', read) := ReadToken(s, r, token, sent.value, 0);
               read == Success(|sent.value|) && Advanced(s, w, r, token, w', r', used)
  {
    match token {
      case E => EphemeralLockstep(s, w, r, ephemeral, used);
      case S => StaticLockstep(s, w, r, ephemeral, used);
      case _ =>
        DhKeysMatch(s, w, r, token);
        DhLockstep(s, w, r, DhKeys(w, token), DhKeys(r, token));
    }
  }

  lemma EphemeralLockstep(s: Suite, w: Side, r: Side, ephemeral: Bytes, used: nat)
    requires s.Lawful() && Paired(s, w, r, used) && |ephemeral| == KEY_SIZE
    ensures var (w', sent) := WriteToken(s, w, E, ephemeral);
            && sent.Success?
            && var (r', read) := ReadToken(s, r, E, sent.value, 0);
               read == Success(|sent.value|) && Advanced(s, w, r, E, w', r', used)
  {
    var public := s.publicOf(ephemeral);
    assert s.ValidPublic(public);
    assert public[0..KEY_SIZE] == public;
  }

  lemma StaticLockstep(s: Suite, w: Side, r: Side, ephemeral: Bytes, used: nat)
    requires s.Lawful() && Paired(s, w, r, used) && used < MAX_COUNTER
    ensures var (w', sent) := WriteToken(s, w, S, ephemeral);
            && sent.Success?
            && var (r', read) := ReadToken(s, r, S, sent.value, 0);
               read == Success(|sent.value|) && Advanced(s, w, r, S, w', r', used)
  {
    assert s.ValidPublic(w.staticPublic);
    CryptLockstep(s, w.sym, w.staticPublic);
    var sent := EncryptAndHash(s, w.sym, w.staticPublic).1.value;
    assert sent[0..|sent|] == sent;
  }

  /** Where a token's bytes stand in the message makes no difference to the reader. */
  lemma ReadTokenAnywhere(s: Suite, r: Side, token: Token, piece: Bytes, message: Bytes, offset: nat)
    requires offset + |piece| <= |message| && message[offset..offset + |piece|] == piece
    requires ReadToken(s, r, token, piece, 0).1 == Success(|piece|)
    ensures ReadToken(s, r, token, message, offset) == (ReadToken(s, r, token, piece, 0).0, Success(offset + |piece|))
  {
    assert piece[0..|piece|] == piece;
  }

  // ---- one message ----

  lemma PieceOfPrefix(a: Bytes, b: Bytes, message: Bytes)
    requires a + b <= message
    ensures a <= message && |a| + |b| <= |message| && message[|a|..|a| + |b|] == b
  {}

  /** After a list of tokens the two sides are still in lockstep and know what those tokens taught them. */
  ghost predicate AdvancedAll(s: Suite, w: Side, r: Side, tokens: seq<Token>, w': Side, r': Side, used: nat) {
    && Paired(s, w', r', used + |tokens|) && w'.role == w.role && w'.pattern == w.pattern
    && KnownTo(w') == WriterLearnsAll(KnownTo(w), tokens)
    && KnownTo(r') == ReaderLearnsAll(KnownTo(r), tokens)
  }

  lemma AdvancedThenAll(
      s: Suite, w: Side, r: Side, tokens: seq<Token>, w1: Side, r1: Side, w': Side, r': Side, used: nat)
    requires tokens != [] && Advanced(s, w, r, tokens[0], w1, r1, used)
    requires AdvancedAll(s, w1, r1, tokens[1..], w', r', used + 1)
    ensures AdvancedAll(s, w, r, tokens, w', r', used)
  {}

  lemma {:induction false} TokensLockstep(s: Suite, w: Side, r: Side, tokens: seq<Token>, ephemeral: Bytes,
                                          buffer: Bytes, message: Bytes, used: nat)
    requires s.Lawful() && Paired(s, w, r, used) && used + |tokens| <= MAX_COUNTER && |ephemeral| == KEY_SIZE
    requires Ready(tokens, KnownTo(w), KnownTo(r), w.role)
    requires var sent := WriteTokens(s, w, tokens, ephemeral, buffer).1; sent.Success? ==> sent.value <= message
    ensures var (w', sent) := WriteTokens(s, w, tokens, ephemeral, buffer);
            && sent.Success? && buffer <= sent.value
            && var (r', read) := ReadTokens(s, r, tokens, message, |buffer|);
               read == Success(|sent.value|) && AdvancedAll(s, w, r, tokens, w', r', used)
    decreases tokens
  {
    if tokens != [] {
      var rest := tokens[1..];
      TokenLockstep(s, w, r, tokens[0], ephemeral, used);
      var (w1, sent) := WriteToken(s, w, tokens[0], ephemeral);
      var piece := sent.value;
      var r1 := ReadToken(s, r, tokens[0], piece, 0).0;
      TokensLockstep(s, w1, r1, rest, ephemeral, buffer + piece, message, used + 1);
      var w2 := WriteTokens(s, w1, rest, ephemeral, buffer + piece).0;
      var r2 := ReadTokens(s, r1, rest, message, |buffer + piece|).0;
      AdvancedThenAll(s, w, r, tokens, w1, r1, w2, r2, used);
      ReadFirstToken(s, r, tokens, buffer, piece, message);
    }
  }

  lemma ReadFirstToken(s: Suite, r: Side, tokens: seq<Token>, buffer: Bytes, piece: Bytes, message: Bytes)
    requires tokens != [] && buffer + piece <= message
    requires ReadToken(s, r, tokens[0], piece, 0).1 == Success(|piece|)
    ensures |buffer| <= |message| && |buffer + piece| <= |message|
    ensures ReadTokens(s, r, tokens, message, |buffer|)
            == ReadTokens(s, ReadToken(s, r, tokens[0], piece, 0).0, tokens[1..], message, |buffer + piece|)
  {
    PieceOfPrefix(buffer, piece, message);
    ReadTokenAnywhere(s, r, tokens[0], piece, message, |buffer|);
  }

  lemma MessageLockstep(s: Suite, w: Side, r: Side, payload: Bytes, ephemeral: Bytes, used: nat)
    requires s.Lawful() && Paired(s, w, r, used) && used + 5 < MAX_COUNTER && |ephemeral| == KEY_SIZE
    requires !w.Complete() && |XX_PATTERNS[w.pattern]| <= 4
    requires Ready(XX_PATTERNS[w.pattern], KnownTo(w), KnownTo(r), w.role)
    ensures var (w', sent) := WriteMessage(s, w, payload, ephemeral);
            && sent.Success?
            && var (r', read) := ReadMessage(s, r, sent.value);
               && read == Success(payload)
               && Paired(s, w', r', used + 5) && w'.role == w.role && w'.pattern == w.pattern + 1
               && KnownTo(w') == WriterLearnsAll(KnownTo(w), XX_PATTERNS[w.pattern])
               && KnownTo(r') == ReaderLearnsAll(KnownTo(r), XX_PATTERNS[w.pattern])
  {
    var tokens := XX_PATTERNS[w.pattern];
    var (w1, head) := WriteTokens(s, w, tokens, ephemeral, []);
    var (w2, sent) := WriteMessage(s, w, payload, ephemeral);
    WriteTokensSucceed(s, w, r, tokens, ephemeral, used);
    CryptLockstep(s, w1.sym, payload);
    var tail := EncryptAndHash(s, w1.sym, payload).1.value;
    assert sent.value == head.value + tail;
    TokensLockstep(s, w, r, tokens, ephemeral, [], sent.value, used);
    assert sent.value[|head.value|..] == tail;
  }

  lemma WriteTokensSucceed(s: Suite, w: Side, r: Side, tokens: seq<Token>, ephemeral: Bytes, used: nat)
    requires s.Lawful() && Paired(s, w, r, used) && used + |tokens| <= MAX_COUNTER && |ephemeral| == KEY_SIZE
    requires Ready(tokens, KnownTo(w), KnownTo(r), w.role)
    ensures var (w', sent) := WriteTokens(s, w, tokens, ephemeral, []);
            sent.Success? && Fit(w'.sym.cipher, used + |tokens|)
  {
    var sent := WriteTokens(s, w, tokens, ephemeral, []).1;
    TokensLockstep(s, w, r, tokens, ephemeral, [], if sent.Success? then sent.value else [], used);
  }

  // ---- the three messages ----

  lemma PatternOneReady(role: Role)
    ensures var k := Known(false, false, false);
            && Ready(XX_PATTERNS[0], k, k, role)
            && WriterLearnsAll(k, XX_PATTERNS[0]) == Known(true, false, false)
            && ReaderLearnsAll(k, XX_PATTERNS[0]) == Known(false, true, false)
  {
    assert [E][1..] == [];
  }

  lemma PatternTwoReady()
    ensures var w, r := Known(false, true, false), Known(true, false, false);
            && Ready(XX_PATTERNS[1], w, r, Responder)
            && WriterLearnsAll(w, XX_PATTERNS[1]) == Known(true, true, false)
            && ReaderLearnsAll(r, XX_PATTERNS[1]) == Known(true, true, true)
  {
    var w, r := Known(true, true, false), Known(true, true, true);
    assert [ES][1..] == [];
    assert Ready([ES], w, r, Responder) && WriterLearnsAll(w, [ES]) == w && ReaderLearnsAll(r, [ES]) == r;
    var r' := Known(true, true, false);
    assert [S, ES][1..] == [ES];
    assert Ready([S, ES], w, r', Responder) && WriterLearnsAll(w, [S, ES]) == w && ReaderLearnsAll(r', [S, ES]) == r;
    assert [EE, S, ES][1..] == [S, ES];
    assert Ready([EE, S, ES], w, r', Responder) && WriterLearnsAll(w, [EE, S, ES]) == w
           && ReaderLearnsAll(r', [EE, S, ES]) == r;
    assert [E, EE, S, ES][1..] == [EE, S, ES];
  }

  lemma PatternThreeReady()
    ensures var w, r := Known(true, true, true), Known(true, true, false);
            && Ready(XX_PATTERNS[2], w, r, Initiator)
            && WriterLearnsAll(w, XX_PATTERNS[2]) == Known(true, true, true)
            && ReaderLearnsAll(r, XX_PATTERNS[2]) == Known(true, true, true)
  {
    var k := Known(true, true, true);
    assert [SE][1..] == [];
    assert Ready([SE], k, k, Initiator) && WriterLearnsAll(k, [SE]) == k && ReaderLearnsAll(k, [SE]) == k;
    assert [S, SE][1..] == [SE];
  }

  lemma FreshSidesPaired(s: Suite, a: Bytes, b: Bytes)
    requires s.Lawful() && |a| == KEY_SIZE && |b| == KEY_SIZE
    ensures Paired(s, NewSide(s, Initiator, a), NewSide(s, Responder, b), 0)
  {}

  /** The states and messages of a handshake in which each message is delivered as written. */
  datatype Exchange = Exchange(
      i1: Side, m1: Bytes, r1: Side, r2: Side, m2: Bytes, i2: Side, i3: Side, m3: Bytes, r3: Side)

  function BytesOf(r: Result<Bytes, CryptoError>): Bytes {
    if r.Success? then r.value else []
  }

  function HonestExchange(s: Suite, a: Bytes, b: Bytes, ephA: Bytes, ephB: Bytes, unused: Bytes): Exchange {
    var (i1, m1) := WriteMessage(s, NewSide(s, Initiator, a), [], ephA);
    var r1 := ReadMessage(s, NewSide(s, Responder, b), BytesOf(m1)).0;
    var (r2, m2) := WriteMessage(s, r1, [], ephB);
    var i2 := ReadMessage(s, i1, BytesOf(m2)).0;
    var (i3, m3) := WriteMessage(s, i2, [], unused);
    var r3 := ReadMessage(s, r2, BytesOf(m3)).0;
    Exchange(i1, BytesOf(m1), r1, r2, BytesOf(m2), i2, i3, BytesOf(m3), r3)
  }

  /** Every message was written and was read, with its empty payload. */
  ghost predicate AllSucceed(s: Suite, a: Bytes, b: Bytes, ephA: Bytes, ephB: Bytes, unused: Bytes, x: Exchange) {
    && WriteMessage(s, NewSide(s, Initiator, a), [], ephA) == (x.i1, Success(x.m1))
    && ReadMessage(s, NewSide(s, Responder, b), x.m1) == (x.r1, Success([]))
    && WriteMessage(s, x.r1, [], ephB) == (x.r2, Success(x.m2))
    && ReadMessage(s, x.i1, x.m2) == (x.i2, Success([]))
    && WriteMessage(s, x.i2, [], unused) == (x.i3, Success(x.m3))
    && ReadMessage(s, x.r2, x.m3) == (x.r3, Success([]))
  }

  /** Both ends finish with the same transcript hash, each with the other's static key, and with crossed ciphers. */
  ghost predicate InAgreement(s: Suite, i: Side, r: Side) {
    && i.Complete() && r.Complete()
    && i.sym.hash == r.sym.hash
    && i.remoteStatic == Some(r.staticPublic) && r.remoteStatic == Some(i.staticPublic)
    && var ci, cr := TransportCiphers(s, i), TransportCiphers(s, r);
       && ci.Success? && cr.Success?
       && ci.value.0 == cr.value.1 && ci.value.1 == cr.value.0
  }

  /** After the first two messages both sides are ready for the last. */
  lemma FirstTwoMessages(s: Suite, a: Bytes, b: Bytes, ephA: Bytes, ephB: Bytes, unused: Bytes)
    requires s.Lawful() && |a| == KEY_SIZE && |b| == KEY_SIZE && |ephA| == KEY_SIZE && |ephB| == KEY_SIZE
    ensures var x := HonestExchange(s, a, b, ephA, ephB, unused);
            && WriteMessage(s, NewSide(s, Initiator, a), [], ephA) == (x.i1, Success(x.m1))
            && ReadMessage(s, NewSide(s, Responder, b), x.m1) == (x.r1, Success([]))
            && WriteMessage(s, x.r1, [], ephB) == (x.r2, Success(x.m2))
            && ReadMessage(s, x.i1, x.m2) == (x.i2, Success([]))
            && x.i1.pattern == x.r1.pattern == 1 && x.i2.pattern == x.r2.pattern == 2
            && x.i2.role == Initiator && x.r2.role == Responder
            && Paired(s, x.i2, x.r2, 10)
            && KnownTo(x.i2) == Known(true, true, true) && KnownTo(x.r2) == Known(true, true, false)
  {
    var x := HonestExchange(s, a, b, ephA, ephB, unused);
    FreshSidesPaired(s, a, b);
    PatternOneReady(Initiator);
    MessageLockstep(s, NewSide(s, Initiator, a), NewSide(s, Responder, b), [], ephA, 0);
    PatternTwoReady();
    MessageLockstep(s, x.r1, x.i1, [], ephB, 5);
  }

  /** The XX handshake succeeds under honest delivery and ends in agreement. */
  lemma XXAgreement(s: Suite, a: Bytes, b: Bytes, ephA: Bytes, ephB: Bytes, unused: Bytes)
    requires s.Lawful()
    requires |a| == KEY_SIZE && |b| == KEY_SIZE && |ephA| == KEY_SIZE && |ephB| == KEY_SIZE && |unused| == KEY_SIZE
    ensures var x := HonestExchange(s, a, b, ephA, ephB, unused);
            && AllSucceed(s, a, b, ephA, ephB, unused, x)
            && x.i1.pattern == x.r1.pattern == 1 && x.i2.pattern == x.r2.pattern == 2
            && InAgreement(s, x.i3, x.r3)
            && x.i3.staticPublic == s.publicOf(a) && x.r3.staticPublic == s.publicOf(b)
            && x.i3.role == Initiator && x.r3.role == Responder
  {
    var x := HonestExchange(s, a, b, ephA, ephB, unused);
    var i0, r0 := NewSide(s, Initiator, a), NewSide(s, Responder, b);
    FirstTwoMessages(s, a, b, ephA, ephB, unused);
    PatternThreeReady();
    MessageLockstep(s, x.i2, x.r2, [], unused, 10);
    StaticKeysStay(s, i0, [], ephA);
    StaticKeysStayReading(s, r0, x.m1);
    StaticKeysStay(s, x.r1, [], ephB);
    StaticKeysStayReading(s, x.i1, x.m2);
    StaticKeysStay(s, x.i2, [], unused);
    StaticKeysStayReading(s, x.r2, x.m3);
  }

  // ---- what messages do not change ----

  lemma {:induction false} TokensKeepStatic(s: Suite, h: Side, tokens: seq<Token>, ephemeral: Bytes, buffer: Bytes)
    ensures WriteTokens(s, h, tokens, ephemeral, buffer).0.staticPublic == h.staticPublic
    decreases tokens
  {
    if tokens != [] {
      var (h', r) := WriteToken(s, h, tokens[0], ephemeral);
      if r.Success? {
        TokensKeepStatic(s, h', tokens[1..], ephemeral, buffer + r.value);
      }
    }
  }

  lemma StaticKeysStay(s: Suite, h: Side, payload: Bytes, ephemeral: Bytes)
    ensures WriteMessage(s, h, payload, ephemeral).0.staticPublic == h.staticPublic
  {
    if !h.Complete() {
      TokensKeepStatic(s, h, XX_PATTERNS[h.pattern], ephemeral, []);
    }
  }

  lemma {:induction false} ReadTokensKeepStatic(s: Suite, h: Side, tokens: seq<Token>, message: Bytes, offset: nat)
    requires offset <= |message|
    ensures ReadTokens(s, h, tokens, message, offset).0.staticPublic == h.staticPublic
    decreases tokens
  {
    if tokens != [] {
      var (h', r) := ReadToken(s, h, tokens[0], message, offset);
      if r.Success? {
        ReadTokensKeepStatic(s, h', tokens[1..], message, r.value);
      }
    }
  }

  lemma StaticKeysStayReading(s: Suite, h: Side, message: Bytes)
    ensures ReadMessage(s, h, message).0.staticPublic == h.staticPublic
  {
    if !h.Complete() {
      ReadTokensKeepStatic(s, h, XX_PATTERNS[h.pattern], message, 0);
    }
  }
}
