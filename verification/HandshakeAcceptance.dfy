/** When a side accepts a handshake message (`read_message` and `decrypt_and_hash`, src/bitchat/crypto/noise.py). */
module HandshakeAcceptance {
  import opened Wrappers
  import opened ByteStrings
  import opened CryptoSuite
  import opened CipherState
  import opened SymmetricState
  import opened Handshake
  import opened HandshakeAgreement

  /** The bytes open under the cipher key, with the transcript hash as associated data. */
  predicate Opens(s: Suite, y: Sym, rest: Bytes) {
    && y.cipher.key.Some? && |y.cipher.key.value| == KEY_SIZE && y.cipher.nonce < MAX_COUNTER
    && s.open(y.cipher.key.value, ChachaNonce(y.cipher.nonce), y.hash, rest).Some?
  }

  /** The payload of a message is accepted exactly if there is no key yet, or nothing is left of the message, or what is
      left opens. So of a message that ends with its tokens nothing is authenticated but what the tokens decrypt. */
  lemma PayloadAcceptedExactly(s: Suite, h: Side, rest: Bytes)
    requires !h.sym.cipher.transport
    ensures FinishRead(s, h, rest).1.Success? <==> h.sym.cipher.key.None? || rest == [] || Opens(s, h.sym, rest)
  {}

  // ---- whole messages, in terms of their bytes ----

  const SEALED_KEY := KEY_SIZE + TAG_SIZE

  /** What the bytes open to. */
  function OpenedBy(s: Suite, y: Sym, sealed: Bytes): Bytes
    requires Opens(s, y, sealed)
  {
    s.open(y.cipher.key.value, ChachaNonce(y.cipher.nonce), y.hash, sealed).value
  }

  /** The secret that the token combines, once the other side's static key is known. */
  function Shared(s: Suite, h: Side, token: Token): Result<Bytes, CryptoError>
    requires token.EE? || token.ES? || token.SE?
  {
    var (mine, theirs) := DhKeys(h, token);
    if mine.None? || theirs.None? then Failure(NoiseProtocol) else s.DiffieHellman(mine.value, theirs.value)
  }

  /** What a side has taken up when it has opened a static key. */
  function WithStatic(s: Suite, h: Side, sealed: Bytes): Side
    requires Opens(s, h.sym, sealed)
  {
    var y := MixHash(s, h.sym, sealed);
    h.(remoteStatic := Some(OpenedBy(s, h.sym, sealed)), sym := y.(cipher := y.cipher.(nonce := y.cipher.nonce + 1)))
  }

  /** The keys of the token can be combined, and what follows is nothing or opens under the key that results. */
  predicate EndsAfter(s: Suite, h: Side, token: Token, rest: Bytes)
    requires token.EE? || token.ES? || token.SE?
  {
    var shared := Shared(s, h, token);
    shared.Success? && (rest == [] || Opens(s, MixKey(s, h.sym, shared.value), rest))
  }

  /** First a sealed static key that is valid. */
  predicate EndsInKey(s: Suite, h: Side, token: Token, rest: Bytes)
    requires token.EE? || token.ES? || token.SE?
  {
    && |rest| >= SEALED_KEY
    && var sealed := rest[..SEALED_KEY];
       && Opens(s, h.sym, sealed) && s.ValidPublic(OpenedBy(s, h.sym, sealed))
       && EndsAfter(s, WithStatic(s, h, sealed), token, rest[SEALED_KEY..])
  }

  /** What a side has taken up when it has read an ephemeral key. */
  function WithEphemeral(s: Suite, h: Side, ephemeral: Bytes): Side {
    h.(remoteEphemeral := Some(ephemeral), sym := MixHash(s, h.sym, ephemeral))
  }

  /** The bytes that a side accepts next. First come 32 bytes, in the clear; then 32 that can be combined, with the
      sealed static key after them; last the other static key, sealed. */
  predicate Acceptable(s: Suite, h: Side, message: Bytes) {
    if h.pattern == 0 then
      && |message| >= KEY_SIZE
      && (h.sym.cipher.key.None? || |message| == KEY_SIZE
          || Opens(s, MixHash(s, h.sym, message[..KEY_SIZE]), message[KEY_SIZE..]))
    else if h.pattern == 1 then
      && |message| >= KEY_SIZE
      && var h1 := WithEphemeral(s, h, message[..KEY_SIZE]);
         var shared := Shared(s, h1, EE);
         shared.Success? && EndsInKey(s, h1.(sym := MixKey(s, h1.sym, shared.value)), ES, message[KEY_SIZE..])
    else h.pattern == 2 && EndsInKey(s, h, SE, message)
  }

  /** Reading the tokens from `offset` on, and then the payload. */
  predicate Reads(s: Suite, h: Side, tokens: seq<Token>, message: Bytes, offset: nat)
    requires offset <= |message|
  {
    var (h', r) := ReadTokens(s, h, tokens, message, offset);
    r.Success? && FinishRead(s, h', message[r.value..]).1.Success?
  }

  lemma ReadsFirst(s: Suite, h: Side, tokens: seq<Token>, message: Bytes, offset: nat)
    requires offset <= |message| && tokens != []
    ensures var (h', r) := ReadToken(s, h, tokens[0], message, offset);
            Reads(s, h, tokens, message, offset) <==> r.Success? && Reads(s, h', tokens[1..], message, r.value)
  {}

  lemma ReadsDh(s: Suite, h: Side, token: Token, tokens: seq<Token>, message: Bytes, offset: nat)
    requires offset <= |message| && (token.EE? || token.ES? || token.SE?)
    ensures var shared := Shared(s, h, token);
            Reads(s, h, [token] + tokens, message, offset) <==>
            shared.Success? && Reads(s, h.(sym := MixKey(s, h.sym, shared.value)), tokens, message, offset)
  {
    ReadsFirst(s, h, [token] + tokens, message, offset);
    assert ([token] + tokens)[1..] == tokens;
  }

  lemma ReadsPayload(s: Suite, h: Side, message: Bytes, offset: nat)
    requires offset <= |message| && !h.sym.cipher.transport
    ensures Reads(s, h, [], message, offset) <==>
            h.sym.cipher.key.None? || message[offset..] == [] || Opens(s, h.sym, message[offset..])
  {
    PayloadAcceptedExactly(s, h, message[offset..]);
  }

  lemma ReadsStatic(s: Suite, h: Side, tokens: seq<Token>, message: Bytes, offset: nat)
    requires offset <= |message| && !h.sym.cipher.transport && h.sym.cipher.key.Some?
    ensures Reads(s, h, [S] + tokens, message, offset) <==>
            && |message| - offset >= SEALED_KEY
            && var sealed := message[offset..offset + SEALED_KEY];
               && Opens(s, h.sym, sealed) && s.ValidPublic(OpenedBy(s, h.sym, sealed))
               && Reads(s, WithStatic(s, h, sealed), tokens, message, offset + SEALED_KEY)
  {
    ReadsFirst(s, h, [S] + tokens, message, offset);
    assert ([S] + tokens)[1..] == tokens;
  }

  lemma ReadsCombined(s: Suite, h: Side, token: Token, message: Bytes, offset: nat)
    requires offset <= |message| && !h.sym.cipher.transport && (token.EE? || token.ES? || token.SE?)
    ensures Reads(s, h, [token] + [], message, offset) <==> EndsAfter(s, h, token, message[offset..])
  {
    ReadsDh(s, h, token, [], message, offset);
    var shared := Shared(s, h, token);
    if shared.Success? {
      ReadsPayload(s, h.(sym := MixKey(s, h.sym, shared.value)), message, offset);
    }
  }

  /** The end of the second and of the third message. */
  lemma ReadsEnd(s: Suite, h: Side, token: Token, message: Bytes, offset: nat)
    requires offset <= |message| && !h.sym.cipher.transport && h.sym.cipher.key.Some? && (token.ES? || token.SE?)
    ensures Reads(s, h, [S] + ([token] + []), message, offset) <==> EndsInKey(s, h, token, message[offset..])
  {
    ReadsStatic(s, h, [token] + [], message, offset);
    SliceOfRest(message, offset, SEALED_KEY);
    if |message| - offset >= SEALED_KEY && Opens(s, h.sym, message[offset..offset + SEALED_KEY]) {
      var h1 := WithStatic(s, h, message[offset..offset + SEALED_KEY]);
      ReadsCombined(s, h1, token, message, offset + SEALED_KEY);
    }
  }

  lemma SliceOfRest(message: Bytes, offset: nat, n: nat)
    requires offset <= |message|
    ensures offset + n <= |message| ==>
              && message[offset..][..n] == message[offset..offset + n]
              && message[offset..][n..] == message[offset + n..]
  {}

  lemma ReadsEphemeral(s: Suite, h: Side, tokens: seq<Token>, message: Bytes)
    ensures Reads(s, h, [E] + tokens, message, 0) <==>
            |message| >= KEY_SIZE && Reads(s, WithEphemeral(s, h, message[..KEY_SIZE]), tokens, message, KEY_SIZE)
  {
    ReadsFirst(s, h, [E] + tokens, message, 0);
    assert ([E] + tokens)[1..] == tokens;
  }

  lemma SecondReads(s: Suite, h: Side, message: Bytes)
    requires !h.sym.cipher.transport && |message| >= KEY_SIZE
    ensures var h1 := WithEphemeral(s, h, message[..KEY_SIZE]);
            var shared := Shared(s, h1, EE);
            Reads(s, h1, [EE] + ([S] + ([ES] + [])), message, KEY_SIZE) <==>
            shared.Success? && EndsInKey(s, h1.(sym := MixKey(s, h1.sym, shared.value)), ES, message[KEY_SIZE..])
  {
    var h1 := WithEphemeral(s, h, message[..KEY_SIZE]);
    ReadsDh(s, h1, EE, [S] + ([ES] + []), message, KEY_SIZE);
    var shared := Shared(s, h1, EE);
    if shared.Success? {
      ReadsEnd(s, h1.(sym := MixKey(s, h1.sym, shared.value)), ES, message, KEY_SIZE);
    }
  }

  /** A side accepts a message exactly if its bytes are acceptable. (By the third message there is a key.) */
  lemma MessageAcceptedExactly(s: Suite, h: Side, message: Bytes)
    requires !h.sym.cipher.transport && (h.pattern == 2 ==> h.sym.cipher.key.Some?)
    ensures ReadMessage(s, h, message).1.Success? <==> Acceptable(s, h, message)
  {
    assert [E] + [] == [E] && [E] + ([EE] + ([S] + ([ES] + []))) == [E, EE, S, ES] && [S] + ([SE] + []) == [S, SE];
    if h.pattern == 0 {
      ReadsEphemeral(s, h, [], message);
      if |message| >= KEY_SIZE {
        ReadsPayload(s, WithEphemeral(s, h, message[..KEY_SIZE]), message, KEY_SIZE);
      }
    } else if h.pattern == 1 {
      ReadsEphemeral(s, h, [EE] + ([S] + ([ES] + [])), message);
      if |message| >= KEY_SIZE {
        SecondReads(s, h, message);
      }
    } else if h.pattern == 2 {
      ReadsEnd(s, h, SE, message, 0);
      assert message[0..] == message;
    }
  }

  lemma {:induction false} TokensKeepHandshake(s: Suite, h: Side, tokens: seq<Token>, message: Bytes, offset: nat)
    requires offset <= |message| && !h.sym.cipher.transport
    ensures !ReadTokens(s, h, tokens, message, offset).0.sym.cipher.transport
    decreases tokens
  {
    if tokens != [] {
      var (h', r) := ReadToken(s, h, tokens[0], message, offset);
      if r.Success? {
        TokensKeepHandshake(s, h', tokens[1..], message, r.value);
      }
    }
  }

  // ---- honest messages, cut ----

  /** The bytes that the tokens of a message make. */
  function HeadOf(s: Suite, w: Side, ephemeral: Bytes): Bytes
    requires !w.Complete()
  {
    BytesOf(WriteTokens(s, w, XX_PATTERNS[w.pattern], ephemeral, []).1)
  }

  /** What a side that read less ends with: all but the transcript hash and the counter of its cipher. */
  ghost predicate SameButForHash(h: Side, k: Side) {
    h == k.(sym := k.sym.(hash := h.sym.hash, cipher := h.sym.cipher))
  }

  lemma FinishSame(s: Suite, h: Side, rest: Bytes)
    requires FinishRead(s, h, rest).1.Success? && !h.sym.cipher.transport
    ensures FinishRead(s, h, []).1 == Success([]) && SameButForHash(FinishRead(s, h, []).0, FinishRead(s, h, rest).0)
  {}

  /** A message and the head it starts with, read after the same tokens. */
  lemma ReadCut(s: Suite, r: Side, head: Bytes, message: Bytes)
    requires !r.Complete() && !r.sym.cipher.transport && head <= message && ReadMessage(s, r, message).1.Success?
    requires ReadTokens(s, r, XX_PATTERNS[r.pattern], head, 0) == ReadTokens(s, r, XX_PATTERNS[r.pattern], message, 0)
    requires ReadTokens(s, r, XX_PATTERNS[r.pattern], head, 0).1 == Success(|head|)
    ensures ReadMessage(s, r, head).1 == Success([])
    ensures SameButForHash(ReadMessage(s, r, head).0, ReadMessage(s, r, message).0)
  {
    var h := ReadTokens(s, r, XX_PATTERNS[r.pattern], head, 0).0;
    TokensKeepHandshake(s, r, XX_PATTERNS[r.pattern], head, 0);
    FinishSame(s, h, message[|head|..]);
    assert head[|head|..] == [];
  }

  /** An honest message cut off after its tokens is accepted. */
  lemma CutMessageAccepted(s: Suite, w: Side, r: Side, payload: Bytes, ephemeral: Bytes, used: nat)
    requires s.Lawful() && Paired(s, w, r, used) && used + 5 < MAX_COUNTER && |ephemeral| == KEY_SIZE
    requires !w.Complete() && |XX_PATTERNS[w.pattern]| <= 4
    requires Ready(XX_PATTERNS[w.pattern], KnownTo(w), KnownTo(r), w.role)
    ensures var head := HeadOf(s, w, ephemeral);
            && WriteMessage(s, w, payload, ephemeral).1.Success?
            && head <= WriteMessage(s, w, payload, ephemeral).1.value
            && ReadMessage(s, r, head).1 == Success([])
            && SameButForHash(ReadMessage(s, r, head).0,
                              ReadMessage(s, r, WriteMessage(s, w, payload, ephemeral).1.value).0)
  {
    var tokens := XX_PATTERNS[w.pattern];
    var head := HeadOf(s, w, ephemeral);
    MessageLockstep(s, w, r, payload, ephemeral, used);
    var sent := WriteMessage(s, w, payload, ephemeral).1.value;
    TokensLockstep(s, w, r, tokens, ephemeral, [], head, used);
    SameTokens(s, w, r, tokens, ephemeral, head, sent, used);
    ReadCut(s, r, head, sent);
  }

  /** What follows the tokens makes no difference to reading them. */
  lemma {:induction false} SameTokens(
      s: Suite, w: Side, r: Side, tokens: seq<Token>, ephemeral: Bytes, a: Bytes, b: Bytes, used: nat)
    requires s.Lawful() && Paired(s, w, r, used) && used + |tokens| <= MAX_COUNTER && |ephemeral| == KEY_SIZE
    requires Ready(tokens, KnownTo(w), KnownTo(r), w.role)
    requires var sent := WriteTokens(s, w, tokens, ephemeral, []).1;
             sent.Success? ==> sent.value <= a && sent.value <= b
    ensures ReadTokens(s, r, tokens, a, 0) == ReadTokens(s, r, tokens, b, 0)
  {
    ReadBoth(s, w, r, tokens, ephemeral, [], a, b, used);
  }

  lemma {:induction false} ReadBoth(s: Suite, w: Side, r: Side, tokens: seq<Token>, ephemeral: Bytes,
                                    buffer: Bytes, a: Bytes, b: Bytes, used: nat)
    requires s.Lawful() && Paired(s, w, r, used) && used + |tokens| <= MAX_COUNTER && |ephemeral| == KEY_SIZE
    requires Ready(tokens, KnownTo(w), KnownTo(r), w.role)
    requires var sent := WriteTokens(s, w, tokens, ephemeral, buffer).1;
             sent.Success? ==> sent.value <= a && sent.value <= b
    ensures |buffer| <= |a| && |buffer| <= |b|
    ensures ReadTokens(s, r, tokens, a, |buffer|) == ReadTokens(s, r, tokens, b, |buffer|)
    decreases tokens
  {
    TokensLockstep(s, w, r, tokens, ephemeral, buffer, a, used);
    if tokens != [] {
      TokenLockstep(s, w, r, tokens[0], ephemeral, used);
      var (w1, sent) := WriteToken(s, w, tokens[0], ephemeral);
      var r1 := ReadToken(s, r, tokens[0], sent.value, 0).0;
      TokensLockstep(s, w1, r1, tokens[1..], ephemeral, buffer + sent.value, a, used + 1);
      ReadBoth(s, w1, r1, tokens[1..], ephemeral, buffer + sent.value, a, b, used + 1);
      ReadFirstToken(s, r, tokens, buffer, sent.value, a);
      ReadFirstToken(s, r, tokens, buffer, sent.value, b);
    }
  }

  // ---- the last message ----

  lemma {:induction false} KeyStays(s: Suite, h: Side, tokens: seq<Token>, ephemeral: Bytes, buffer: Bytes)
    requires WriteTokens(s, h, tokens, ephemeral, buffer).1.Success? && (h.sym.cipher.key.Some? || EE in tokens)
    ensures WriteTokens(s, h, tokens, ephemeral, buffer).0.sym.cipher.key.Some?
    decreases tokens
  {
    if tokens != [] {
      var (h', r) := WriteToken(s, h, tokens[0], ephemeral);
      KeyStays(s, h', tokens[1..], ephemeral, buffer + r.value);
    }
  }

  lemma KeyedAfterSecond(s: Suite, h: Side, ephemeral: Bytes)
    requires h.pattern == 1 && WriteMessage(s, h, [], ephemeral).1.Success?
    ensures WriteMessage(s, h, [], ephemeral).0.sym.cipher.key.Some?
  {
    assert XX_PATTERNS[1][1] == EE;
    KeyStays(s, h, XX_PATTERNS[1], ephemeral, []);
  }

  /** With a key, the tokens of the last message make 48 bytes: the static key, sealed. */
  lemma LastHead(s: Suite, w: Side, r: Side, ephemeral: Bytes)
    requires s.Lawful() && Paired(s, w, r, 10) && w.pattern == 2 && w.sym.cipher.key.Some?
    requires WriteTokens(s, w, [S, SE], ephemeral, []).1.Success?
    ensures |HeadOf(s, w, ephemeral)| == 48
  {
    assert s.ValidPublic(w.staticPublic);
    CryptLockstep(s, w.sym, w.staticPublic);
    assert XX_PATTERNS[2] == [S, SE] && [S, SE][1..] == [SE] && [SE][1..] == [];
  }

  /** So the last message of an honest handshake is accepted even when its last 16 bytes are missing, the ones that
      would show that the sender can combine its static key: the handshake completes with that key and with the same
      ciphers. */
  lemma CutLastMessage(s: Suite, a: Bytes, b: Bytes, ephA: Bytes, ephB: Bytes, unused: Bytes)
    requires s.Lawful()
    requires |a| == KEY_SIZE && |b| == KEY_SIZE && |ephA| == KEY_SIZE && |ephB| == KEY_SIZE && |unused| == KEY_SIZE
    ensures var x := HonestExchange(s, a, b, ephA, ephB, unused);
            && |x.m3| == 64
            && var (h, read) := ReadMessage(s, x.r2, x.m3[..48]);
               && read == Success([]) && h.Complete() && h.remoteStatic == Some(s.publicOf(a))
               && TransportCiphers(s, h) == TransportCiphers(s, x.r3)
  {
    var x := HonestExchange(s, a, b, ephA, ephB, unused);
    FirstTwoMessages(s, a, b, ephA, ephB, unused);
    XXAgreement(s, a, b, ephA, ephB, unused);
    PatternThreeReady();
    CutMessageAccepted(s, x.i2, x.r2, [], unused, 10);
    WriteTokensSucceed(s, x.i2, x.r2, XX_PATTERNS[2], unused, 10);
    KeyedAfterSecond(s, x.r1, ephB);
    LastHead(s, x.i2, x.r2, unused);
    LastTail(s, x.i2, x.r2, unused);
  }

  lemma LastTail(s: Suite, w: Side, r: Side, ephemeral: Bytes)
    requires s.Lawful() && Paired(s, w, r, 10) && w.pattern == 2 && |ephemeral| == KEY_SIZE && w.sym.cipher.key.Some?
    requires Ready(XX_PATTERNS[2], KnownTo(w), KnownTo(r), w.role) && |HeadOf(s, w, ephemeral)| == 48
    ensures var sent := WriteMessage(s, w, [], ephemeral).1;
            sent.Success? && |sent.value| == 64 && sent.value[..48] == HeadOf(s, w, ephemeral)
  {
    WriteTokensSucceed(s, w, r, XX_PATTERNS[2], ephemeral, 10);
    var w1 := WriteTokens(s, w, XX_PATTERNS[2], ephemeral, []).0;
    KeyStays(s, w, XX_PATTERNS[2], ephemeral, []);
    CryptLockstep(s, w1.sym, []);
  }

  // ---- what goes wrong ----

  /** What is sealed either opens, or is an authentication error that leaves the state as it was. */
  lemma OpeningExactly(s: Suite, y: Sym, sealed: Bytes)
    requires !y.cipher.transport && y.cipher.key.Some? && y.cipher.nonce < MAX_COUNTER && sealed != []
    ensures var (y', r) := DecryptAndHash(s, y, sealed);
            if Opens(s, y, sealed) then r == Success(OpenedBy(s, y, sealed))
            else r == Failure(Authentication) && y' == y
  {}

  /** The static key in a message, sealed once there is a cipher key. */
  function StaticIn(s: Suite, y: Sym, part: Bytes): Option<Bytes> {
    if y.cipher.key.None? then Some(part) else if Opens(s, y, part) then Some(OpenedBy(s, y, part)) else None
  }

  /** One token of a message: too few bytes are a protocol error, a static key that does not open or is not valid is an
      authentication error, a combination that fails has its own error; only a token that is read moves the offset. */
  lemma ReadTokenExactly(s: Suite, h: Side, token: Token, message: Bytes, offset: nat)
    requires offset <= |message| && !h.sym.cipher.transport && h.sym.cipher.nonce < MAX_COUNTER
    ensures var r, left := ReadToken(s, h, token, message, offset).1, |message| - offset;
            match token
            case E => r == if left < 32 then Failure(NoiseProtocol) else Success(offset + 32)
            case S =>
              var size := if h.sym.cipher.key.None? then 32 else 48;
              if left < size then r == Failure(NoiseProtocol)
              else
                var key := StaticIn(s, h.sym, message[offset..offset + size]);
                r == if key.Some? && s.ValidPublic(key.value) then Success(offset + size) else Failure(Authentication)
            case _ =>
              var shared := Shared(s, h, token);
              r == if shared.Success? then Success(offset) else Failure(shared.error)
  {
    if token.S? && |message| - offset >= (if h.sym.cipher.key.None? then 32 else 48) && h.sym.cipher.key.Some? {
      OpeningExactly(s, h.sym, message[offset..offset + 48]);
    }
  }

  lemma {:induction false} ReadTokensStay(s: Suite, h: Side, tokens: seq<Token>, message: Bytes, offset: nat)
    requires offset <= |message|
    ensures var (h', r) := ReadTokens(s, h, tokens, message, offset);
            h'.pattern == h.pattern && r != Failure(NoiseState)
    decreases tokens
  {
    if tokens != [] {
      var (h', r) := ReadToken(s, h, tokens[0], message, offset);
      if r.Success? {
        ReadTokensStay(s, h', tokens[1..], message, r.value);
      }
    }
  }

  lemma {:induction false} WriteTokensStay(s: Suite, h: Side, tokens: seq<Token>, ephemeral: Bytes, buffer: Bytes)
    ensures var (h', r) := WriteTokens(s, h, tokens, ephemeral, buffer);
            h'.pattern == h.pattern && r != Failure(NoiseState)
    decreases tokens
  {
    if tokens != [] {
      var (h', r) := WriteToken(s, h, tokens[0], ephemeral);
      if r.Success? {
        WriteTokensStay(s, h', tokens[1..], ephemeral, buffer + r.value);
      }
    }
  }

  /** A message that is read takes the handshake one pattern on, and one that is refused leaves it where it was; after
      the last pattern, and only then, the error is one of state and nothing changes. */
  lemma ReadAdvancesExactly(s: Suite, h: Side, message: Bytes)
    ensures var (h', r) := ReadMessage(s, h, message);
            && h'.pattern == (if r.Success? then h.pattern + 1 else h.pattern)
            && (r == Failure(NoiseState) <==> h.pattern >= 3) && (h.pattern >= 3 ==> h' == h)
  {
    if !h.Complete() {
      ReadTokensStay(s, h, XX_PATTERNS[h.pattern], message, 0);
    }
  }

  /** So does a message that is written. */
  lemma WriteAdvancesExactly(s: Suite, h: Side, payload: Bytes, ephemeral: Bytes)
    ensures var (h', r) := WriteMessage(s, h, payload, ephemeral);
            && h'.pattern == (if r.Success? then h.pattern + 1 else h.pattern)
            && (r == Failure(NoiseState) <==> h.pattern >= 3) && (h.pattern >= 3 ==> h' == h)
  {
    if !h.Complete() {
      WriteTokensStay(s, h, XX_PATTERNS[h.pattern], ephemeral, []);
    }
  }
}
