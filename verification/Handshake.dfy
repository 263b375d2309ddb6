/** The XX handshake as each side runs it (`NoiseHandshakeState`, src/bitchat/crypto/noise.py; sections 5.3 and 7.5
    of the Noise Protocol Framework). */
module Handshake {
  import opened Wrappers
  import opened ByteStrings
  import opened CryptoSuite
  import opened CipherState
  import opened SymmetricState

  datatype Role = Initiator | Responder

  datatype Token = E | S | EE | ES | SE

  const XX_PATTERNS: seq<seq<Token>> := [[E], [E, EE, S, ES], [S, SE]]

  /** "Noise_XX_25519_ChaChaPoly_SHA256" */
  const PROTOCOL_NAME: Bytes :=
    [ 78, 111, 105, 115, 101, 95, 88, 88, 95, 50, 53, 53, 49, 57, 95, 67,
      104, 97, 67, 104, 97, 80, 111, 108, 121, 95, 83, 72, 65, 50, 53, 54 ]

  datatype Side = Side(
    role: Role,
    staticPrivate: Bytes, staticPublic: Bytes,
    ephemeralPrivate: Option<Bytes>, ephemeralPublic: Option<Bytes>,
    remoteStatic: Option<Bytes>, remoteEphemeral: Option<Bytes>,
    sym: Sym,
    pattern: nat)
  {
    predicate Complete() {
      pattern >= |XX_PATTERNS|
    }
  }

  function NewSide(s: Suite, role: Role, staticPrivate: Bytes): Side {
    Side(role, staticPrivate, s.publicOf(staticPrivate), None, None, None, None,
         MixHash(s, NewSym(s, PROTOCOL_NAME), []), 0)
  }

  function DhMixKey(s: Suite, h: Side, priv: Option<Bytes>, remote: Option<Bytes>): (Side, Result<(), CryptoError>) {
    if priv.None? || remote.None? then (h, Failure(NoiseProtocol))
    else match s.DiffieHellman(priv.value, remote.value)
    case Failure(e) => (h, Failure(e))
    case Success(shared) => (h.(sym := MixKey(s, h.sym, shared)), Success(()))
  }

  /** The keys that a DH token combines, seen from this side. */
  function DhKeys(h: Side, token: Token): (Option<Bytes>, Option<Bytes>)
    requires token.EE? || token.ES? || token.SE?
  {
    match token
    case EE => (h.ephemeralPrivate, h.remoteEphemeral)
    case ES =>
      if h.role.Initiator? then (h.ephemeralPrivate, h.remoteStatic) else (Some(h.staticPrivate), h.remoteEphemeral)
    case SE =>
      if h.role.Initiator? then (Some(h.staticPrivate), h.remoteEphemeral) else (h.ephemeralPrivate, h.remoteStatic)
  }

  // ---- writing ----

  /** One token on the writing side: the new state and the bytes appended to the message. */
  function WriteToken(s: Suite, h: Side, token: Token, ephemeral: Bytes): (Side, Result<Bytes, CryptoError>) {
    match token
    case E =>
      var public := s.publicOf(ephemeral);
      (h.(ephemeralPrivate := Some(ephemeral), ephemeralPublic := Some(public), sym := MixHash(s, h.sym, public)),
       Success(public))
    case S =>
      var (y, r) := EncryptAndHash(s, h.sym, h.staticPublic);
      (h.(sym := y), r)
    case _ =>
      var (h', r) := DhMixKey(s, h, DhKeys(h, token).0, DhKeys(h, token).1);
      (h', if r.Success? then Success([]) else Failure(r.error))
  }

  function WriteTokens(s: Suite, h: Side, tokens: seq<Token>, ephemeral: Bytes, buffer: Bytes)
    : (Side, Result<Bytes, CryptoError>)
    decreases tokens
  {
    if tokens == [] then (h, Success(buffer))
    else
      var (h', r) := WriteToken(s, h, tokens[0], ephemeral);
      if r.Failure? then (h', r) else WriteTokens(s, h', tokens[1..], ephemeral, buffer + r.value)
  }

  function FinishWrite(s: Suite, h: Side, buffer: Bytes, payload: Bytes): (Side, Result<Bytes, CryptoError>) {
    var (y, r) := EncryptAndHash(s, h.sym, payload);
    if r.Failure? then (h.(sym := y), r)
    else (h.(sym := y, pattern := h.pattern + 1), Success(buffer + r.value))
  }

  function WriteMessage(s: Suite, h: Side, payload: Bytes, ephemeral: Bytes): (Side, Result<Bytes, CryptoError>) {
    if h.Complete() then (h, Failure(NoiseState))
    else
      var (h', r) := WriteTokens(s, h, XX_PATTERNS[h.pattern], ephemeral, []);
      if r.Failure? then (h', r) else FinishWrite(s, h', r.value, payload)
  }

  // ---- reading ----

  function StaticKeyLength(h: Side): nat {
    if h.sym.cipher.key.Some? then KEY_SIZE + TAG_SIZE else KEY_SIZE
  }

  /** One token on the reading side: the new state and the new offset into the message. */
  function ReadToken(s: Suite, h: Side, token: Token, message: Bytes, offset: nat): (Side, Result<nat, CryptoError>)
    requires offset <= |message|
  {
    match token
    case E =>
      if offset + KEY_SIZE > |message| then (h, Failure(NoiseProtocol))
      else
        var public := message[offset..offset + KEY_SIZE];
        (h.(remoteEphemeral := Some(public), sym := MixHash(s, h.sym, public)), Success(offset + KEY_SIZE))
    case S =>
      var length := StaticKeyLength(h);
      if offset + length > |message| then (h, Failure(NoiseProtocol))
      else
        var (y, r) := DecryptAndHash(s, h.sym, message[offset..offset + length]);
        var h' := h.(sym := y);
        if r.Failure? then (h', Failure(r.error))
        else if |r.value| != KEY_SIZE then (h', Failure(Authentication))
        else if !s.ValidPublic(r.value) then (h', Failure(Authentication))
        else (h'.(remoteStatic := Some(r.value)), Success(offset + length))
    case _ =>
      var (h', r) := DhMixKey(s, h, DhKeys(h, token).0, DhKeys(h, token).1);
      (h', if r.Success? then Success(offset) else Failure(r.error))
  }

  function ReadTokens(s: Suite, h: Side, tokens: seq<Token>, message: Bytes, offset: nat)
    : (Side, Result<nat, CryptoError>)
    requires offset <= |message|
    ensures ReadTokens(s, h, tokens, message, offset).1.Success? ==>
              ReadTokens(s, h, tokens, message, offset).1.value <= |message|
    decreases tokens
  {
    if tokens == [] then (h, Success(offset))
    else
      var (h', r) := ReadToken(s, h, tokens[0], message, offset);
      if r.Failure? then (h', r) else ReadTokens(s, h', tokens[1..], message, r.value)
  }

  function FinishRead(s: Suite, h: Side, rest: Bytes): (Side, Result<Bytes, CryptoError>) {
    var (y, r) := DecryptAndHash(s, h.sym, rest);
    if r.Failure? then (h.(sym := y), r) else (h.(sym := y, pattern := h.pattern + 1), r)
  }

  function ReadMessage(s: Suite, h: Side, message: Bytes): (Side, Result<Bytes, CryptoError>) {
    if h.Complete() then (h, Failure(NoiseState))
    else
      var (h', r) := ReadTokens(s, h, XX_PATTERNS[h.pattern], message, 0);
      if r.Failure? then (h', Failure(r.error)) else FinishRead(s, h', message[r.value..])
  }

  /** The transport ciphers of this side: (send, receive). */
  function TransportCiphers(s: Suite, h: Side): Result<(Cipher, Cipher), CryptoError> {
    if !h.Complete() then Failure(NoiseState)
    else
      var (c1, c2) := Split(s, h.sym);
      Success(if h.role.Initiator? then (c1, c2) else (c2, c1))
  }

  class NoiseHandshakeState {
    const role: Role
    const staticPrivate: Bytes
    const staticPublic: Bytes
    var ephemeralPrivate: Option<Bytes>
    var ephemeralPublic: Option<Bytes>
    var remoteStatic: Option<Bytes>
    var remoteEphemeral: Option<Bytes>
    const symmetric: NoiseSymmetricState
    var currentPattern: nat

    function State(): Side
      reads this, symmetric, symmetric.cipher
    {
      Side(role, staticPrivate, staticPublic, ephemeralPrivate, ephemeralPublic, remoteStatic, remoteEphemeral,
           symmetric.State(), currentPattern)
    }

    constructor (s: Suite, role: Role, staticPrivate: Bytes)
      ensures State() == NewSide(s, role, staticPrivate)
      ensures fresh(symmetric) && fresh(symmetric.cipher)
    {
      this.role, this.staticPrivate, staticPublic := role, staticPrivate, s.publicOf(staticPrivate);
      ephemeralPrivate, ephemeralPublic, remoteStatic, remoteEphemeral := None, None, None, None;
      currentPattern := 0;
      var y := new NoiseSymmetricState(s, PROTOCOL_NAME);
      symmetric := y;
      new;
      symmetric.MixHashData(s, []);
    }

    method MixDh(s: Suite, priv: Option<Bytes>, remote: Option<Bytes>) returns (r: Result<(), CryptoError>)
      modifies symmetric, symmetric.cipher
      ensures (State(), r) == DhMixKey(s, old(State()), priv, remote)
    {
      if priv.None? {
        return Failure(NoiseProtocol);
      }
      if remote.None? {
        return Failure(NoiseProtocol);
      }
      var shared := s.DiffieHellman(priv.value, remote.value);
      if shared.Failure? {
        return Failure(shared.error);
      }
      symmetric.MixKeyMaterial(s, shared.value);
      return Success(());
    }

    method WriteOneToken(s: Suite, token: Token, ephemeral: Bytes) returns (r: Result<Bytes, CryptoError>)
      modifies this, symmetric, symmetric.cipher
      ensures (State(), r) == WriteToken(s, old(State()), token, ephemeral)
    {
      match token {
        case E =>
          var public := s.publicOf(ephemeral);
          ephemeralPrivate, ephemeralPublic := Some(ephemeral), Some(public);
          symmetric.MixHashData(s, public);
          r := Success(public);
        case S =>
          r := symmetric.EncryptHashing(s, staticPublic);
        case _ =>
          var (priv, remote) := DhKeys(State(), token);
          var mixed := MixDh(s, priv, remote);
          r := if mixed.Success? then Success([]) else Failure(mixed.error);
      }
    }

    /** `write_message`; `ephemeral` is the private key that the pattern's E token, if it has one, generates. */
    method Write(s: Suite, payload: Bytes, ephemeral: Bytes) returns (r: Result<Bytes, CryptoError>)
      modifies this, symmetric, symmetric.cipher
      ensures (State(), r) == WriteMessage(s, old(State()), payload, ephemeral)
    {
      if State().Complete() {
        return Failure(NoiseState);
      }
      r := WriteAllTokens(s, XX_PATTERNS[currentPattern], ephemeral);
      if r.Failure? {
        return;
      }
      r := WritePayload(s, r.value, payload);
    }

    method WritePayload(s: Suite, buffer: Bytes, payload: Bytes) returns (r: Result<Bytes, CryptoError>)
      modifies this`currentPattern, symmetric, symmetric.cipher
      ensures (State(), r) == FinishWrite(s, old(State()), buffer, payload)
    {
      var encrypted := symmetric.EncryptHashing(s, payload);
      if encrypted.Failure? {
        return encrypted;
      }
      currentPattern := currentPattern + 1;
      return Success(buffer + encrypted.value);
    }

    /** The token loop of `write_message`. */
    method WriteAllTokens(s: Suite, tokens: seq<Token>, ephemeral: Bytes) returns (r: Result<Bytes, CryptoError>)
      modifies this, symmetric, symmetric.cipher
      ensures (State(), r) == WriteTokens(s, old(State()), tokens, ephemeral, [])
    {
      var buffer: Bytes := [];
      for i := 0 to |tokens|
        invariant WriteTokens(s, State(), tokens[i..], ephemeral, buffer)
                  == WriteTokens(s, old(State()), tokens, ephemeral, [])
      {
        assert tokens[i..][1..] == tokens[i + 1..];
        var written := WriteOneToken(s, tokens[i], ephemeral);
        if written.Failure? {
          return written;
        }
        buffer := buffer + written.value;
      }
      return Success(buffer);
    }

    method ReadOneToken(s: Suite, token: Token, message: Bytes, offset: nat) returns (r: Result<nat, CryptoError>)
      requires offset <= |message|
      modifies this, symmetric, symmetric.cipher
      ensures (State(), r) == ReadToken(s, old(State()), token, message, offset)
    {
      match token {
        case E =>
          if offset + KEY_SIZE > |message| {
            return Failure(NoiseProtocol);
          }
          var public := message[offset..offset + KEY_SIZE];
          remoteEphemeral := Some(public);
          symmetric.MixHashData(s, public);
          r := Success(offset + KEY_SIZE);
        case S =>
          var length := StaticKeyLength(State());
          if offset + length > |message| {
            return Failure(NoiseProtocol);
          }
          var decrypted := symmetric.DecryptHashing(s, message[offset..offset + length]);
          if decrypted.Failure? {
            return Failure(decrypted.error);
          }
          if |decrypted.value| != KEY_SIZE || !s.ValidPublic(decrypted.value) {
            return Failure(Authentication);
          }
          remoteStatic := Some(decrypted.value);
          r := Success(offset + length);
        case _ =>
          var (priv, remote) := DhKeys(State(), token);
          var mixed := MixDh(s, priv, remote);
          r := if mixed.Success? then Success(offset) else Failure(mixed.error);
      }
    }

    method Read(s: Suite, message: Bytes) returns (r: Result<Bytes, CryptoError>)
      modifies this, symmetric, symmetric.cipher
      ensures (State(), r) == ReadMessage(s, old(State()), message)
    {
      if State().Complete() {
        return Failure(NoiseState);
      }
      var offset := ReadAllTokens(s, XX_PATTERNS[currentPattern], message);
      if offset.Failure? {
        return Failure(offset.error);
      }
      r := ReadPayload(s, message[offset.value..]);
    }

    method ReadPayload(s: Suite, rest: Bytes) returns (r: Result<Bytes, CryptoError>)
      modifies this`currentPattern, symmetric, symmetric.cipher
      ensures (State(), r) == FinishRead(s, old(State()), rest)
    {
      r := symmetric.DecryptHashing(s, rest);
      if r.Success? {
        currentPattern := currentPattern + 1;
      }
    }

    /** The token loop of `read_message`. */
    method ReadAllTokens(s: Suite, tokens: seq<Token>, message: Bytes) returns (r: Result<nat, CryptoError>)
      modifies this, symmetric, symmetric.cipher
      ensures (State(), r) == ReadTokens(s, old(State()), tokens, message, 0)
    {
      var offset := 0;
      for i := 0 to |tokens|
        invariant 0 <= offset <= |message|
        invariant ReadTokens(s, State(), tokens[i..], message, offset)
                  == ReadTokens(s, old(State()), tokens, message, 0)
      {
        assert tokens[i..][1..] == tokens[i + 1..];
        var read := ReadOneToken(s, tokens[i], message, offset);
        if read.Failure? {
          return Failure(read.error);
        }
        offset := read.value;
      }
      return Success(offset);
    }

    method GetTransportCiphers(s: Suite) returns (r: Result<(NoiseCipherState, NoiseCipherState), CryptoError>)
      ensures r.Success? <==> State().Complete()
      ensures r.Success? ==>
                && fresh(r.value.0) && fresh(r.value.1) && r.value.0 != r.value.1
                && TransportCiphers(s, State()) == Success((r.value.0.State(), r.value.1.State()))
      ensures r.Failure? ==> TransportCiphers(s, State()) == Failure(r.error)
    {
      if !State().Complete() {
        return Failure(NoiseState);
      }
      var c1, c2 := symmetric.SplitCiphers(s);
      return Success(if role.Initiator? then (c1, c2) else (c2, c1));
    }
  }
}
