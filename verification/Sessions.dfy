/** A peer's Noise session: handshake, key binding, transport (src/bitchat/crypto/sessions.py). */
module Sessions {
  import opened Wrappers
  import opened ByteStrings
  import opened Hex
  import opened CryptoSuite
  import opened CipherState
  import opened SymmetricState
  import opened Handshake

  /** `determine_handshake_role`: the lower peer id initiates. */
  function DetermineRole(mine: string, remote: string): Result<Role, CryptoError> {
    if mine == "" then Failure(BadValue)
    else if remote == "" then Failure(BadValue)
    else Success(if TextLess(mine, remote) then Initiator else Responder)
  }

  /** Two peers with different ids take opposite roles. */
  lemma OppositeRoles(a: string, b: string)
    requires a != "" && b != "" && a != b
    ensures var ra, rb := DetermineRole(a, b), DetermineRole(b, a);
            ra.Success? && rb.Success? && ra.value != rb.value
  {
    TextOrderTotal(a, b);
  }

  /** The one whose id comes first initiates; an empty id is refused. */
  lemma LowerInitiates(mine: string, remote: string)
    ensures var r := DetermineRole(mine, remote);
            && (r.Failure? <==> mine == "" || remote == "") && (r.Failure? ==> r.error == BadValue)
            && (r.Success? ==> (r.value == Initiator <==> ComesFirst(mine, remote)))
  {
    TextLessExactly(mine, remote);
  }

  datatype LocalIdentity = LocalIdentity(x25519Private: Bytes, x25519Public: Bytes, peerIdHex: string)

  /** The first eight bytes of a digest. */
  function Head8(digest: Bytes): Bytes {
    if |digest| <= 8 then digest else digest[..8]
  }

  /** The identity derived from a private key. */
  function IdentityOf(s: Suite, priv: Bytes): LocalIdentity {
    LocalIdentity(priv, s.publicOf(priv), ToHex(Head8(s.sha256(s.publicOf(priv)))))
  }

  datatype Phase = Uninitialized | Handshaking | Established | Failed | Closed

  datatype Session = Session(
    identity: LocalIdentity, remotePeerId: string, role: Role,
    phase: Phase,
    handshake: Option<Side>,
    sendCipher: Option<Cipher>, recvCipher: Option<Cipher>,
    remoteStatic: Option<Bytes>, handshakeHash: Option<Bytes>, remoteFingerprint: Option<string>)

  function NewSession(identity: LocalIdentity, remotePeerId: string, role: Role): Session {
    Session(identity, remotePeerId, role, Uninitialized, None, None, None, None, None, None)
  }

  type Reply = Result<Option<Bytes>, CryptoError>

  function StartHandshake(s: Suite, x: Session, ephemeral: Bytes): (Session, Reply) {
    if !x.phase.Uninitialized? then (x, Failure(NoiseState))
    else if |x.identity.x25519Private| != KEY_SIZE then (x, Failure(InvalidKey))
    else
      var h := NewSide(s, x.role, x.identity.x25519Private);
      if x.role.Responder? then (x.(phase := Handshaking, handshake := Some(h)), Success(None))
      else
        var (h', r) := WriteMessage(s, h, [], ephemeral);
        (x.(phase := Handshaking, handshake := Some(h')), AsReply(r))
  }

  function AsReply(r: Result<Bytes, CryptoError>): Reply {
    match r case Success(b) => Success(Some(b)) case Failure(e) => Failure(e)
  }

  /** Is the key that came in the one that the claimed peer id is derived from? */
  predicate KeyBound(s: Suite, remotePeerId: string, key: Bytes) {
    |remotePeerId| == 16 && FromHex(remotePeerId) == Some(Head8(s.sha256(key)))
  }

  /** The peer id is sixteen hexadecimal digits: the first eight bytes of the digest of the public key. */
  lemma PeerIdExactly(s: Suite, priv: Bytes)
    requires s.Digests()
    ensures var digest, id := s.sha256(s.publicOf(priv)), IdentityOf(s, priv).peerIdHex;
            && |id| == 16 && |digest| == KEY_SIZE && IdentityOf(s, priv).x25519Public == s.publicOf(priv)
            && forall i :: 0 <= i < 8 ==> id[2 * i] == DIGITS[digest[i] / 16] && id[2 * i + 1] == DIGITS[digest[i] % 16]
  {
    var digest := s.sha256(s.publicOf(priv));
    assert |digest| == KEY_SIZE;
    forall i | 0 <= i < 8
      ensures ToHex(digest[..8])[2 * i] == DIGITS[digest[i] / 16]
              && ToHex(digest[..8])[2 * i + 1] == DIGITS[digest[i] % 16]
    {
      ToHexAt(digest[..8], i);
    }
  }

  /** A key is bound to an id of sixteen digits exactly if these spell the first eight bytes of its digest, in either
      case. */
  lemma KeyBoundExactly(s: Suite, id: string, key: Bytes)
    requires s.Digests()
    ensures |s.sha256(key)| == KEY_SIZE
    ensures KeyBound(s, id, key) <==>
            |id| == 16 && forall i :: 0 <= i < 8 ==> SpellsAt(id, s.sha256(key)[..8], i)
  {
    assert |s.sha256(key)| == KEY_SIZE;
    if |id| == 16 {
      FromHexExactly(id, s.sha256(key)[..8]);
    }
  }

  function Abandon(x: Session): Session {
    x.(phase := Failed, handshake := None)
  }

  /** `_finalise_handshake` */
  function Finalise(s: Suite, x: Session): (Session, Result<(), CryptoError>)
    requires x.handshake.Some? && x.handshake.value.Complete()
  {
    var h := x.handshake.value;
    if h.remoteStatic.None? then (Abandon(x), Failure(Authentication))
    else if !KeyBound(s, x.remotePeerId, h.remoteStatic.value) then (Abandon(x), Failure(Authentication))
    else if h.remoteStatic.value == x.identity.x25519Public then (Abandon(x), Failure(Authentication))
    else
      var ciphers := TransportCiphers(s, h).value;
      (x.(phase := Established, handshake := None,
          sendCipher := Some(ciphers.0), recvCipher := Some(ciphers.1),
          remoteStatic := h.remoteStatic, handshakeHash := Some(h.sym.hash),
          remoteFingerprint := Some(ToHex(s.sha256(h.remoteStatic.value)))),
       Success(()))
  }

  /** The body of the `try` in `process_handshake_message`, once the session is handshaking. */
  function Advance(s: Suite, x: Session, message: Bytes, ephemeral: Bytes): (Session, Reply) {
    if !x.phase.Handshaking? then (x, Failure(NoiseState))
    else if x.handshake.None? then (x, Failure(NoiseState))
    else
      var (h, read) := ReadMessage(s, x.handshake.value, message);
      var x1 := x.(handshake := Some(h));
      if read.Failure? then (x1, Failure(read.error)) else Respond(s, x1, ephemeral)
  }

  /** The answer to a message that was read, and the end of the handshake when it was the last one. */
  function Respond(s: Suite, x: Session, ephemeral: Bytes): (Session, Reply)
    requires x.handshake.Some?
  {
    if x.handshake.value.Complete() then Conclude(s, x, None)
    else
      var (h, written) := WriteMessage(s, x.handshake.value, [], ephemeral);
      var x1 := x.(handshake := Some(h));
      if written.Failure? then (x1, Failure(written.error)) else Conclude(s, x1, Some(written.value))
  }

  function Conclude(s: Suite, x: Session, response: Option<Bytes>): (Session, Reply)
    requires x.handshake.Some?
  {
    if !x.handshake.value.Complete() then (x, Success(response))
    else
      var (x', done) := Finalise(s, x);
      (x', if done.Success? then Success(response) else Failure(done.error))
  }

  /** A responder that has not started yet starts with the first message. */
  function BeginIfResponder(s: Suite, x: Session): Result<Session, CryptoError> {
    if !x.phase.Uninitialized? || !x.role.Responder? then Success(x)
    else if |x.identity.x25519Private| != KEY_SIZE then Failure(InvalidKey)
    else Success(x.(phase := Handshaking, handshake := Some(NewSide(s, x.role, x.identity.x25519Private))))
  }

  /** `process_handshake_message`: any exception marks the session failed, whatever phase it was in. */
  function Process(s: Suite, x: Session, message: Bytes, ephemeral: Bytes): (Session, Reply) {
    match BeginIfResponder(s, x)
    case Failure(e) => (x.(phase := Failed), Failure(e))
    case Success(x1) => AdvanceOrFail(s, x1, message, ephemeral)
  }

  function AdvanceOrFail(s: Suite, x: Session, message: Bytes, ephemeral: Bytes): (Session, Reply) {
    var (x1, r) := Advance(s, x, message, ephemeral);
    (if r.Failure? then x1.(phase := Failed) else x1, r)
  }

  function SessionEncrypt(s: Suite, x: Session, plaintext: Bytes): (Session, Result<Bytes, CryptoError>) {
    if !x.phase.Established? then (x, Failure(NoiseState))
    else if x.sendCipher.None? then (x, Failure(NoiseState))
    else
      var (c, r) := EncryptWith(s, x.sendCipher.value, plaintext, []);
      (x.(sendCipher := Some(c)), r)
  }

  function SessionDecrypt(s: Suite, x: Session, ciphertext: Bytes): (Session, Result<Bytes, CryptoError>) {
    if !x.phase.Established? then (x, Failure(NoiseState))
    else if x.recvCipher.None? then (x, Failure(NoiseState))
    else
      var (c, r) := DecryptWith(s, x.recvCipher.value, ciphertext, []);
      (x.(recvCipher := Some(c)), r)
  }

  function CloseSession(x: Session): Session {
    x.(sendCipher := None, recvCipher := None, handshake := None, phase := Closed)
  }

  class NoiseSession {
    const identity: LocalIdentity
    const remotePeerId: string
    const role: Role
    var phase: Phase
    var handshake: NoiseHandshakeState?
    var sendCipher: NoiseCipherState?
    var recvCipher: NoiseCipherState?
    var remoteStatic: Option<Bytes>
    var handshakeHash: Option<Bytes>
    var remoteFingerprint: Option<string>

    ghost function Parts(): set<object>
      reads this
    {
      (if handshake == null then {} else {handshake, handshake.symmetric, handshake.symmetric.cipher})
      + (if sendCipher == null then {} else {sendCipher})
      + (if recvCipher == null then {} else {recvCipher})
    }

    ghost predicate Valid()
      reads this
    {
      && (sendCipher != null && recvCipher != null ==> sendCipher != recvCipher)
      && (phase == Uninitialized || phase == Handshaking || handshake != null ==>
            sendCipher == null && recvCipher == null)
      && (phase == Established ==> handshake == null)
    }

    ghost function State(): Session
      reads this, Parts()
    {
      Session(identity, remotePeerId, role, phase,
              if handshake == null then None else Some(handshake.State()),
              if sendCipher == null then None else Some(sendCipher.State()),
              if recvCipher == null then None else Some(recvCipher.State()),
              remoteStatic, handshakeHash, remoteFingerprint)
    }

    /** The role is given, or determined from the two ids by the caller through `DetermineRole`. */
    constructor (identity: LocalIdentity, remotePeerId: string, role: Role)
      ensures Valid() && State() == NewSession(identity, remotePeerId, role) && Parts() == {}
    {
      this.identity, this.remotePeerId, this.role := identity, remotePeerId, role;
      phase, handshake, sendCipher, recvCipher := Uninitialized, null, null, null;
      remoteStatic, handshakeHash, remoteFingerprint := None, None, None;
    }

    method Start(s: Suite, ephemeral: Bytes) returns (r: Reply)
      requires Valid()
      modifies this
      ensures Valid() && fresh(Parts() - old(Parts()))
      ensures (State(), r) == StartHandshake(s, old(State()), ephemeral)
    {
      if phase != Uninitialized {
        return Failure(NoiseState);
      }
      if |identity.x25519Private| != KEY_SIZE {
        return Failure(InvalidKey);
      }
      handshake := new NoiseHandshakeState(s, role, identity.x25519Private);
      phase := Handshaking;
      if role == Initiator {
        var written := handshake.Write(s, [], ephemeral);
        return AsReply(written);
      }
      return Success(None);
    }

    method ProcessHandshakeMessage(s: Suite, message: Bytes, ephemeral: Bytes) returns (r: Reply)
      requires Valid()
      modifies this, Parts()
      ensures Valid() && fresh(Parts() - old(Parts()))
      ensures (State(), r) == Process(s, old(State()), message, ephemeral)
    {
      var begun := BeginResponder(s);
      if begun.Failure? {
        MarkFailed();
        return Failure(begun.error);
      }
      r := AdvanceMarking(s, message, ephemeral);
    }

    /** The handler around it. */
    method AdvanceMarking(s: Suite, message: Bytes, ephemeral: Bytes) returns (r: Reply)
      requires Valid()
      modifies this, Parts()
      ensures Valid() && fresh(Parts() - old(Parts()))
      ensures (State(), r) == AdvanceOrFail(s, old(State()), message, ephemeral)
    {
      r := AdvanceHandshake(s, message, ephemeral);
      if r.Failure? {
        MarkFailed();
      }
    }

    /** `self._state = NoiseSessionState.FAILED` */
    method MarkFailed()
      requires Valid()
      modifies this`phase
      ensures Valid() && Parts() == old(Parts())
      ensures State() == old(State()).(phase := Failed)
    {
      phase := Failed;
    }

    method BeginResponder(s: Suite) returns (r: Result<(), CryptoError>)
      requires Valid()
      modifies this
      ensures Valid() && fresh(Parts() - old(Parts()))
      ensures match BeginIfResponder(s, old(State()))
              case Success(x) => r.Success? && State() == x
              case Failure(e) => r == Failure(e) && State() == old(State())
    {
      if phase == Uninitialized && role == Responder {
        if |identity.x25519Private| != KEY_SIZE {
          return Failure(InvalidKey);
        }
        handshake := new NoiseHandshakeState(s, role, identity.x25519Private);
        phase := Handshaking;
      }
      return Success(());
    }

    method AdvanceHandshake(s: Suite, message: Bytes, ephemeral: Bytes) returns (r: Reply)
      requires Valid()
      modifies this, Parts()
      ensures Valid() && fresh(Parts() - old(Parts()))
      ensures (State(), r) == Advance(s, old(State()), message, ephemeral)
    {
      if phase != Handshaking {
        return Failure(NoiseState);
      }
      if handshake == null {
        return Failure(NoiseState);
      }
      var read := handshake.Read(s, message);
      if read.Failure? {
        return Failure(read.error);
      }
      r := RespondToMessage(s, ephemeral);
    }

    method RespondToMessage(s: Suite, ephemeral: Bytes) returns (r: Reply)
      requires Valid() && handshake != null
      modifies this, Parts()
      ensures Valid() && fresh(Parts() - old(Parts()))
      ensures (State(), r) == Respond(s, old(State()), ephemeral)
    {
      var response: Option<Bytes> := None;
      if !handshake.State().Complete() {
        var written := handshake.Write(s, [], ephemeral);
        if written.Failure? {
          return Failure(written.error);
        }
        response := Some(written.value);
      }
      r := ConcludeIfComplete(s, response);
    }

    method ConcludeIfComplete(s: Suite, response: Option<Bytes>) returns (r: Reply)
      requires Valid() && handshake != null
      modifies this
      ensures Valid() && fresh(Parts() - old(Parts()))
      ensures (State(), r) == Conclude(s, old(State()), response)
    {
      if handshake.State().Complete() {
        var done := FinaliseHandshake(s);
        if done.Failure? {
          return Failure(done.error);
        }
      }
      return Success(response);
    }

    method FinaliseHandshake(s: Suite) returns (r: Result<(), CryptoError>)
      requires Valid() && handshake != null && handshake.State().Complete()
      modifies this
      ensures Valid() && fresh(Parts() - old(Parts()))
      ensures (State(), r) == Finalise(s, old(State()))
    {
      var key := handshake.remoteStatic;
      if key.None? || !KeyBound(s, remotePeerId, key.value) || key.value == identity.x25519Public {
        phase, handshake := Failed, null;
        return Failure(Authentication);
      }
      var ciphers := handshake.GetTransportCiphers(s);
      remoteStatic := key;
      handshakeHash := Some(handshake.symmetric.hash);
      remoteFingerprint := Some(ToHex(s.sha256(key.value)));
      Establish(ciphers.value.0, ciphers.value.1);
      return Success(());
    }

    /** The last assignments of `_finalise_handshake`. */
    method Establish(send: NoiseCipherState, recv: NoiseCipherState)
      requires send != recv
      modifies this`sendCipher, this`recvCipher, this`handshake, this`phase
      ensures Valid() && Parts() == {send, recv}
      ensures State() == old(State()).(phase := Established, handshake := None,
                                       sendCipher := Some(send.State()), recvCipher := Some(recv.State()))
    {
      sendCipher, recvCipher, handshake, phase := send, recv, null, Established;
    }

    method Encrypt(s: Suite, plaintext: Bytes) returns (r: Result<Bytes, CryptoError>)
      requires Valid()
      modifies Parts()
      ensures Valid() && Parts() == old(Parts())
      ensures (State(), r) == SessionEncrypt(s, old(State()), plaintext)
    {
      if phase != Established {
        return Failure(NoiseState);
      }
      if sendCipher == null {
        return Failure(NoiseState);
      }
      r := sendCipher.Encrypt(s, plaintext, []);
    }

    method Decrypt(s: Suite, ciphertext: Bytes) returns (r: Result<Bytes, CryptoError>)
      requires Valid()
      modifies Parts()
      ensures Valid() && Parts() == old(Parts())
      ensures (State(), r) == SessionDecrypt(s, old(State()), ciphertext)
    {
      if phase != Established {
        return Failure(NoiseState);
      }
      if recvCipher == null {
        return Failure(NoiseState);
      }
      r := recvCipher.Decrypt(s, ciphertext, []);
    }

    method Close()
      requires Valid()
      modifies this
      ensures Valid() && Parts() == {}
      ensures State() == CloseSession(old(State()))
    {
      sendCipher, recvCipher, handshake, phase := null, null, null, Closed;
    }
  }
}
