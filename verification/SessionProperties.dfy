/** Sessions over whole runs: their life cycle, and two honest peers from first message to transport. */
module SessionProperties {
  import opened Wrappers
  import opened ByteStrings
  import opened Hex
  import opened CryptoSuite
  import opened CipherState
  import opened SymmetricState
  import opened Handshake
  import opened HandshakeAcceptance
  import opened HandshakeAgreement
  import opened HandshakeTranscript
  import opened Sessions
  import opened TransportChannel

  // ---- life cycle ----

  datatype Call =
    | StartCall(ephemeral: Bytes)
    | MessageCall(message: Bytes, ephemeral: Bytes)
    | EncryptCall(plaintext: Bytes)
    | DecryptCall(ciphertext: Bytes)
    | CloseCall

  function Apply(s: Suite, x: Session, call: Call): Session {
    match call
    case StartCall(ephemeral) => StartHandshake(s, x, ephemeral).0
    case MessageCall(message, ephemeral) => Process(s, x, message, ephemeral).0
    case EncryptCall(plaintext) => SessionEncrypt(s, x, plaintext).0
    case DecryptCall(ciphertext) => SessionDecrypt(s, x, ciphertext).0
    case CloseCall => CloseSession(x)
  }

  function ApplyAll(s: Suite, x: Session, calls: seq<Call>): Session
    decreases calls
  {
    if calls == [] then x else ApplyAll(s, Apply(s, x, calls[0]), calls[1..])
  }

  /** How far a session has come; no call leads back. */
  function Rank(phase: Phase): nat {
    match phase
    case Uninitialized => 0
    case Handshaking => 1
    case Established => 2
    case Failed => 3
    case Closed => 3
  }

  /** An established session has both transport ciphers and a remote key that is bound to the claimed peer id and is
      not the local one; a handshake is held while it goes on, and nothing before the start and after closing. */
  ghost predicate SessionInv(s: Suite, x: Session) {
    && (x.phase.Established? ==>
          && x.sendCipher.Some? && x.recvCipher.Some? && x.handshake.None?
          && x.sendCipher.value.key.Some? && x.sendCipher.value.transport
          && x.recvCipher.value.key.Some? && x.recvCipher.value.transport
          && x.handshakeHash.Some?
          && x.remoteStatic.Some? && KeyBound(s, x.remotePeerId, x.remoteStatic.value)
          && x.remoteStatic.value != x.identity.x25519Public
          && x.remoteFingerprint == Some(ToHex(s.sha256(x.remoteStatic.value))))
    && (x.phase.Uninitialized? || x.phase.Handshaking? || x.phase.Closed? ==> x.sendCipher.None? && x.recvCipher.None?)
    && (x.phase.Handshaking? ==> x.handshake.Some?)
    && (x.phase.Uninitialized? || x.phase.Closed? ==> x.handshake.None?)
  }

  lemma ConcludeKeepsInvariant(s: Suite, x: Session, response: Option<Bytes>)
    requires x.phase.Handshaking? && x.handshake.Some? && SessionInv(s, x)
    ensures SessionInv(s, Conclude(s, x, response).0) && Rank(Conclude(s, x, response).0.phase) >= 1
    ensures Conclude(s, x, response).0.remotePeerId == x.remotePeerId
    ensures Conclude(s, x, response).1.Failure? ==> Conclude(s, x, response).0.phase.Failed?
  {}

  lemma AdvanceKeepsInvariant(s: Suite, x: Session, message: Bytes, ephemeral: Bytes)
    requires x.phase.Handshaking? && SessionInv(s, x)
    ensures SessionInv(s, Advance(s, x, message, ephemeral).0) && Rank(Advance(s, x, message, ephemeral).0.phase) >= 1
    ensures Advance(s, x, message, ephemeral).0.remotePeerId == x.remotePeerId
    ensures Advance(s, x, message, ephemeral).1.Failure? ==> !Advance(s, x, message, ephemeral).0.phase.Established?
  {
    if x.handshake.Some? {
      var (h, read) := ReadMessage(s, x.handshake.value, message);
      var x1 := x.(handshake := Some(h));
      if read.Success? {
        if h.Complete() {
          ConcludeKeepsInvariant(s, x1, None);
        } else {
          var (h2, written) := WriteMessage(s, h, [], ephemeral);
          if written.Success? {
            ConcludeKeepsInvariant(s, x.(handshake := Some(h2)), Some(written.value));
          }
        }
      }
    }
  }

  lemma ProcessKeepsInvariant(s: Suite, x: Session, message: Bytes, ephemeral: Bytes)
    requires SessionInv(s, x)
    ensures SessionInv(s, Process(s, x, message, ephemeral).0)
    ensures Rank(Process(s, x, message, ephemeral).0.phase) >= Rank(x.phase)
    ensures Process(s, x, message, ephemeral).0.remotePeerId == x.remotePeerId
  {
    var begun := BeginIfResponder(s, x);
    if begun.Success? && begun.value.phase.Handshaking? {
      AdvanceKeepsInvariant(s, begun.value, message, ephemeral);
    }
  }

  lemma ApplyKeepsInvariant(s: Suite, x: Session, call: Call)
    requires SessionInv(s, x)
    ensures SessionInv(s, Apply(s, x, call))
    ensures Rank(Apply(s, x, call).phase) >= Rank(x.phase)
  {
    match call {
      case StartCall(ephemeral) =>
      case MessageCall(message, ephemeral) => ProcessKeepsInvariant(s, x, message, ephemeral);
      case EncryptCall(plaintext) =>
      case DecryptCall(ciphertext) =>
      case CloseCall =>
    }
  }

  lemma {:induction false} RunKeepsInvariant(s: Suite, x: Session, calls: seq<Call>)
    requires SessionInv(s, x)
    ensures SessionInv(s, ApplyAll(s, x, calls)) && Rank(ApplyAll(s, x, calls).phase) >= Rank(x.phase)
    decreases calls
  {
    if calls != [] {
      ApplyKeepsInvariant(s, x, calls[0]);
      RunKeepsInvariant(s, Apply(s, x, calls[0]), calls[1..]);
    }
  }

  lemma {:induction false} ApplyAllSplit(s: Suite, x: Session, first: seq<Call>, second: seq<Call>)
    ensures ApplyAll(s, x, first + second) == ApplyAll(s, ApplyAll(s, x, first), second)
    decreases first
  {
    if first == [] {
      assert first + second == second;
    } else {
      assert (first + second)[1..] == first[1..] + second;
      ApplyAllSplit(s, Apply(s, x, first[0]), first[1..], second);
    }
  }

  /** Over every sequence of calls: the invariant holds at the end, and if the session is established at two moments
      it is so at every moment between. So it is entered at most once, and never after a failure or a close. */
  lemma SessionLifecycle(s: Suite, identity: LocalIdentity, remotePeerId: string, role: Role,
                         first: seq<Call>, second: seq<Call>, third: seq<Call>)
    ensures var x0 := NewSession(identity, remotePeerId, role);
            var x1 := ApplyAll(s, x0, first);
            var x2 := ApplyAll(s, x0, first + second);
            var x3 := ApplyAll(s, x0, first + second + third);
            && SessionInv(s, x3)
            && (x1.phase.Established? && x3.phase.Established? ==> x2.phase.Established?)
            && (x1.phase.Failed? || x1.phase.Closed? ==> !x3.phase.Established?)
  {
    var x0 := NewSession(identity, remotePeerId, role);
    ApplyAllSplit(s, x0, first, second);
    ApplyAllSplit(s, x0, first + second, third);
    RunKeepsInvariant(s, x0, first);
    RunKeepsInvariant(s, ApplyAll(s, x0, first), second);
    RunKeepsInvariant(s, ApplyAll(s, x0, first + second), third);
  }

  /** A session becomes established only by a handshake message that completes a handshake, and then it holds a key that
      the claimed id is bound to. */
  lemma EstablishedByHandshakeOnly(s: Suite, x: Session, call: Call)
    requires SessionInv(s, x) && !x.phase.Established? && Apply(s, x, call).phase.Established?
    ensures call.MessageCall? && (x.phase.Handshaking? || (x.phase.Uninitialized? && x.role.Responder?))
    ensures KeyBound(s, x.remotePeerId, Apply(s, x, call).remoteStatic.value)
  {
    ApplyKeepsInvariant(s, x, call);
    match call {
      case StartCall(ephemeral) =>
      case MessageCall(message, ephemeral) => ProcessKeepsInvariant(s, x, message, ephemeral);
      case EncryptCall(plaintext) =>
      case DecryptCall(ciphertext) =>
      case CloseCall =>
    }
  }

  /** Encryption and decryption are refused outside the established phase, and leave the session as it was. */
  lemma TransportOnlyWhenEstablished(s: Suite, x: Session, data: Bytes)
    requires SessionInv(s, x) && !x.phase.Established?
    ensures SessionEncrypt(s, x, data) == (x, Failure(NoiseState))
    ensures SessionDecrypt(s, x, data) == (x, Failure(NoiseState))
  {}

  /** What fails a session: a call makes one that has not failed fail exactly if it is a handshake message that is
      answered with an error. */
  lemma FailsExactly(s: Suite, x: Session, call: Call)
    requires !x.phase.Failed?
    ensures Apply(s, x, call).phase.Failed? <==>
            call.MessageCall? && Process(s, x, call.message, call.ephemeral).1.Failure?
  {
    if call.MessageCall? {
      var begun := BeginIfResponder(s, x);
      if begun.Success? && begun.value.phase.Handshaking? && begun.value.handshake.Some? {
        AdvanceFailsOnlyWithError(s, begun.value, call.message, call.ephemeral);
      }
    }
  }

  lemma AdvanceFailsOnlyWithError(s: Suite, x: Session, message: Bytes, ephemeral: Bytes)
    requires x.phase.Handshaking? && x.handshake.Some?
    ensures Advance(s, x, message, ephemeral).1.Success? ==> !Advance(s, x, message, ephemeral).0.phase.Failed?
  {}

  /** Outside the handshake, and before it for a responder, no other call than a handshake message makes a session fail
      that has not failed, and every handshake message does, whatever is in it: an established or closed session fails
      with it. The class comment promises failure from the handshake only. */
  lemma StrayMessageFailsSession(s: Suite, x: Session, call: Call)
    requires !x.phase.Failed? && !x.phase.Handshaking? && !(x.phase.Uninitialized? && x.role.Responder?)
    ensures Apply(s, x, call).phase.Failed? <==> call.MessageCall?
    ensures call.MessageCall? ==>
            Process(s, x, call.message, call.ephemeral) == (x.(phase := Failed), Failure(NoiseState))
  {
    FailsExactly(s, x, call);
  }

  // ---- two honest peers ----

  /** The peer id of an identity binds its key. */
  lemma OwnIdBindsKey(s: Suite, priv: Bytes)
    requires s.Digests()
    ensures var id := IdentityOf(s, priv); |id.peerIdHex| == 16 && KeyBound(s, id.peerIdHex, id.x25519Public)
  {
    var digest := s.sha256(s.publicOf(priv));
    assert |digest| == KEY_SIZE;
    HexRoundTrip(Head8(digest));
  }

  /** The sessions of a handshake in which every message is delivered. */
  datatype Meeting = Meeting(
      a1: Session, b1: Session, a2: Session, b2: Session, r1: Reply, r2: Reply, r3: Reply, r4: Reply)

  function MessageOf(r: Reply): Bytes {
    if r.Success? && r.value.Some? then r.value.value else []
  }

  /** `a` starts; the messages go back and forth until nobody answers. */
  function Meet(s: Suite, a: Session, b: Session, ephA: Bytes, ephB: Bytes, unused: Bytes): Meeting {
    var (a1, r1) := StartHandshake(s, a, ephA);
    var (b1, r2) := Process(s, b, MessageOf(r1), ephB);
    var (a2, r3) := Process(s, a1, MessageOf(r2), unused);
    var (b2, r4) := Process(s, b1, MessageOf(r3), unused);
    Meeting(a1, b1, a2, b2, r1, r2, r3, r4)
  }

  /** Both ends established, with one transcript hash, each other's static key and crossed fresh ciphers. */
  ghost predicate Connected(s: Suite, idA: LocalIdentity, idB: LocalIdentity, a: Session, b: Session) {
    && a.phase.Established? && b.phase.Established?
    && a.handshakeHash.Some? && a.handshakeHash == b.handshakeHash
    && a.remoteStatic == Some(idB.x25519Public) && b.remoteStatic == Some(idA.x25519Public)
    && a.sendCipher.Some? && a.recvCipher.Some?
    && a.sendCipher == b.recvCipher && a.recvCipher == b.sendCipher
    && FreshTransport(a.sendCipher.value) && FreshTransport(a.recvCipher.value)
  }

  ghost predicate FreshTransport(c: Cipher) {
    c.key.Some? && |c.key.value| == KEY_SIZE && c == NewCipher(c.key, true)
  }

  lemma SplitIsFresh(s: Suite, y: Sym)
    requires s.Digests()
    ensures FreshTransport(Split(s, y).0) && FreshTransport(Split(s, y).1)
  {
    TwoBlocks(s, y.chainingKey, []);
  }

  /** The session took over what side `h` of the handshake ended with. */
  ghost predicate EstablishedWith(s: Suite, x: Session, h: Side) {
    && x.phase.Established? && x.handshakeHash == Some(h.sym.hash) && x.remoteStatic == h.remoteStatic
    && TransportCiphers(s, h).Success?
    && x.sendCipher == Some(TransportCiphers(s, h).value.0)
    && x.recvCipher == Some(TransportCiphers(s, h).value.1)
  }

  // ---- what each call answers ----

  /** A start is answered exactly before any other call: by the initiator with its ephemeral key, by the responder with
      nothing; a private key of the wrong size is an error, and errors change nothing. */
  lemma StartExactly(s: Suite, x: Session, ephemeral: Bytes)
    ensures var (x', r) := StartHandshake(s, x, ephemeral);
            var right := |x.identity.x25519Private| == 32;
            && (r == Failure(NoiseState) <==> x.phase != Uninitialized)
            && (r == Failure(InvalidKey) <==> x.phase == Uninitialized && !right)
            && (r == Success(None) <==> x.phase == Uninitialized && right && x.role == Responder)
            && (r == Success(Some(s.publicOf(ephemeral))) <==> x.phase == Uninitialized && right && x.role == Initiator)
            && (r.Failure? ==> x' == x)
            && (r.Success? ==> x'.handshake.Some? && x' == x.(phase := Handshaking, handshake := x'.handshake))
  {
    if x.phase == Uninitialized && x.role == Initiator {
      FirstComputes(s, x.identity.x25519Private, ephemeral, []);
      assert s.publicOf(ephemeral) + [] == s.publicOf(ephemeral);
    }
  }

  /** The key that a handshake ends with is the one that the claimed id is bound to, and another than the own. */
  predicate RightKey(s: Suite, x: Session, key: Option<Bytes>) {
    key.Some? && KeyBound(s, x.remotePeerId, key.value) && key.value != x.identity.x25519Public
  }

  lemma FinaliseExactly(s: Suite, x: Session)
    requires x.handshake.Some? && x.handshake.value.Complete()
    ensures var h, (x', r) := x.handshake.value, Finalise(s, x);
            if RightKey(s, x, h.remoteStatic)
            then
              && r == Success(()) && EstablishedWith(s, x', h) && x'.handshake == None
              && x'.remoteFingerprint == Some(ToHex(s.sha256(h.remoteStatic.value)))
            else r == Failure(Authentication) && x' == x.(phase := Failed, handshake := None)
  {}

  /** What becomes of a handshake once its last message is read or written. */
  ghost predicate Concluded(s: Suite, x: Session, h: Side, answer: Option<Bytes>, x': Session, r: Reply) {
    if h.pattern < 3 then r == Success(answer) && x' == x.(handshake := Some(h))
    else if RightKey(s, x, h.remoteStatic)
    then r == Success(answer) && EstablishedWith(s, x', h) && x'.handshake == None
    else r == Failure(Authentication) && x'.phase == Failed && x'.handshake == None
  }

  /** A message in a handshake: an error in reading it or in writing the answer fails the session with that error; else
      the answer goes out, unless the handshake is complete, and a complete one has to end with the right key. */
  lemma MessageExactly(s: Suite, x: Session, message: Bytes, ephemeral: Bytes)
    requires x.phase == Handshaking && x.handshake.Some?
    ensures var (x', r) := Process(s, x, message, ephemeral);
            var (h, read) := ReadMessage(s, x.handshake.value, message);
            if read.Failure? then r == Failure(read.error) && x' == x.(phase := Failed, handshake := Some(h))
            else if h.pattern >= 3 then Concluded(s, x, h, None, x', r)
            else
              var (g, written) := WriteMessage(s, h, [], ephemeral);
              if written.Failure? then r == Failure(written.error) && x' == x.(phase := Failed, handshake := Some(g))
              else Concluded(s, x, g, Some(written.value), x', r)
  {
    var (h, read) := ReadMessage(s, x.handshake.value, message);
    if read.Success? && h.Complete() {
      FinaliseExactly(s, x.(handshake := Some(h)));
    } else if read.Success? {
      var (g, written) := WriteMessage(s, h, [], ephemeral);
      if written.Success? && g.Complete() {
        FinaliseExactly(s, x.(handshake := Some(g)));
      }
    }
  }

  /** A responder's first message is taken up as by one that has started, and any other message outside a handshake
      fails the session with an error of state. */
  lemma OtherMessageExactly(s: Suite, x: Session, message: Bytes, ephemeral: Bytes)
    requires x.phase != Handshaking
    ensures var (x', r) := Process(s, x, message, ephemeral);
            if x.phase != Uninitialized
              || x.role == Initiator then r == Failure(NoiseState) && x' == x.(phase := Failed)
            else if |x.identity.x25519Private| != 32 then r == Failure(InvalidKey) && x' == x.(phase := Failed)
            else (x', r) == Process(s, StartHandshake(s, x, ephemeral).0, message, ephemeral)
  {}

  /** A handshake that ends with the key of the peer the session was opened for establishes it. */
  lemma FinaliseSucceeds(s: Suite, x: Session, privPeer: Bytes)
    requires s.Digests()
    requires x.handshake.Some? && x.handshake.value.Complete()
    requires x.handshake.value.remoteStatic == Some(s.publicOf(privPeer))
    requires x.remotePeerId == IdentityOf(s, privPeer).peerIdHex
    requires x.identity.x25519Public != s.publicOf(privPeer)
    ensures var (x', r) := Finalise(s, x); r == Success(()) && EstablishedWith(s, x', x.handshake.value)
  {
    OwnIdBindsKey(s, privPeer);
  }

  /** The responder's first message: read, answered, and the handshake goes on. */
  lemma ProcessFirst(s: Suite, b: Session, message: Bytes, ephemeral: Bytes, h1: Side, h2: Side, answer: Bytes)
    requires b.phase.Uninitialized? && b.role.Responder? && |b.identity.x25519Private| == KEY_SIZE
    requires ReadMessage(s, NewSide(s, Responder, b.identity.x25519Private), message) == (h1, Success([]))
    requires WriteMessage(s, h1, [], ephemeral) == (h2, Success(answer))
    requires h1.pattern == 1 && h2.pattern == 2
    ensures Process(s, b, message, ephemeral)
            == (b.(phase := Handshaking, handshake := Some(h2)), Success(Some(answer)))
  {}

  /** A message that completes the handshake once it is answered. */
  lemma ProcessAndAnswerLast(
      s: Suite, a: Session, message: Bytes, unused: Bytes, h1: Side, h2: Side, answer: Bytes, privPeer: Bytes)
    requires s.Digests() && a.phase.Handshaking? && a.handshake.Some?
    requires ReadMessage(s, a.handshake.value, message) == (h1, Success([]))
    requires WriteMessage(s, h1, [], unused) == (h2, Success(answer))
    requires h1.pattern == 2 && h2.Complete() && h2.remoteStatic == Some(s.publicOf(privPeer))
    requires a.remotePeerId == IdentityOf(s, privPeer).peerIdHex && a.identity.x25519Public != s.publicOf(privPeer)
    ensures var (a', r) := Process(s, a, message, unused); r == Success(Some(answer)) && EstablishedWith(s, a', h2)
  {
    FinaliseSucceeds(s, a.(handshake := Some(h2)), privPeer);
  }

  /** The last message. */
  lemma ProcessLast(s: Suite, b: Session, message: Bytes, unused: Bytes, h: Side, privPeer: Bytes)
    requires s.Digests() && b.phase.Handshaking? && b.handshake.Some?
    requires ReadMessage(s, b.handshake.value, message) == (h, Success([]))
    requires h.Complete() && h.remoteStatic == Some(s.publicOf(privPeer))
    requires b.remotePeerId == IdentityOf(s, privPeer).peerIdHex && b.identity.x25519Public != s.publicOf(privPeer)
    ensures var (b', r) := Process(s, b, message, unused); r == Success(None) && EstablishedWith(s, b', h)
  {
    FinaliseSucceeds(s, b.(handshake := Some(h)), privPeer);
  }

  ghost predicate Randomness(ephA: Bytes, ephB: Bytes, unused: Bytes) {
    |ephA| == KEY_SIZE && |ephB| == KEY_SIZE && |unused| == KEY_SIZE
  }

  /** What the four calls do, in terms of the sides of the handshake. */
  lemma MeetingFollowsExchange(s: Suite, privA: Bytes, privB: Bytes, ephA: Bytes, ephB: Bytes, unused: Bytes)
    requires s.Lawful() && |privA| == KEY_SIZE && |privB| == KEY_SIZE && Randomness(ephA, ephB, unused)
    requires IdentityOf(s, privA).peerIdHex != IdentityOf(s, privB).peerIdHex
    ensures var idA, idB := IdentityOf(s, privA), IdentityOf(s, privB);
            var x := HonestExchange(s, privA, privB, ephA, ephB, unused);
            var a0, b0 := NewSession(idA, idB.peerIdHex, Initiator), NewSession(idB, idA.peerIdHex, Responder);
            var m := Meet(s, a0, b0, ephA, ephB, unused);
            && m.r1 == Success(Some(x.m1)) && m.r2 == Success(Some(x.m2)) && m.r3 == Success(Some(x.m3))
            && m.r4 == Success(None)
            && EstablishedWith(s, m.a2, x.i3) && EstablishedWith(s, m.b2, x.r3)
  {
    var idA, idB := IdentityOf(s, privA), IdentityOf(s, privB);
    var x := HonestExchange(s, privA, privB, ephA, ephB, unused);
    XXAgreement(s, privA, privB, ephA, ephB, unused);
    var a0, b0 := NewSession(idA, idB.peerIdHex, Initiator), NewSession(idB, idA.peerIdHex, Responder);
    var m := Meet(s, a0, b0, ephA, ephB, unused);
    assert m.a1 == a0.(phase := Handshaking, handshake := Some(x.i1)) && m.r1 == Success(Some(x.m1));
    ProcessFirst(s, b0, x.m1, ephB, x.r1, x.r2, x.m2);
    ProcessAndAnswerLast(s, m.a1, x.m2, unused, x.i2, x.i3, x.m3, privB);
    ProcessLast(s, m.b1, x.m3, unused, x.r3, privA);
  }

  /** Handshake agreement: two honest peers whose messages are delivered end connected. */
  lemma HonestPeersConnect(s: Suite, privA: Bytes, privB: Bytes, ephA: Bytes, ephB: Bytes, unused: Bytes)
    requires s.Lawful() && |privA| == KEY_SIZE && |privB| == KEY_SIZE && Randomness(ephA, ephB, unused)
    requires IdentityOf(s, privA).peerIdHex != IdentityOf(s, privB).peerIdHex
    ensures var idA, idB := IdentityOf(s, privA), IdentityOf(s, privB);
            var a0, b0 := NewSession(idA, idB.peerIdHex, Initiator), NewSession(idB, idA.peerIdHex, Responder);
            var m := Meet(s, a0, b0, ephA, ephB, unused);
            Connected(s, idA, idB, m.a2, m.b2)
  {
    MeetingFollowsExchange(s, privA, privB, ephA, ephB, unused);
    XXAgreement(s, privA, privB, ephA, ephB, unused);
    var x := HonestExchange(s, privA, privB, ephA, ephB, unused);
    SplitIsFresh(s, x.i3.sym);
    SplitIsFresh(s, x.r3.sym);
  }

  /** What they compute: the three messages on the way, the hash and the keys at both ends are those of XX, written
      out. */
  lemma ConnectedByXX(s: Suite, privA: Bytes, privB: Bytes, ephA: Bytes, ephB: Bytes, unused: Bytes)
    requires s.Lawful() && |privA| == KEY_SIZE && |privB| == KEY_SIZE && Randomness(ephA, ephB, unused)
    requires IdentityOf(s, privA).peerIdHex != IdentityOf(s, privB).peerIdHex
    ensures var idA, idB := IdentityOf(s, privA), IdentityOf(s, privB);
            var a0, b0 := NewSession(idA, idB.peerIdHex, Initiator), NewSession(idB, idA.peerIdHex, Responder);
            var m, y := Meet(s, a0, b0, ephA, ephB, unused), XX(s, privA, privB, ephA, ephB, [], [], []);
            && MessageOf(m.r1) == y.first && MessageOf(m.r2) == y.second && MessageOf(m.r3) == y.third
            && m.a2.handshakeHash == m.b2.handshakeHash == Some(y.hash)
            && m.a2.sendCipher == m.b2.recvCipher == Some(FreshCipher(y.initiatorKey))
            && m.a2.recvCipher == m.b2.sendCipher == Some(FreshCipher(y.responderKey))
  {
    MeetingFollowsExchange(s, privA, privB, ephA, ephB, unused);
    XXComputes(s, privA, privB, ephA, ephB, unused);
  }

  /** The responder is established even if the last message of the initiator arrives without its last 16 bytes: the id
      is bound to the key it holds, but nothing has shown that the other side can combine that key. */
  lemma CutMessageEstablishes(s: Suite, privA: Bytes, privB: Bytes, ephA: Bytes, ephB: Bytes, unused: Bytes)
    requires s.Lawful() && |privA| == KEY_SIZE && |privB| == KEY_SIZE && Randomness(ephA, ephB, unused)
    requires IdentityOf(s, privA).peerIdHex != IdentityOf(s, privB).peerIdHex
    ensures var idA, idB := IdentityOf(s, privA), IdentityOf(s, privB);
            var m := Meet(s, NewSession(idA, idB.peerIdHex, Initiator), NewSession(idB, idA.peerIdHex, Responder),
                          ephA, ephB, unused);
            && |MessageOf(m.r3)| == 64
            && Process(s, m.b1, MessageOf(m.r3)[..48], unused).1 == Success(None)
            && Process(s, m.b1, MessageOf(m.r3)[..48], unused).0.phase.Established?
  {
    var idA, idB := IdentityOf(s, privA), IdentityOf(s, privB);
    var x := HonestExchange(s, privA, privB, ephA, ephB, unused);
    XXAgreement(s, privA, privB, ephA, ephB, unused);
    MeetingFollowsExchange(s, privA, privB, ephA, ephB, unused);
    CutLastMessage(s, privA, privB, ephA, ephB, unused);
    var b0 := NewSession(idB, idA.peerIdHex, Responder);
    ProcessFirst(s, b0, x.m1, ephB, x.r1, x.r2, x.m2);
    var b1 := b0.(phase := Handshaking, handshake := Some(x.r2));
    ProcessLast(s, b1, x.m3[..48], unused, ReadMessage(s, x.r2, x.m3[..48]).0, privA);
  }

  /** Whatever the two keys, as long as the ids differ the roles the peers determine are opposite, and the peer that
      takes the initiator's role brings both to a connection. */
  lemma RolesFitTogether(s: Suite, privA: Bytes, privB: Bytes, ephA: Bytes, ephB: Bytes, unused: Bytes)
    requires s.Lawful() && |privA| == KEY_SIZE && |privB| == KEY_SIZE && Randomness(ephA, ephB, unused)
    requires IdentityOf(s, privA).peerIdHex != IdentityOf(s, privB).peerIdHex
    ensures var idA, idB := IdentityOf(s, privA), IdentityOf(s, privB);
            var ra, rb := DetermineRole(idA.peerIdHex, idB.peerIdHex), DetermineRole(idB.peerIdHex, idA.peerIdHex);
            && ra.Success? && rb.Success?
            && var a0, b0 := NewSession(idA, idB.peerIdHex, ra.value), NewSession(idB, idA.peerIdHex, rb.value);
               if ra.value == Initiator
               then var m := Meet(s, a0, b0, ephA, ephB, unused); Connected(s, idA, idB, m.a2, m.b2)
               else var m := Meet(s, b0, a0, ephA, ephB, unused); Connected(s, idB, idA, m.a2, m.b2)
  {
    OwnIdBindsKey(s, privA);
    OwnIdBindsKey(s, privB);
    OppositeRoles(IdentityOf(s, privA).peerIdHex, IdentityOf(s, privB).peerIdHex);
    HonestPeersConnect(s, privA, privB, ephA, ephB, unused);
    HonestPeersConnect(s, privB, privA, ephA, ephB, unused);
  }

  // ---- transport between connected sessions ----

  function SendAll(s: Suite, x: Session, plaintexts: seq<Bytes>): seq<Result<Bytes, CryptoError>>
    decreases plaintexts
  {
    if plaintexts == [] then []
    else
      var (x', r) := SessionEncrypt(s, x, plaintexts[0]);
      [r] + SendAll(s, x', plaintexts[1..])
  }

  function ReceiveAll(s: Suite, x: Session, wires: seq<Bytes>): seq<Result<Bytes, CryptoError>>
    decreases wires
  {
    if wires == [] then []
    else
      var (x', r) := SessionDecrypt(s, x, wires[0]);
      [r] + ReceiveAll(s, x', wires[1..])
  }

  lemma {:induction false} SendAllIsEncryptRun(s: Suite, x: Session, plaintexts: seq<Bytes>)
    requires x.phase.Established? && x.sendCipher.Some?
    ensures SendAll(s, x, plaintexts) == EncryptRun(s, x.sendCipher.value, plaintexts, []).1
    decreases plaintexts
  {
    if plaintexts != [] {
      SendAllIsEncryptRun(s, SessionEncrypt(s, x, plaintexts[0]).0, plaintexts[1..]);
    }
  }

  function Bare(deliveries: seq<Delivery>): seq<Bytes> {
    seq(|deliveries|, t requires 0 <= t < |deliveries| => deliveries[t].ciphertext)
  }

  lemma {:induction false} ReceiveAllIsDecryptRun(s: Suite, x: Session, deliveries: seq<Delivery>)
    requires x.phase.Established? && x.recvCipher.Some?
    requires forall t :: 0 <= t < |deliveries| ==> deliveries[t].aad == []
    ensures ReceiveAll(s, x, Bare(deliveries)) == DecryptRun(s, x.recvCipher.value, deliveries).1
    decreases deliveries
  {
    if deliveries != [] {
      assert Bare(deliveries)[1..] == Bare(deliveries[1..]);
      ReceiveAllIsDecryptRun(s, SessionDecrypt(s, x, deliveries[0].ciphertext).0, deliveries[1..]);
    }
  }

  /** From handshake to transport: between connected sessions, the first 2^32 messages of one end reach the other
      through any schedule of losses, repeats and reordering as the transport channel promises. */
  lemma ConnectedSessionsDeliver(s: Suite, idA: LocalIdentity, idB: LocalIdentity, a: Session, b: Session,
                                 plaintexts: seq<Bytes>, schedule: seq<nat>)
    requires s.Aead() && Connected(s, idA, idB, a, b)
    requires |plaintexts| <= 0x1_0000_0000 && Numbers(schedule, |plaintexts|)
    ensures var key := a.sendCipher.value.key.value;
            && SentFrom(s, key, 0, plaintexts, [], SendAll(s, a, plaintexts))
            && AsExpected(plaintexts, [], schedule,
                          ReceiveAll(s, b, Bare(Deliveries(s, key, plaintexts, [], schedule))))
  {
    var key := a.sendCipher.value.key.value;
    var deliveries := Deliveries(s, key, plaintexts, [], schedule);
    SendAllIsEncryptRun(s, a, plaintexts);
    ReceiveAllIsDecryptRun(s, b, deliveries);
    ChannelDelivers(s, key, plaintexts, [], schedule);
  }
}
