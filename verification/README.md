# BitChat: wire, mesh and session core, in Dafny

This project models the parts of BitChat that move and protect packets, and proves what they promise over every
input, every run and every interleaving of the operations modelled.

| part | modules |
|---|---|
| Packet codec | `Packets`, `Encoder`, `Decoder` |
| Fragments | `Fragmentation`, `Reassembly`, `ReassemblyProperties` |
| BLE carrier, end to end | `BleTransport`, `EndToEnd`, `SmallPackets` |
| TCP carrier | `Framing`, `LanStream` |
| Noise | `CryptoSuite`, `CipherState`, `TransportChannel`, `SymmetricState`, `Handshake`, `HandshakeAgreement`, `HandshakeAcceptance`, `HandshakeTranscript` |
| Sessions | `Sessions`, `SessionProperties` |
| Mesh | `Dedup`, `DedupProperties`, `RateLimiter`, `MeshRouting`, `RouterDecisions`, `Flood`, `FloodCoverage`, `FloodTermination`, `FloodRange`, `FloodExamples`, `Unicast`, `UnicastDelivery`, `ReturnPath` |
| Store and forward | `StoreForward`, `StoreForwardProperties`, `StoreForwardRuns`, `StoreForwardLoss`, `StoreForwardExamples` |
| LAN connections and discovery | `LanTransport`, `LanCrossing`, `LanAgreement`, `LanExamples`, `Discovery` |
| PNG icons | `Png` |
| Common ground | `Wrappers`, `Lists`, `ByteStrings`, `OrderedDicts`, `Hex` |

`dafny verify dfyconfig.toml` checks everything.

## How it is built

An object that BitChat changes in place is a class with the same fields, and its loops are loops. What an operation
does is said once, as a function on values (`Insert`, `Extract`, `Evaluate`, `Enqueue`, ...), and every method ensures
that its new state and its result are those of that function. What such a function computes is said once more by lemmas
that write the answer out, constants included, without its helpers (`PaddedWireExactly`, `SameIdExactly`, `KeptMeans`,
`TalkComputes`, `PeerKeyExactly`, ...). The properties are lemmas about these functions and about runs of them. Where the
source hands objects around (a deque that may have left its table, a discovery record that is re-keyed, a connection held by
three tables) the class does the same with references.

The clock is a parameter. Lemmas that need a clock that does not run back say so. Random padding, fragment ids and
ephemeral keys are parameters too. Hash, DH, HMAC and AEAD are the fields of a record; all that is assumed of them is that
honestly made public keys are valid and exchange to a common secret from both sides, that opening undoes sealing, and the
lengths of digests and ciphertexts (`LawsAreConsistent` shows that these assumptions can be met). zlib is a pair of
functions of which only `decompress(compress(s)) == s` is assumed, and the checksum is any function.

## Main results

* **End to end** (`EndToEndDelivery`, `SmallPacketDelivery`): encode, fragment, encode each fragment, deliver in any order
  with repeats and foreign traffic in between, decode, reassemble, decode: exactly the packet comes out, exactly once.
* **Codec** (`DecodeExact`, `RefusedExactly`, `PaddedWireExactly`): the decoder accepts exactly the wire forms and reports
  exactly the first thing wrong with any others; the size and the last byte of every padded encoding.
* **Framing** (`ChunkingIndependent`, `StreamRoundTrip`): how TCP cuts the stream makes no difference.
* **Noise** (`XXAgreement`, `HonestPeersConnect`): both sides of XX move in lockstep through every token and end with one
  hash, each other's static key and crossed ciphers. `TalkComputes`, `TalkKeysTransport`, `ConnectedByXX`: what they compute, byte
  for byte, from the private keys: messages, hash and transport keys. `WindowRefinesHistory` and `ChannelDelivers`: the 1024-entry replay
  window answers as unbounded memory would, and a message gets through once.
* **Mesh** (`CoversExactly`, `FloodReachesAll`, `EveryRunEnds`, `ArrivalsBounded`, `FloodStaysInRange`): a broadcast reaches
  every node of a connected mesh exactly once in every asynchronous run, among any other traffic; exactly what that takes of
  the duplicate caches; every flood ends, and no copy travels too far. `DetourSpendsTheHops`: the bound on the number of nodes
  is needed for every ttl. `HopCountsNeverTooSmall`: what any number of broadcasts teach the routers. `DedupRetention` and
  `RateLimitHolds` relate the bounded caches to the full history; `PruneExactAfterEveryRun` shows that the early stop of
  pruning loses nothing.
* **Packets for one node** (`OnlyTheRecipient`, `LetterArrives`, `AnswerArrives`): in every run, whatever else goes on, such a
  packet is processed by its recipient and nobody else; where next hops lead to the recipient it arrives; and a broadcast that
  has reached everybody leaves next hops by which every node's answer finds its way back. `KeptMeans`, `ReasonsExactly`: what a
  router decides, and why. `DifferentIsNoDuplicate`, `DuplicateOnlyIfHeard`: what counts as a duplicate.
* **Store and forward** (`EveryPacketAccountedFor`, `CapsHold`, `FirstInFirstOut`, `LostExactly`): conservation, caps and
  order over every run, and the exact condition under which a packet is accepted and lost.
* **LAN** (`DroppedExactly`, `NeverDropsBoth`, `EndsAgree`): of two crossed connections, over every interleaving of both ends,
  with packets of any sender and calls of `connect_peer` at any time, exactly when one is closed, and that both ends come to
  rest with the same ones. `InTheTableExactly`: exactly when an end has a connection in its tables. `NotifiedExactly`,
  `OthersKept`, `HeardExactly`: one discovery record per peer id, and what it says. `PeerKeyExactly`, `OtherPeersSpared`: whom a
  connection belongs to, and that accepting it costs no other peer its own.
* **PNG** (`DecodeInvertsFiltering`): the in-place loops undo every choice of the filters of section 6 of RFC 2083.

## Where code and documentation disagree

The model follows the code.

* The class comment of `NoiseSession` (src/bitchat/crypto/sessions.py:43-60) has failure only out of the handshake. A
  handshake message also fails an established or closed session, and outside the handshake no other call fails one
  (`StrayMessageFailsSession`).
* `feed` drops the frames it has already cut in a call that then meets a bad header (`FramesLostByFailingFeed`, `FrameLost`).
* src/bitchat/crypto/hkdf.py says its chain is not standard HKDF; it is HKDF of RFC 5869 with empty info
  (`HkdfIsRfc5869`).
* A valid packet can encode to 65629 bytes, a LAN frame holds 65536 (`SendableExactly` gives the exact bound).
* The sender would mark a fragment that is alone as a start, and the reassembler refuses it, since it would have to be an end as
  well (src/bitchat/protocol/reassembly.py:91-102, `AddPacketExactly`). No packet is cut into fewer than 4 fragments, so this
  never comes up (`OneWireExactly`).
* A small packet whose own type is a fragment type goes to the reassembler instead of being dispatched. It is dispatched
  over BLE exactly if it completes an assembly that makes up its own wire form (`SmallPacketDelivery`; one is in
  `FragmentTypeDispatched`).
* The packet identity does not separate recipient and payload (`SameIdentityExactly`).
* Only the low 32 bits of the counter travel (`WireCounterExact`).
* `enqueue` may put a packet into a deque that eviction has just taken out of the table
  (src/bitchat/mesh/store_forward.py:91, 119, 139-140). The packet is gone, but the counters keep it (`LostExactly`,
  `CountersExactIffNothingLost`), and once the lost ones leave no room the eviction loops do not end any more
  (`EndsExactlyIfLostLeaveRoom`, `StuckAfterLoss`). The default caps allow such a loss (`DefaultLoss`). While nothing
  has been lost, the check after the evictions (lines 111-112) never fails (`AnswersExactly`).
* Two crossed LAN connections are not always reduced to one: if both ends accept before their own connection is up and then
  hear only over the one they accepted, both stay (`BothMayStay`; `DroppedExactly` is the exact condition).
* A LAN connection that both ends keep may be in the tables of one end only. While the end's other connection is being closed,
  by this end or by the other, `connect_peer` for the address of that one uses the kept one again
  (src/bitchat/network/transport.py:520-533), and the close callback, which comes later (connection.py:194-222), takes out of
  all tables whatever is at the address (transport.py:263-270): the connection in use (`KeptConnectionForgotten`,
  `ForgottenWhileEnding`, `LowerEndForgets`). And `connect_peer` for an address whose connection is still being opened puts an
  accepted connection in its place (`OwnConnectionForgotten`). `InTheTableExactly` is the exact condition.
* `_handle_packet_received` takes the sender of a packet for the peer at the other end, but relayed packets keep their sender.
  A packet that was passed on can make both ends drop different connections, so that none is left (`BothDropped`;
  `NeverDropsBoth` is the exact condition), or drop a connection to another peer (`NeighbourDropped`).
* `decrypt_and_hash` takes an empty ciphertext for an empty payload, though its comment says that it fails closed. A last
  handshake message without its last 16 bytes is accepted (`PayloadAcceptedExactly`, `MessageAcceptedExactly`, `CutLastMessage`,
  `CutMessageEstablishes`), so the key of an established session is bound to the claimed id but need not be authenticated.
* Hop counts are reckoned as if every packet set out with a ttl of 7. The default relay ceiling is 10, so a packet that sets
  out with more teaches hop counts that are too small (`HopCountExactly`).
* A broadcast with hops enough for the farthest node can still miss it, since the copy that comes first need not be the one
  with the most hops left (`DetourSpendsTheHops`).
* The rate limiter lets the first call of a quiet sender through even under a limit of 0 (`AskRefinesHistory` states the
  bound in force).
* With no room for a single assembly, `popitem` on the empty table raises a KeyError; this is the `NothingToEvict` failure
  (`NothingToEvictExactly`).

## Model

| member | source | states |
|---|---|---|
| Packets.TypeOfCode | src/bitchat/protocol/constants.py:54-78 | A byte names at most one message type, and a type is named by its own byte |
| Packets.CreateComputesConsistentFlags | src/bitchat/protocol/packet.py:199-234 | The factory fails exactly on a field out of range, never on its own flags, and the flags it computes say what the packet carries |
| Packets.FlagsExactly | src/bitchat/protocol/packet.py:170-189 | The lowest three bits of the flags say in this order: recipient, signature, compressed; the others make no difference |
| Encoder.OptimalBlockIsSmallest | src/bitchat/protocol/encoder.py:17-27 | The chosen block is the smallest listed one with room for the overhead, if any has |
| Encoder.FillsExactly | src/bitchat/protocol/encoder.py:17-54 | The sizes that fill a block: 1 to 240, 257 to 496, 769 to 1008 and 1793 to 2032, and no others, since a block leaves room for 16 bytes and 255 is the most that is added |
| Encoder.NeededExactly | src/bitchat/protocol/encoder.py:30-54 | Padding is added if and only if a block can be filled so, and then it fills it |
| Encoder.PaddedExactly | src/bitchat/protocol/encoder.py:30-54 | Padded data is the data, the noise and a last byte that counts both, and has the size of the block that it fills; data that fills none is left as it is |
| Encoder.EncodePacket | src/bitchat/protocol/encoder.py:57-115 | The joined list of parts, padded on request, is the wire form of the packet; PaddedWireExactly gives its size and its count byte |
| Decoder.EncodedLayout | src/bitchat/protocol/encoder.py:79-115 | Where every field of an unpadded encoding lies |
| Decoder.FieldsEncodeBack | src/bitchat/protocol/decoder.py:98-163 | Cutting the fields out of a buffer and writing them down again gives back the buffer |
| Decoder.DecodeExact | src/bitchat/protocol/decoder.py:54-190 | The decoder accepts a buffer if and only if it is an unpadded encoding of a valid version-1 packet followed by 0 to 255 bytes the last of which counts them, and returns that packet |
| Decoder.RefusedExactly | src/bitchat/protocol/decoder.py:54-190 | Each error exactly: fewer than 22 bytes; a version other than 1; an unknown type; fewer bytes than the header announces, counted out from its flags and length; more, unless the last byte counts them |
| Decoder.FinalValidationNeverFails | src/bitchat/protocol/decoder.py:164-190 | The branch that rejects the decoded fields is unreachable |
| Decoder.DecodeEncode | src/bitchat/protocol/decoder.py:54-190 | Decoding an encoding gives back the very packet, reserved flag bits included, for every choice of padding bytes, if and only if its version is 1 |
| Decoder.WireFormsAreUnambiguous | src/bitchat/protocol/encoder.py:57-115 | Two different packets have no wire form in common, whatever the padding |
| Decoder.EncodedWireSize | src/bitchat/protocol/encoder.py:17-54 | An encoding has at most 65629 bytes, and fills a listed block whenever it is padded at all |
| Decoder.PaddedWireExactly | src/bitchat/protocol/encoder.py:17-115 | With padding, an encoding of s bytes has the size b and ends in b - s if b is the smallest of 256, 512, 1024 and 2048 with s + 16 <= b and b - s <= 255, and has s bytes if there is none such |
| Fragmentation.ChunksJoin | src/bitchat/protocol/fragmentation.py:47-71 | The chunks, joined, are the data |
| Fragmentation.ChunkSizes | src/bitchat/protocol/fragmentation.py:47-71 | All chunks but the last have the chunk size, and the last is not empty |
| Fragmentation.ChunkCount | src/bitchat/protocol/fragmentation.py:47-71 | The number of chunks is the length divided by the chunk size, rounded up |
| Fragmentation.FragmentLayout | src/bitchat/protocol/fragmentation.py:74-117 | Eight bytes of id, two of index and two of total with the higher byte first, one of type, and the chunk |
| Fragmentation.FragmentTypeExactly | src/bitchat/protocol/fragmentation.py:185-191 | The first fragment is a start, the last of several an end, and any other a continuation |
| Fragmentation.FragmentPayloadRoundTrip | src/bitchat/protocol/fragmentation.py:74-149 | Creating and parsing fragment payloads are inverse to each other, failures included |
| Fragmentation.FragmentEncodedPacket | src/bitchat/protocol/fragmentation.py:152-206 | The loop yields the fragments: none for data that fits one wire, an error for a sender id of the wrong size, one packet for each chunk in order otherwise |
| Fragmentation.FragmentedExactly | src/bitchat/protocol/fragmentation.py:152-206 | Up to 500 bytes give no fragments; beyond, the errors exactly: sender id, then fragment id, then more than 150000 bytes; else one fragment for each 150 bytes begun |
| Fragmentation.SplitRefusedExactly | src/bitchat/protocol/fragmentation.py:47-71 | Refused are chunk sizes below 1 and data for more than 1000 chunks, and nothing else |
| Fragmentation.CreateRefusedExactly | src/bitchat/protocol/fragmentation.py:74-117 | A payload is made if and only if the id has 8 bytes, the total is 1 to 1000, the index below it and the type one byte; which error otherwise |
| Fragmentation.ParseRefusedExactly | src/bitchat/protocol/fragmentation.py:120-149 | A payload is read if and only if it has 13 bytes and its index is below its total, which is at most 1000; which error otherwise; and the fields read |
| Fragmentation.FragmentsWithinLimits | src/bitchat/protocol/fragmentation.py:152-206 | Every valid packet that is fragmented gives 4 to 438 fragments, each a valid packet with a wire of at most 185 bytes, so none is fragmented again and no limit of the reassembler is met |
| Fragmentation.FragmentOnTheWire | src/bitchat/ble/transport.py:205-223 | The wire of a fragment, encoded without padding as the carrier does, decodes to a packet whose payload names its place and carries its chunk |
| Reassembly.AssemblyState.constructor | src/bitchat/protocol/reassembly.py:24-31 | A new assembly is empty |
| Reassembly.JoinChunks | src/bitchat/protocol/reassembly.py:203-208 | The loop joins the chunks in order, or finds one missing |
| Reassembly.FragmentReassembler.constructor | src/bitchat/protocol/reassembly.py:37-48 | The table starts empty |
| Reassembly.FragmentReassembler.Clear | src/bitchat/protocol/reassembly.py:55-57 | The table is emptied |
| Reassembly.FragmentReassembler.InsertChunk | src/bitchat/protocol/reassembly.py:134-212 | Whatever the fragment, the table ends as in `Insert`: refused out of range, else filed under its key, which becomes the latest, and the message handed back with its last chunk |
| Reassembly.FragmentReassembler.ExtendAssembly | src/bitchat/protocol/reassembly.py:155-180 | A key in the table becomes the latest; a fragment that contradicts what is held discards the assembly, a repeat changes nothing, a new chunk is stored |
| Reassembly.FragmentReassembler.StartAssembly | src/bitchat/protocol/reassembly.py:181-192 | A new key gets a new assembly, at the cost of the least recently touched one if the table is full, and its first chunk |
| Reassembly.FragmentReassembler.OpenAssembly | src/bitchat/protocol/reassembly.py:181-192 | A new assembly goes in, in place of the least recently touched one of a full table |
| Reassembly.FragmentReassembler.EvictIfFull | src/bitchat/protocol/reassembly.py:183-184 | A full table loses its least recently touched assembly, and nothing else |
| Reassembly.FragmentReassembler.Register | src/bitchat/protocol/reassembly.py:185-192 | The new assembly is the last of the table |
| Reassembly.FragmentReassembler.Enter | src/bitchat/protocol/reassembly.py:192 | Table and value of the table take up the assembly together |
| Reassembly.FragmentReassembler.StoreChunk | src/bitchat/protocol/reassembly.py:194-212 | The chunk is stored, refused, or completes the assembly |
| Reassembly.FragmentReassembler.AddToState | src/bitchat/protocol/reassembly.py:199-201 | Chunk and byte count are updated in place |
| Reassembly.FragmentReassembler.TakeIfComplete | src/bitchat/protocol/reassembly.py:203-212 | A complete assembly leaves the table |
| Reassembly.FragmentReassembler.Discard | src/bitchat/protocol/reassembly.py:155-197 | The assembly is taken out of the table |
| Reassembly.FragmentReassembler.AddFragmentPacket | src/bitchat/protocol/reassembly.py:71-118 | A fragment reaches the table only if its packet type agrees with its place |
| Reassembly.FragmentReassembler.PruneStale | src/bitchat/protocol/reassembly.py:59-69 | The table without its stale assemblies, and their number |
| Reassembly.FragmentReassembler.CollectStale | src/bitchat/protocol/reassembly.py:62-66 | The keys of the stale assemblies, in order |
| ReassemblyProperties.MissingIndexUnreachable | src/bitchat/protocol/reassembly.py:203-207 | With as many chunks as the total, none is missing: the check for a missing index never finds one |
| ReassemblyProperties.InsertKeepsInvariant | src/bitchat/protocol/reassembly.py:134-212 | Whatever the input, stored byte counts are the sums of the chunk lengths and within the limit, indices are in range, and the table is within its bound |
| ReassemblyProperties.InsertProvenance | src/bitchat/protocol/reassembly.py:134-212 | One call returns only chunks received for the assembly it names |
| ReassemblyProperties.InsertRefusedExactly | src/bitchat/protocol/reassembly.py:134-212 | Each error exactly: out of range or against what is held; no assembly allowed; too many fragments or bytes. A fragment that contradicts its assembly or is too much for it costs the assembly, any other refused one changes nothing |
| ReassemblyProperties.InsertHolds | src/bitchat/protocol/reassembly.py:155-212 | What is held after a fragment was taken: what was held before and its chunk, from the time of the first; nothing once the message was handed back |
| ReassemblyProperties.AddPacketExactly | src/bitchat/protocol/reassembly.py:71-118 | Of the fragments that parse, exactly those reach the table whose type is the one their place has at the sender, and none that is alone |
| ReassemblyProperties.RunKeepsInvariant | src/bitchat/protocol/reassembly.py:55-212 | The same invariant over every run of fragments, pruning and clearing, and every chunk held has come in since the table was last cleared |
| ReassemblyProperties.ReassemblySound | src/bitchat/protocol/reassembly.py:55-212 | After every run of fragments, pruning and clearing, any bytes returned are the in-order concatenation of chunks received since the last clearing under the same sender, fragment id, total and type |
| ReassemblyProperties.NothingToEvictExactly | src/bitchat/protocol/reassembly.py:134-184 | After every run, the KeyError of popping from the empty table comes up if and only if no assembly is allowed at all |
| ReassemblyProperties.PruneRemovesExactlyStale | src/bitchat/protocol/reassembly.py:59-69 | Pruning removes exactly the assemblies older than the limit and leaves the others as they were |
| ReassemblyProperties.InsertIsolated | src/bitchat/protocol/reassembly.py:155-212 | An input for one key leaves every other assembly unchanged, but for the eviction of the least recently touched one from a full table |
| ReassemblyProperties.LruSurvival | src/bitchat/protocol/reassembly.py:55-192 | An assembly that no call prunes or clears survives unchanged while fewer than the maximum of other keys have been touched since it was |
| BleTransport.BLETransport.constructor | src/bitchat/ble/transport.py:41-69 | No assemblies, empty queue |
| BleTransport.BLETransport.HandleIncomingNotification | src/bitchat/ble/transport.py:75-83 | A full queue drops the bytes, otherwise they are queued last |
| BleTransport.BLETransport.ReceiveNext | src/bitchat/ble/transport.py:85-104 | The first bytes of the queue are processed |
| BleTransport.BLETransport.ProcessRawBytes | src/bitchat/ble/transport.py:106-144 | Bytes that do not decode change nothing; a fragment goes to the reassembler and what it completes is decoded and dispatched; any other packet is dispatched |
| BleTransport.BLETransport.SendPacket | src/bitchat/ble/transport.py:190-223 | One wire for a packet of up to 500 bytes, else one for each fragment in order |
| BleTransport.OneWireExactly | src/bitchat/ble/transport.py:190-223 | A packet goes out as one wire, as it is, if and only if its encoding has at most 500 bytes; otherwise as 4 to 438 |
| BleTransport.EncodeFragments | src/bitchat/ble/transport.py:205-223 | The loop encodes the fragments in order without padding |
| EndToEnd.ReceiveOurs | src/bitchat/ble/transport.py:106-144 | What one wire of a message does to a receiver that holds some of its chunks |
| EndToEnd.ReceiveOther | src/bitchat/ble/transport.py:106-144 | Any other bytes leave the chunks held of the message alone, as long as they cannot fill the table |
| EndToEnd.DeliverFrom | src/bitchat/ble/transport.py:106-144 | From a receiver that holds some chunks, exactly one dispatch is due as long as not all have arrived |
| EndToEnd.EndToEndDelivery | src/bitchat/ble/transport.py:106-223 | For every valid version-1 packet too large for one wire, every padding and every order of arrival of its wires, with repeats, and other traffic in between that touches fewer assemblies than the table holds, exactly the packet is dispatched, once, from 4 to 438 wires |
| SmallPackets.InsertCompletes | src/bitchat/protocol/reassembly.py:155-212 | Bytes are handed back if and only if the chunk is the only one missing of an assembly held, and they are its chunks joined |
| SmallPackets.SmallPacketDelivery | src/bitchat/ble/transport.py:106-223 | A packet that fits one wire is dispatched at once, and only it, whatever the table holds, if its type is not a fragment type; otherwise if and only if it completes an assembly held whose chunks, joined, are its own wire form |
| SmallPackets.FragmentTypeDispatched | src/bitchat/ble/transport.py:106-144 | An input for the second case: a packet of a fragment type that is dispatched, after one fragment that carries all but the last byte of its wire |
| Framing.StreamFramer.constructor | src/bitchat/network/framing.py:37-39 | The buffer starts empty |
| Framing.StreamFramer.Feed | src/bitchat/network/framing.py:45-76 | Returns the frames cut from buffer and chunk and keeps the rest, or raises and has lost the frames cut in this call |
| Framing.StreamFramer.Clear | src/bitchat/network/framing.py:78-80 | The buffer is emptied |
| Framing.FrameLayout | src/bitchat/network/framing.py:16-24 | Magic, four bytes of length with the highest first, payload |
| Framing.HeadIsStable | src/bitchat/network/framing.py:50-74 | Later bytes do not change what the head of a buffer was seen to be |
| Framing.HeadIsFrame | src/bitchat/network/framing.py:16-74 | A head is read as a frame if and only if the buffer starts with that frame, encoded, within the limit |
| Framing.ExtractContinues | src/bitchat/network/framing.py:50-76 | Bytes that come later change no frame already cut and mend no bad header |
| Framing.ExtractLosesNothing | src/bitchat/network/framing.py:50-76 | Frames and rest account for every byte of the buffer |
| Framing.ResidueBound | src/bitchat/network/framing.py:50-76 | After a call that did not raise fewer than 8 bytes and one maximal frame are buffered |
| Framing.RestIsIncomplete | src/bitchat/network/framing.py:50-76 | The rest holds no complete frame |
| Framing.ChunkingIndependent | src/bitchat/network/framing.py:45-76 | Error or not depends on the cumulative bytes alone; without one, frames and residue are the same for every split |
| Framing.FramesLostByFailingFeed | src/bitchat/network/framing.py:45-76 | With a bad header the frames lost are exactly those completed by the call that meets it |
| Framing.FrameLost | src/bitchat/network/framing.py:45-76 | Any frame followed by a bad header is lost when fed in one call, and returned when fed in two |
| Framing.StreamRoundTrip | src/bitchat/network/framing.py:16-76 | Encoded frames, split anywhere, come back in order with nothing left over |
| Framing.StreamPrefix | src/bitchat/network/framing.py:16-76 | At every moment before, frames and residue are exactly the bytes received |
| LanStream.LanConnection.constructor | src/bitchat/network/connection.py:29-54 | Connected, nothing received |
| LanStream.LanConnection.ReadChunk | src/bitchat/network/connection.py:103-157 | One turn of the read loop: packets received, or the connection closed on end of stream or framing error |
| LanStream.LanConnection.Deliver | src/bitchat/network/connection.py:132-147 | The loop passes on the payloads that decode, in order |
| LanStream.LanConnection.Close | src/bitchat/network/connection.py:194-222 | Disconnected, buffer empty |
| LanStream.SendableExactly | src/bitchat/network/connection.py:159-180 | A valid packet can be sent if and only if payload, recipient and signature together stay within 65514 bytes |
| LanStream.LanDelivery | src/bitchat/network/connection.py:103-180 | The frames of any list of valid version-1 packets, split anywhere, are received as that list |
| CryptoSuite.LawsAreConsistent | src/bitchat/crypto/noise.py:319-411 | The laws assumed of the primitives have a model |
| CryptoSuite.NoiseHkdf | src/bitchat/crypto/hkdf.py:38-87 | The loop yields the outputs of the HMAC chain |
| CryptoSuite.HkdfIsRfc5869 | src/bitchat/crypto/hkdf.py:38-87 | The chain is HKDF of RFC 5869 (section 2.3) with empty info |
| CryptoSuite.Suite.ExchangedExactly | src/bitchat/crypto/noise.py:867-889 | A secret is shared if and only if the private key has 32 bytes, the public one has 32 and is not weak, and the exchange yields one |
| CipherState.NoiseCipherState.constructor | src/bitchat/crypto/noise.py:177-195 | Counter 0, empty window |
| CipherState.NoiseCipherState.InitializeKey | src/bitchat/crypto/noise.py:201-212 | A new key starts a new counter and window |
| CipherState.NoiseCipherState.MarkNonceSeen | src/bitchat/crypto/noise.py:294-313 | The window after a counter has been accepted |
| CipherState.NoiseCipherState.Encrypt | src/bitchat/crypto/noise.py:319-353 | The plaintext is sealed under the nonce of the counter, which goes up by one; no key or an exhausted counter is an error and changes nothing |
| CipherState.NoiseCipherState.Decrypt | src/bitchat/crypto/noise.py:355-411 | In transport the counter is read off the wire, refused if replayed or too old and marked only if the bytes open; a failure changes nothing |
| CipherState.NonceLayout | src/bitchat/crypto/noise.py:218-233 | Four zero bytes and the counter, lowest byte first |
| CipherState.SentExactly | src/bitchat/crypto/noise.py:319-353 | A transport message is the four lowest bytes of its counter, lowest first, and the plaintext sealed under the nonce of the whole counter; the counter goes up by one |
| CipherState.DecryptRefusedExactly | src/bitchat/crypto/noise.py:355-411 | Each error of decryption exactly; a counter is a replay if it is 1024 or more below the highest, or was received; no error changes the state |
| CipherState.EncryptRefusedExactly | src/bitchat/crypto/noise.py:319-353 | And of encryption |
| TransportChannel.WindowBounded | src/bitchat/crypto/noise.py:294-313 | The window never holds more than 1024 counters |
| TransportChannel.WindowRefinesHistory | src/bitchat/crypto/noise.py:277-411 | Over every run of deliveries, honest or not, the bounded window gives the answers of a receiver that remembers everything: accepted if and only if unseen and within 1024 of the highest |
| TransportChannel.WireCounterExact | src/bitchat/crypto/noise.py:235-271 | The receiver reads back the sender's counter if and only if it is below 2^32 |
| TransportChannel.NoncesDistinct | src/bitchat/crypto/noise.py:218-233 | Distinct counters below 2^64 give distinct nonces |
| TransportChannel.SenderCounts | src/bitchat/crypto/noise.py:319-353 | Every message goes out under its own counter |
| TransportChannel.ChannelDelivers | src/bitchat/crypto/noise.py:319-411 | For the first 2^32 messages and any schedule of losses, repeats and reordering, a delivery yields its plaintext if and only if it is the first of its message and within the window |
| TransportChannel.EachMessageAtMostOnce | src/bitchat/crypto/noise.py:355-411 | No message is output twice |
| SymmetricState.NoiseSymmetricState.constructor | src/bitchat/crypto/noise.py:427-448 | Hash and chaining key from the protocol name |
| SymmetricState.NoiseSymmetricState.MixKeyMaterial | src/bitchat/crypto/noise.py:462-473 | Chaining key and cipher key move by the HMAC chain |
| SymmetricState.NoiseSymmetricState.MixHashData | src/bitchat/crypto/noise.py:475-484 | The hash absorbs the data; HandshakeTranscript.TalkComputes says what that comes to over a whole handshake |
| SymmetricState.NoiseSymmetricState.EncryptHashing | src/bitchat/crypto/noise.py:501-520 | With a key the plaintext is sealed with the hash as associated data, and the hash absorbs what was sent |
| SymmetricState.NoiseSymmetricState.DecryptHashing | src/bitchat/crypto/noise.py:522-560 | With a key the bytes are opened with the hash as associated data, none being taken for an empty plaintext, and the hash absorbs them unless they do not open |
| SymmetricState.NoiseSymmetricState.SplitCiphers | src/bitchat/crypto/noise.py:562-577 | Two fresh ciphers with the two keys of the chain |
| SymmetricState.CryptLockstep | src/bitchat/crypto/noise.py:501-560 | Two equal states stay equal when one encrypts and the other decrypts, and the plaintext gets across |
| Handshake.NoiseHandshakeState.constructor | src/bitchat/crypto/noise.py:601-632 | The state before the first message |
| Handshake.NoiseHandshakeState.MixDh | src/bitchat/crypto/noise.py:867-889 | A shared secret is mixed in, or a missing key reported |
| Handshake.NoiseHandshakeState.WriteOneToken | src/bitchat/crypto/noise.py:690-748 | One token of an outgoing message |
| Handshake.NoiseHandshakeState.WriteAllTokens | src/bitchat/crypto/noise.py:690-748 | The token loop of an outgoing message |
| Handshake.NoiseHandshakeState.WritePayload | src/bitchat/crypto/noise.py:750-754 | Payload and end of the pattern |
| Handshake.NoiseHandshakeState.Write | src/bitchat/crypto/noise.py:669-754 | The tokens of the next pattern in order, then the payload, sealed if there is a key; the pattern advances only if all goes well |
| Handshake.NoiseHandshakeState.ReadOneToken | src/bitchat/crypto/noise.py:779-854 | One token of an incoming message |
| Handshake.NoiseHandshakeState.ReadAllTokens | src/bitchat/crypto/noise.py:779-854 | The token loop of an incoming message |
| Handshake.NoiseHandshakeState.ReadPayload | src/bitchat/crypto/noise.py:856-861 | Payload and end of the pattern |
| Handshake.NoiseHandshakeState.Read | src/bitchat/crypto/noise.py:756-861 | The tokens of the next pattern in order, then the payload; the pattern advances only if all goes well |
| Handshake.NoiseHandshakeState.GetTransportCiphers | src/bitchat/crypto/noise.py:638-659 | Sending and receiving cipher by role |
| HandshakeAgreement.DhLockstep | src/bitchat/crypto/noise.py:867-889 | A DH token takes two sides from one common symmetric state to another |
| HandshakeAgreement.TokenLockstep | src/bitchat/crypto/noise.py:690-854 | So does every token, the one side writing and the other reading |
| HandshakeAgreement.TokensLockstep | src/bitchat/crypto/noise.py:690-854 | So does every list of tokens |
| HandshakeAgreement.MessageLockstep | src/bitchat/crypto/noise.py:669-861 | So does a whole message, and its payload gets across |
| HandshakeAgreement.XXAgreement | src/bitchat/crypto/noise.py:583-889 | Under honest delivery the three messages of XX succeed and end with the same hash, each side holding the other's static key, and crossed ciphers |
| HandshakeAcceptance.PayloadAcceptedExactly | src/bitchat/crypto/noise.py:522-560 | The payload step succeeds if and only if there is no key, or nothing is left of the message, or what is left opens under key, counter and hash |
| HandshakeAcceptance.MessageAcceptedExactly | src/bitchat/crypto/noise.py:756-861 | A message is accepted if and only if its bytes are: first 32 in the clear; then 32 that can be combined and a sealed static key; last a sealed static key; sealed keys open to valid ones that can be combined, and then nothing follows or what opens |
| HandshakeAcceptance.ReadTokenExactly | src/bitchat/crypto/noise.py:779-854 | What each token of a message answers: too few bytes are a protocol error, a static key that does not open or is invalid an authentication error, a combination has its own errors |
| HandshakeAcceptance.ReadAdvancesExactly | src/bitchat/crypto/noise.py:756-861 | The pattern advances if and only if the message is read; after the last one, and only then, the error is one of state |
| HandshakeAcceptance.WriteAdvancesExactly | src/bitchat/crypto/noise.py:669-754 | So it does with messages written |
| HandshakeAcceptance.CutMessageAccepted | src/bitchat/crypto/noise.py:756-861 | An honest message cut off after its tokens is accepted, with the same keys and ciphers as the whole one |
| HandshakeAcceptance.CutLastMessage | src/bitchat/crypto/noise.py:756-861 | The last message of an honest handshake is accepted without its last 16 bytes: the handshake completes with the same static key and the same ciphers |
| HandshakeTranscript.FirstComputes | src/bitchat/crypto/noise.py:669-754 | What the first message computes: the hash has absorbed, after the protocol name, the empty prologue, the ephemeral key and the payload |
| HandshakeTranscript.SecondComputes | src/bitchat/crypto/noise.py:669-754 | What the second one computes, from a responder that has read the first: after ee the static key is sealed, after es the payload, each under the hash so far and the key of the HMAC chain |
| HandshakeTranscript.ThirdComputes | src/bitchat/crypto/noise.py:669-754 | What the third one computes, from an initiator that has read the second: the static key under the counter 1 of the key of es, and after se the payload |
| HandshakeTranscript.TalkComputes | src/bitchat/crypto/noise.py:427-861 | For any keys and payloads: the three messages, and the final hash at both ends, are those of XX written out: the fold h := sha256(h + item) over prologue, ephemeral keys, sealed static keys and sealed payloads, with sha256, HMAC, exchange and seal |
| HandshakeTranscript.TalkKeysTransport | src/bitchat/crypto/noise.py:562-659 | And the transport keys are the two outputs of the HMAC chain over ee, es and se: the initiator sends under the first, the responder under the second |
| HandshakeTranscript.XXComputes | src/bitchat/crypto/noise.py:583-889 | The same for the exchange without payloads that the sessions make |
| Hex.HexRoundTrip | src/bitchat/protocol/packet.py:19-48 | Hex text reads back as the bytes it was made from |
| Hex.ToHexAt | src/bitchat/protocol/packet.py:19-48 | Two lower-case digits for each byte, the higher half first |
| Hex.FromHexExactly | src/bitchat/protocol/packet.py:19-48 | A text of digits reads as the bytes that it spells, in either case, and as nothing else |
| Hex.TextOrderTotal | src/bitchat/crypto/noise.py:145-151 | Of two different texts exactly one is less |
| Hex.TextLessExactly | src/bitchat/crypto/noise.py:145-151 | One text is less than another if it is a proper beginning of it, or has the smaller character where they first differ |
| Sessions.OppositeRoles | src/bitchat/crypto/noise.py:125-151 | Two peers with different ids take opposite roles |
| Sessions.LowerInitiates | src/bitchat/crypto/noise.py:125-151 | The peer whose id comes first initiates; an empty id is refused |
| Sessions.PeerIdExactly | src/bitchat/crypto/identity.py:111-196 | The peer id is the first eight bytes of the digest of the public key, in lower-case hex |
| Sessions.KeyBoundExactly | src/bitchat/crypto/sessions.py:208-253 | A static key is bound to a claimed id if and only if the id spells, in either case, the first eight bytes of its digest |
| Sessions.NoiseSession.constructor | src/bitchat/crypto/sessions.py:61-84 | Uninitialised, no ciphers |
| Sessions.NoiseSession.Start | src/bitchat/crypto/sessions.py:126-149 | First message of the initiator |
| Sessions.NoiseSession.ProcessHandshakeMessage | src/bitchat/crypto/sessions.py:151-206 | A responder starts with its first message; the message is read and answered; an error fails the session, whatever phase it was in |
| Sessions.NoiseSession.AdvanceMarking | src/bitchat/crypto/sessions.py:184-206 | One message of the handshake; an error marks the session |
| Sessions.NoiseSession.BeginResponder | src/bitchat/crypto/sessions.py:173-182 | The responder starts on its first message |
| Sessions.NoiseSession.AdvanceHandshake | src/bitchat/crypto/sessions.py:184-206 | One message of the handshake, read and answered |
| Sessions.NoiseSession.RespondToMessage | src/bitchat/crypto/sessions.py:194-197 | The answer, if it is this side's turn |
| Sessions.NoiseSession.ConcludeIfComplete | src/bitchat/crypto/sessions.py:199-206 | A complete handshake is finalised, a failure marks the session |
| Sessions.NoiseSession.FinaliseHandshake | src/bitchat/crypto/sessions.py:208-253 | The key has to match the claimed peer id |
| Sessions.NoiseSession.Establish | src/bitchat/crypto/sessions.py:246-253 | Ciphers, hash and key are taken over |
| Sessions.NoiseSession.MarkFailed | src/bitchat/crypto/sessions.py:204-206 | The session is failed |
| Sessions.NoiseSession.Encrypt | src/bitchat/crypto/sessions.py:259-280 | Only when established |
| Sessions.NoiseSession.Decrypt | src/bitchat/crypto/sessions.py:282-309 | Only when established |
| Sessions.NoiseSession.Close | src/bitchat/crypto/sessions.py:311-320 | Closed, ciphers gone |
| SessionProperties.ProcessKeepsInvariant | src/bitchat/crypto/sessions.py:151-253 | When established both ciphers exist and the first 8 hash bytes of the remote static key are the claimed peer id |
| SessionProperties.SessionLifecycle | src/bitchat/crypto/sessions.py:126-320 | Over every sequence of calls the invariant holds, the established moments are contiguous, and none comes after failure or closing |
| SessionProperties.EstablishedByHandshakeOnly | src/bitchat/crypto/sessions.py:151-253 | Only a handshake message establishes a session, and then it holds a key that the claimed id is bound to |
| SessionProperties.TransportOnlyWhenEstablished | src/bitchat/crypto/sessions.py:259-309 | Encrypt and decrypt are refused in every other state and change nothing |
| SessionProperties.StrayMessageFailsSession | src/bitchat/crypto/sessions.py:151-206 | Outside the handshake (and not before it for a responder) a call makes a session fail that has not failed if and only if it is a handshake message, whatever is in it |
| SessionProperties.FinaliseSucceeds | src/bitchat/crypto/sessions.py:208-253 | A handshake that ends with the right key establishes the session |
| SessionProperties.StartExactly | src/bitchat/crypto/sessions.py:126-149 | What a start answers: each error exactly, the ephemeral key of an initiator, nothing from a responder |
| SessionProperties.FinaliseExactly | src/bitchat/crypto/sessions.py:208-253 | A handshake establishes the session if and only if its key is the one that the claimed id is bound to and not the own; otherwise an authentication error fails it |
| SessionProperties.MessageExactly | src/bitchat/crypto/sessions.py:151-206 | What a message in a handshake answers: an error of reading or writing fails the session with that error; else the answer goes out, and a complete handshake is finalised |
| SessionProperties.OtherMessageExactly | src/bitchat/crypto/sessions.py:151-206 | What any other message answers: a responder that has not started does, and otherwise the session fails with an error of state |
| SessionProperties.HonestPeersConnect | src/bitchat/crypto/sessions.py:126-253 | Two honest peers with different ids whose messages are delivered are both established, with equal hash, the other's static key and crossed ciphers |
| SessionProperties.ConnectedByXX | src/bitchat/crypto/sessions.py:126-253 | The messages, the hash and the ciphers of two honest sessions are those of XX, written out from their private keys |
| SessionProperties.CutMessageEstablishes | src/bitchat/crypto/sessions.py:151-253 | An honest last message without its last 16 bytes establishes the responder all the same |
| SessionProperties.RolesFitTogether | src/bitchat/crypto/noise.py:125-151 | Whatever the two keys, the roles determined are opposite and fit the exchange |
| SessionProperties.ConnectedSessionsDeliver | src/bitchat/crypto/sessions.py:259-309 | Between connected sessions the first 2^32 messages get across any schedule as the transport channel says |
| Dedup.IdIgnoresTtl | src/bitchat/mesh/dedup.py:17-31 | Relaying does not change the identity of a packet |
| Dedup.SameIdentityExactly | src/bitchat/mesh/dedup.py:17-31 | The bytes that are hashed for two packets are the same if and only if sender, timestamp, type and the concatenation of recipient and payload agree; SameIdExactly is about the ids |
| Dedup.SameIdExactly | src/bitchat/mesh/dedup.py:17-31 | Two packets have the same id, of 16 bytes, if and only if sender, timestamp, type and the concatenation of recipient and payload agree, unless the digests of just these two strings collide |
| Dedup.PacketDeduplicator.constructor | src/bitchat/mesh/dedup.py:37-49 | The cache starts empty |
| Dedup.PacketDeduplicator.Clear | src/bitchat/mesh/dedup.py:117-119 | The cache is emptied |
| Dedup.PacketDeduplicator.IsIdDuplicate | src/bitchat/mesh/dedup.py:56-68 | An expired entry is deleted and does not count |
| Dedup.PacketDeduplicator.RecordId | src/bitchat/mesh/dedup.py:75-86 | The entry goes last; a full cache loses its first |
| Dedup.PacketDeduplicator.CheckAndRecordId | src/bitchat/mesh/dedup.py:88-99 | True, with nothing recorded, for an id with a fresh entry; else the id is recorded |
| Dedup.PacketDeduplicator.PruneExpired | src/bitchat/mesh/dedup.py:101-115 | The loop that stops at the first fresh entry |
| Dedup.PacketDeduplicator.DropFirst | src/bitchat/mesh/dedup.py:110-112 | The oldest entry is deleted |
| DedupProperties.StepKeepsInvariant | src/bitchat/mesh/dedup.py:56-119 | The size stays within its bound, whatever is called |
| DedupProperties.DedupRetention | src/bitchat/mesh/dedup.py:56-119 | An id recorded once is reported as new again only if its entry has expired, the maximum of distinct other ids were recorded in between, or the cache was cleared |
| DedupProperties.StepKeepsOrder | src/bitchat/mesh/dedup.py:56-115 | Under a clock that does not run back every call keeps the entries in order of time |
| DedupProperties.RunKeepsOrder | src/bitchat/mesh/dedup.py:56-115 | So does every run |
| DedupProperties.PruneRemovesExactlyExpired | src/bitchat/mesh/dedup.py:101-115 | On entries in order, stopping early removes exactly the expired ones |
| DedupProperties.PruneExactAfterEveryRun | src/bitchat/mesh/dedup.py:56-115 | After every run from the empty cache, under a clock that does not run back, pruning removes exactly the expired entries |
| RateLimiter.PruneRemembers | src/bitchat/mesh/router.py:85-95 | Pruning forgets nothing that matters |
| RateLimiter.RecentExactly | src/bitchat/mesh/router.py:85-120 | What counts against a sender: its calls of no more than one second ago |
| RateLimiter.RefusedExactly | src/bitchat/mesh/router.py:97-120 | A call is refused if and only if the table, pruned on the way or not, holds the limit of calls of its sender within the last second |
| RateLimiter.RecentShrinks | src/bitchat/mesh/router.py:97-120 | What counts against a sender never grows by itself as time goes by |
| RateLimiter.AskRefinesHistory | src/bitchat/mesh/router.py:97-120 | A call is refused if and only if the full history of its sender has the limit of accepted calls within the last second |
| RateLimiter.RateLimitHolds | src/bitchat/mesh/router.py:85-120 | Over every run no closed one-second window has more accepted calls of a sender than the limit, whatever other senders do |
| MeshRouting.OldestRoute | src/bitchat/mesh/router.py:140-153 | The first destination with the oldest update |
| MeshRouting.ExpiredRoutesExactly | src/bitchat/mesh/router.py:182-195 | The list of expired routes is exact |
| MeshRouting.PruneRoutesExactly | src/bitchat/mesh/router.py:182-195 | Pruning removes exactly the routes that are too old |
| MeshRouting.AddRouteBounded | src/bitchat/mesh/router.py:127-161 | The table stays within its bound, and any route in it was there or is the one added |
| MeshRouting.AddRouteExactly | src/bitchat/mesh/router.py:127-161 | A new route is put in unless a fresh one with fewer hops is held; the others stay, unless the table is full: then those that are not fresh go, and if all are, one that is no younger than any other |
| MeshRouting.NextHopExactly | src/bitchat/mesh/router.py:163-175 | The next hop is that of the route held, as long as that is fresh; a route that is not is dropped |
| MeshRouting.MeshRouter.constructor | src/bitchat/mesh/router.py:59-83 | Empty tables |
| MeshRouting.MeshRouter.PruneRateLimiter | src/bitchat/mesh/router.py:85-95 | Senders whose last call is older than a second, or that have none, are forgotten, the others as they were |
| MeshRouting.MeshRouter.IsRateLimited | src/bitchat/mesh/router.py:97-120 | Refused if within the last second there were calls of the sender, and as many as the limit; an accepted call is noted, old ones are dropped |
| MeshRouting.MeshRouter.PruneExpiredRoutes | src/bitchat/mesh/router.py:182-195 | Exactly the routes that are too old go |
| MeshRouting.MeshRouter.LearnNewRoute | src/bitchat/mesh/router.py:127-161 | A full table loses its expired routes, or else the oldest; then the route is put in, unless one is held that is fresh and shorter |
| MeshRouting.MeshRouter.NextHop | src/bitchat/mesh/router.py:163-175 | The next hop of a route that has not expired |
| MeshRouting.MeshRouter.EvaluateIncoming | src/bitchat/mesh/router.py:201-292 | A packet of this node, over the rate limit, without ttl, or seen before is dropped, tested in this order; any other is accepted |
| MeshRouting.MeshRouter.AcceptPacket | src/bitchat/mesh/router.py:251-292 | The packet is put on record, teaches a route, and is processed and relayed by its recipient and ttl; RouterDecisions.KeptMeans says for whom |
| MeshRouting.RelayShrinksTtl | src/bitchat/mesh/router.py:277-285 | A relayed copy differs only in its ttl, which is smaller and between 1 and the ceiling less one |
| RouterDecisions.ReasonsExactly | src/bitchat/mesh/router.py:217-249 | Each reason for which a packet is dropped, exactly; a packet that is dropped is not processed, goes nowhere and changes nothing but the rate limiter |
| RouterDecisions.KeptMeans | src/bitchat/mesh/router.py:251-292 | A packet that is kept is processed if and only if it is for all or for this node; has its recipient as target if and only if it is for another node; is relayed, with min(ttl, ceiling) - 1 hops, if and only if these are at least 1 and it is not for this node alone; goes on record; and teaches the way back to its sender, 8 - ttl hops |
| RouterDecisions.NewIsKept | src/bitchat/mesh/router.py:217-249 | A packet of another node with a hop left is kept if and only if its sender is within the limit and its id is not on record |
| RouterDecisions.DifferentIsNoDuplicate | src/bitchat/mesh/router.py:241-249 | A packet that differs in sender, timestamp, type or recipient with payload from all on record is not dropped as a duplicate, unless its digest collides with one of theirs |
| RouterDecisions.SameIsDropped | src/bitchat/mesh/router.py:217-249 | One that agrees in these with a packet whose record is fresh is always dropped |
| RouterDecisions.DuplicateOnlyIfHeard | src/bitchat/mesh/router.py:201-292 | Over every run of a router that starts with nothing on record: what is dropped as a duplicate agrees in these with a packet that came before |
| Flood.KeptExactly | src/bitchat/mesh/router.py:217-249 | A node other than the sender keeps a copy if and only if it does not have the packet on record, or no longer, and its rate limiter lets the sender through |
| Flood.FirstArrival | src/bitchat/app/session_coordinator.py:964-982 | A copy that is kept is processed, put on record, and relayed with the next smaller ttl while that is at least 1 |
| Flood.LaterArrival | src/bitchat/mesh/router.py:228-249 | Any other copy is dropped and changes nothing but the rate limiter |
| Flood.BackAtSender | src/bitchat/mesh/router.py:217-224 | A copy that comes back to the sender changes nothing |
| Flood.CopyToEveryNeighbour | src/bitchat/app/session_coordinator.py:922-929 | A relay sends a copy to every neighbour but the one it came from |
| Flood.DeliverOk | src/bitchat/app/session_coordinator.py:964-1044 | Deliveries keep tables and packets valid |
| FloodCoverage.NextKeepsCoverage | src/bitchat/app/session_coordinator.py:922-1044 | Every arrival, unless a first copy is refused or a later one taken for new, and anything else that happens at a node, keeps: nodes reached have processed once, every link out of them is served or has a copy coming, and a copy under way still has a hop for every node not reached |
| FloodCoverage.TwiceExactly | src/bitchat/app/session_coordinator.py:964-1044 | Over every run and whatever else happens, no node processes the packet twice if and only if none takes a later copy for new |
| FloodCoverage.CoversExactly | src/bitchat/app/session_coordinator.py:922-1044 | On a connected mesh of n nodes, n <= ttl + 1, with any other traffic and any timing: if no node refuses the first copy and all copies are delivered, every node but the origin processes the broadcast exactly once if and only if none takes a later copy for new |
| FloodCoverage.OtherPacketsLeaveAlone | src/bitchat/mesh/router.py:201-292 | A packet of another sender and with another id neither takes a packet off the record, unless it pushes it out of a full cache, nor uses up the limit of its sender |
| FloodCoverage.FloodReachesAll | src/bitchat/app/session_coordinator.py:922-1044 | So a broadcast that is new to the mesh, and whose sender has room left in every rate limiter at the start, is processed exactly once by every node but the origin in every asynchronous run that delivers all copies within the life of a duplicate entry, with any other traffic that leaves its records and that room alone |
| FloodTermination.EveryDeliveryDecreases | src/bitchat/mesh/router.py:277-285 | Every delivery makes a weighted sum over the copies under way smaller, whatever the duplicate caches hold |
| FloodTermination.EveryRunEnds | src/bitchat/mesh/router.py:277-285 | Every run has at most as many arrivals as the copies under way at its start weigh, whatever else happens in between |
| FloodTermination.ArrivalsBounded | src/bitchat/app/session_coordinator.py:922-1044 | A broadcast causes at most degree * (degree + 1) ^ ttl arrivals, whatever the routers hold and whatever else happens |
| FloodRange.HopCountExactly | src/bitchat/mesh/router.py:251-260 | The hop count that a relayed copy teaches is at least the number of links it has travelled if and only if ttl or relay ceiling were at most 7 at the start |
| FloodRange.HandleLearnsInRange | src/bitchat/mesh/router.py:251-260 | Then no node learns a hop count below its distance |
| FloodRange.FloodStaysInRange | src/bitchat/mesh/router.py:251-285 | In every run, whatever the routers hold and whatever else happens, a node farther than the ttl never processes the packet |
| FloodRange.FloodTeachesInRange | src/bitchat/mesh/router.py:127-161 | A broadcast with ttl or ceiling at most 7 leaves no route with a hop count below the distance, if there was none and none comes from elsewhere |
| FloodRange.HopCountsNeverTooSmall | src/bitchat/mesh/router.py:127-161 | So do any number of broadcasts, one after the other and from any origins |
| FloodExamples.DetourSpendsTheHops | src/bitchat/mesh/router.py:241-285 | For every ttl of at least 2 a mesh of ttl + 2 nodes, all within ttl hops, that the broadcast does not cover, though nothing is lost or refused: copies that go the long way round come first |
| FloodExamples.PairExactly | src/bitchat/mesh/router.py:97-120 | On a mesh of two nodes a broadcast gets across if and only if it is new and the rate limiter of the other node lets the sender through when the copy arrives |
| Unicast.BroadcastsFlood | src/bitchat/app/session_coordinator.py:964-1044 | With a broadcast a node does what the flood model says |
| Unicast.ArrivalFloods | src/bitchat/app/session_coordinator.py:964-1044 | And a net in which only broadcasts are under way goes on as in the flood model |
| Unicast.HandOnExactly | src/bitchat/app/session_coordinator.py:1009-1046 | Where a packet with a target goes: to it if it is a neighbour, to the next hop of a fresh route if that is one, else to all neighbours; never back to where it came from |
| Unicast.RecordedWhenSent | src/bitchat/app/session_coordinator.py:920-929 | A packet relayed to all neighbours is put on record again when it is sent, one handed on to a single node is not |
| Unicast.NeighbourFound | src/bitchat/app/session_coordinator.py:886-902 | A neighbour is found under the hex text of its id, and nobody else is |
| Unicast.OnlyTheRecipient | src/bitchat/app/session_coordinator.py:964-1044 | In every run, whatever else goes on and whatever routes, caches and limiters hold, a packet for one node is processed by that node and by nobody else, exactly as often as it takes a copy for new |
| Unicast.AtMostOnce | src/bitchat/app/session_coordinator.py:964-1044 | And at most once within the life of a duplicate entry, as long as nothing pushes the packet out of the recipient's cache |
| UnicastDelivery.HandsOnNearer | src/bitchat/app/session_coordinator.py:1009-1046 | A node sends the packet to the recipient if that is a neighbour, and else over the next hop of a fresh route |
| UnicastDelivery.AfterInHand | src/bitchat/app/session_coordinator.py:964-1046 | While next hops lead to the recipient and each node on the way is open to the packet, there is one copy under way, it comes nearer with every arrival, and at the recipient it is processed |
| UnicastDelivery.LetterArrives | src/bitchat/app/session_coordinator.py:904-1046 | A packet whose way is open is processed by its recipient, once and by nobody else, in every run that leaves no copy under way, and takes no more arrivals than the recipient is hops away |
| ReturnPath.FirstTeaches | src/bitchat/mesh/router.py:127-161 | The first copy of a broadcast teaches a node the way back over the neighbour it came from |
| ReturnPath.NextSettles | src/bitchat/app/session_coordinator.py:922-1044 | Every event of a flood keeps: each node that was reached has a fresh route back over a neighbour that was reached before it |
| ReturnPath.FloodLeavesRoutes | src/bitchat/app/session_coordinator.py:922-1044 | So at the end of a flood every node but the origin has one |
| ReturnPath.AnswerArrives | src/bitchat/app/session_coordinator.py:904-1046 | After a flood on a mesh with links both ways, a packet from any node for the origin alone, sent while the routes are fresh, gets there over the next hops: processed once, by the origin and by nobody else, after fewer arrivals than there are nodes |
| StoreForward.Deque.constructor | src/bitchat/mesh/store_forward.py:91 | An empty deque |
| StoreForward.Deque.PopLeft | src/bitchat/mesh/store_forward.py:95 | The head is taken off in place |
| StoreForward.StoreAndForwardQueue.constructor | src/bitchat/mesh/store_forward.py:38-52 | No queues, counters 0 |
| StoreForward.StoreAndForwardQueue.Clear | src/bitchat/mesh/store_forward.py:188-192 | No queues, counters 0 |
| StoreForward.StoreAndForwardQueue.HasPending | src/bitchat/mesh/store_forward.py:164-167 | True if and only if packets are queued for the peer |
| StoreForward.StoreAndForwardQueue.PopExpired | src/bitchat/mesh/store_forward.py:176-182 | The inner loop takes exactly the expired packets at the head |
| StoreForward.StoreAndForwardQueue.DeleteIfEmpty | src/bitchat/mesh/store_forward.py:183-184 | An empty queue leaves the table |
| StoreForward.StoreAndForwardQueue.PruneQueue | src/bitchat/mesh/store_forward.py:174-184 | One round: the expired packets at the head are gone, and the queue if it is empty |
| StoreForward.StoreAndForwardQueue.PruneExpired | src/bitchat/mesh/store_forward.py:169-186 | Expired packets at the heads of all queues go, emptied queues with them, and are counted |
| StoreForward.StoreAndForwardQueue.FindOldest | src/bitchat/mesh/store_forward.py:126-132 | The first of the queues with the oldest head |
| StoreForward.StoreAndForwardQueue.PopHead | src/bitchat/mesh/store_forward.py:94-97 | Head and counters taken down together |
| StoreForward.StoreAndForwardQueue.EvictOldest | src/bitchat/mesh/store_forward.py:124-140 | The oldest head goes, and its queue if that empties it; a queue that was held is still in the table or empty |
| StoreForward.StoreAndForwardQueue.EvictForCount | src/bitchat/mesh/store_forward.py:100-101 | Evicts while the cap on packets is reached, and ends |
| StoreForward.StoreAndForwardQueue.EvictForBytes | src/bitchat/mesh/store_forward.py:104-108 | Evicts while the cap on bytes would be exceeded, and ends |
| StoreForward.StoreAndForwardQueue.EvictFor | src/bitchat/mesh/store_forward.py:100-108 | The two loops in turn, each ending, keep hold of the peer's queue, in the table or not |
| StoreForward.StoreAndForwardQueue.TakeHold | src/bitchat/mesh/store_forward.py:91 | The peer's queue, in the table |
| StoreForward.StoreAndForwardQueue.MakeWay | src/bitchat/mesh/store_forward.py:94-97 | The per-peer cap, or the IndexError of an empty queue |
| StoreForward.StoreAndForwardQueue.PutIn | src/bitchat/mesh/store_forward.py:111-122 | The packet goes into the queue that was taken hold of, in the table or not |
| StoreForward.StoreAndForwardQueue.PlaceIn | src/bitchat/mesh/store_forward.py:94-122 | One packet of the peer makes way under its cap, others under the two global caps, and the packet goes into the queue held |
| StoreForward.StoreAndForwardQueue.PlaceFor | src/bitchat/mesh/store_forward.py:91-122 | The same from the point where the peer's queue is looked up or made |
| StoreForward.StoreAndForwardQueue.EnqueuePacket | src/bitchat/mesh/store_forward.py:69-122 | Expired packets go, a packet too large by itself is refused, any other placed, into a queue out of the table if eviction took it, whenever the eviction loops end |
| StoreForward.StoreAndForwardQueue.HandOver | src/bitchat/mesh/store_forward.py:155-160 | The unexpired packets in order, counters taken down for all |
| StoreForward.StoreAndForwardQueue.DequeueForPeer | src/bitchat/mesh/store_forward.py:142-162 | The unexpired packets of the peer in order; the queue is gone |
| StoreForward.SomethingToEvict | src/bitchat/mesh/store_forward.py:100-108 | As long as the counters exceed the queued packets by less than the room needed, a loop that goes on has something to evict |
| StoreForward.EvictKeepsPhantoms | src/bitchat/mesh/store_forward.py:134-138 | An eviction takes the counters down by what it takes |
| StoreForwardProperties.PruneRemovesExactlyExpired | src/bitchat/mesh/store_forward.py:169-186 | On queues in order of time, looking at heads only leaves exactly the unexpired packets, in order |
| StoreForwardProperties.PruneKeepsExactlyFresh | src/bitchat/mesh/store_forward.py:169-186 | What is left are the packets queued for no longer than the time to live |
| StoreForwardProperties.HandsOverExactlyFresh | src/bitchat/mesh/store_forward.py:142-162 | A peer is handed exactly the packets queued for it for no longer than the time to live |
| StoreForwardProperties.EvictTakesOldest | src/bitchat/mesh/store_forward.py:124-140 | What is evicted is the oldest of all packets queued |
| StoreForwardProperties.EnqueueConserves | src/bitchat/mesh/store_forward.py:69-122 | Whatever one counts, what goes in is what stays, expires, is evicted or lost |
| StoreForwardProperties.DequeueConserves | src/bitchat/mesh/store_forward.py:142-162 | Whatever one counts, a queue is what is delivered and what has expired |
| StoreForwardProperties.MakeRoomFits | src/bitchat/mesh/store_forward.py:100-108 | Given room, the loops end with space for the packet |
| StoreForwardProperties.StuckForEver | src/bitchat/mesh/store_forward.py:100-108 | Without room no number of evictions ends the loop |
| StoreForwardProperties.LoopsEndExactly | src/bitchat/mesh/store_forward.py:100-108 | Some number of evictions ends both loops if and only if what the counters have too much leaves room |
| StoreForwardProperties.AnswersExactly | src/bitchat/mesh/store_forward.py:69-122 | Given room, a packet is refused if and only if it is too large by itself; the last check never fails |
| StoreForwardRuns.RunConserves | src/bitchat/mesh/store_forward.py:69-192 | Conservation over every run of all operations, for every measure |
| StoreForwardRuns.EveryPacketAccountedFor | src/bitchat/mesh/store_forward.py:69-192 | Every packet occurs among the accepted exactly as often as among the queued, delivered, expired, evicted, lost and cleared |
| StoreForwardRuns.CountersExactIffNothingLost | src/bitchat/mesh/store_forward.py:69-192 | The counters are the real sums if and only if no packet was lost since the last clear, and too high by the lost ones otherwise |
| StoreForwardRuns.EndsExactlyIfLostLeaveRoom | src/bitchat/mesh/store_forward.py:69-108 | After any run, some number of evictions ends the loops of an enqueue if and only if the packets lost since the last clear leave room for the new one; always while there are none |
| StoreForwardRuns.FirstInFirstOut | src/bitchat/mesh/store_forward.py:69-192 | What a peer receives is a subsequence, in order, of what was accepted for it |
| StoreForwardRuns.CapsHold | src/bitchat/mesh/store_forward.py:69-192 | Over every run all three caps hold and every queue is in order of time |
| StoreForwardRuns.PayloadsWithinCap | src/bitchat/mesh/store_forward.py:69-122 | Over every run the payloads queued, with 32 bytes more for each, stay within the cap on bytes |
| StoreForwardLoss.OldestIsFirst | src/bitchat/mesh/store_forward.py:126-132 | The search finds the first of the oldest heads |
| StoreForwardLoss.TakenAwayExactly | src/bitchat/mesh/store_forward.py:134-140 | An eviction loop takes away a queue if and only if its last packet and those evicted later are too much by themselves |
| StoreForwardLoss.LostExactly | src/bitchat/mesh/store_forward.py:91-122 | A packet accepted is lost if and only if its peer has packets queued and the last of these, with those evicted later, leaves no room |
| StoreForwardExamples.DefaultLoss | src/bitchat/mesh/store_forward.py:14-140 | With the default caps, four large packets, for a, b, b and a again: all are accepted, the last is lost, and the counters say three where two are queued |
| StoreForwardExamples.StuckAfterLoss | src/bitchat/mesh/store_forward.py:91-140 | With a cap of one packet, two packets for one peer: the second is lost, the counters stay at one, and no later enqueue ends |
| LanTransport.RemovedEverywhere | src/bitchat/network/transport.py:187-197 | After removal no table mentions the connection and nothing else has changed |
| LanTransport.PeerKeyExactly | src/bitchat/network/transport.py:123-139 | The key of an address: that of the record at the address, if that has an id; else, unless it is a loopback address, that of the first discovered record with its IP and an id, and the IP itself if and only if there is no such record |
| LanTransport.KnownByKey | src/bitchat/network/transport.py:123-139 | An address that belongs to a discovered peer gets the key of that peer |
| LanTransport.InboundDrops | src/bitchat/network/transport.py:199-252 | An inbound connection is dropped, or another one for it, only if the table is full or a ready connection with the same address, key or IP is there; if not, it is registered under its address and key |
| LanTransport.OtherPeersSpared | src/bitchat/network/transport.py:199-252 | It neither drops a connection to a discovered peer with another id at another IP, nor is dropped for one |
| LanTransport.InboundByAddress | src/bitchat/network/transport.py:199-252 | Accepting keeps every connection under its own address and the key of that address |
| LanTransport.DisconnectedByAddress | src/bitchat/network/transport.py:263-270 | So does the close callback |
| LanTransport.KeepOutboundExactly | src/bitchat/network/transport.py:147-159 | The outbound connection stays if the own id comes before that of the other end; without two different ids, if the own endpoint comes before the remote one |
| LanTransport.RemoteIdExactly | src/bitchat/network/transport.py:141-145 | The id in a key of a peer, and the address for any other key |
| LanTransport.Connection.constructor | src/bitchat/network/transport.py:486-532 | A connection as it was made |
| LanTransport.Transport.constructor | src/bitchat/network/transport.py:33-72 | Empty tables |
| LanTransport.Transport.GetPeerKey | src/bitchat/network/transport.py:123-139 | Key by address, by IP among the discovered peers, or by the address itself; PeerKeyExactly says which |
| LanTransport.Transport.FindExistingConnection | src/bitchat/network/transport.py:161-185 | By address, by peer key, then by IP |
| LanTransport.FindExactly | src/bitchat/network/transport.py:161-185 | What the search finds: the ready connection at the address, else the one on record for the peer, else, unless the address is loopback, the first with the same IP; and none if and only if there is none of these |
| LanTransport.Transport.FindKeys | src/bitchat/network/transport.py:189-195 | The keys that hold the connection, in order |
| LanTransport.Transport.PopAll | src/bitchat/network/transport.py:190-197 | The keys are deleted |
| LanTransport.Transport.RemoveConnectionReferences | src/bitchat/network/transport.py:187-197 | The connection leaves all three tables, with the addresses it was at; everything else stays |
| LanTransport.Transport.RegisterConnection | src/bitchat/network/transport.py:250-252 | The connection in all three tables |
| LanTransport.Transport.HandleInboundConnection | src/bitchat/network/transport.py:199-252 | A full table turns the connection down; beside a ready one to the same peer one of the two is dropped; else it is registered |
| LanTransport.Transport.HandlePacketReceived | src/bitchat/network/transport.py:281-315 | The sender's record becomes the connection it came over, or one of two ready connections is dropped |
| LanTransport.Transport.ResolveDuplicate | src/bitchat/network/transport.py:297-313 | Which of two ready connections stays |
| LanTransport.Transport.HandlePeerDisconnected | src/bitchat/network/transport.py:263-270 | Whatever is at the address leaves all three tables |
| LanTransport.Transport.ConnectPeer | src/bitchat/network/transport.py:486-558 | Refusal of the own endpoint and of an unavailable transport; else reuse, refusal at the limit, or a new connection in the tables |
| LanTransport.Transport.ConnectOrReuse | src/bitchat/network/transport.py:522-558 | The same, once nothing speaks against connecting |
| LanTransport.Transport.NoteSender | src/bitchat/network/transport.py:281-293 | The sender is noted, tables otherwise as they were |
| LanTransport.Transport.OpenConnection | src/bitchat/network/transport.py:549-558 | A new connection in the tables |
| LanCrossing.ConnectKeeps | src/bitchat/network/transport.py:520-558 | In every phase and for either address: connecting opens a connection if and only if the search finds none, and otherwise puts what it finds at the address and on record |
| LanCrossing.Site.DiscoveredIsValid | src/bitchat/network/transport.py:123-139 | What the two-ended model asks of the keys of its two addresses follows from the registry: the other end is the peer discovered at the one, and the first with the IP of the other |
| LanCrossing.AcceptKeeps | src/bitchat/network/transport.py:199-252 | Accepting with the own connection open drops one of the two, by the order of the ids |
| LanCrossing.ReceiveKeeps | src/bitchat/network/transport.py:281-315 | A packet makes an end drop a connection if and only if it comes over one in its tables while the other is on record for the packet's sender and both are open; which one goes is decided by that sender's id |
| LanCrossing.EndingKeeps | src/bitchat/network/connection.py:194-216 | From the end of a connection to its close callback it is not ready; one that the other end closed is still in the tables |
| LanCrossing.CloseKeeps | src/bitchat/network/transport.py:263-270 | The close callback takes out of the tables whatever is at the address of the connection that closed, and nothing else |
| LanCrossing.ClosedIsForgotten | src/bitchat/network/transport.py:187-197 | A connection that this end has dropped, or that is closed, is at no address and not on record for its peer, late packets and calls notwithstanding |
| LanAgreement.EventKeeps | src/bitchat/network/transport.py:187-315 | Every event at either end keeps the invariant of both |
| LanAgreement.DroppedExactly | src/bitchat/network/transport.py:199-315 | Over every interleaving either connection is closed if and only if some end, having to choose, chooses the other: it accepts while its own is open, or gets a packet over one in its tables while the other is on record for the sender and both are open |
| LanAgreement.NeverDropsBoth | src/bitchat/network/transport.py:147-159 | The connection opened by the end with the smaller id is closed if and only if a packet of a third sender, passed on, makes an end choose by the wrong order; never, if all packets are the two ends' own |
| LanAgreement.EndsAgree | src/bitchat/network/transport.py:199-315 | Once nothing is left to happen a connection is open at both ends or at neither, and open if and only if it was opened and nobody dropped it |
| LanAgreement.InTheTableExactly | src/bitchat/network/transport.py:187-315 | Over every run, a connection is in the table of an end if and only if it is under way, open, or ended by the other end and not reported yet, and the end has not lost track of it: connect_peer put it at the address of the other one before that one's close callback, or put the other one in its place while it was not ready |
| LanExamples.KeptConnectionForgotten | src/bitchat/network/transport.py:187-318 | A run at whose end the kept connection is open at both ends and in the tables of one only: connect_peer reused it before the close callback of the dropped one |
| LanExamples.ForgottenWhileEnding | src/bitchat/network/connection.py:153-222 | The same where the other end closed the other connection: connect_peer came between its end and its close callback |
| LanExamples.LowerEndForgets | src/bitchat/network/transport.py:187-318 | The same at the end with the smaller id, over the address of the connection it accepted |
| LanExamples.OwnConnectionForgotten | src/bitchat/network/transport.py:520-558 | A run that opens a connection that is in no table: a second connect_peer put the accepted one in its place |
| LanExamples.BothMayStay | src/bitchat/network/transport.py:199-315 | Both stay for good, and in the tables, if both ends accept while connecting and then hear only each other, over what they accepted |
| LanExamples.BothDropped | src/bitchat/network/transport.py:281-315 | Packets of a third sender with a smaller id than both, passed on over both connections, make each end drop its own: none is left |
| LanExamples.NeighbourDropped | src/bitchat/network/transport.py:281-315 | A packet of a peer that has a connection itself, passed on by another peer, makes the end drop the connection to one of the two |
| Discovery.HearKeepsOnePerId | src/bitchat/network/discovery.py:257-335 | Every beacon keeps at most one record per peer id and leaves its peer with a record seen just now |
| Discovery.NotifiedExactly | src/bitchat/network/discovery.py:257-335 | The callback fires if and only if the peer had no record with the same endpoint, nickname and network |
| Discovery.OthersKept | src/bitchat/network/discovery.py:257-335 | Records of other peers stay, but for one at the endpoint of the record |
| Discovery.HeardExactly | src/bitchat/network/discovery.py:257-335 | What the record of a peer says after a beacon: a new one has the address, IP and port of the beacon; a known one keeps its instance and takes nickname, network and time, and moves to that address if the IP is the same or it was not heard of for two intervals |
| Discovery.OwnNeverEnters | src/bitchat/network/discovery.py:241-256 | No beacon of the node itself leaves a record, by id, former ids, instance, own address or loopback; every other one is taken up |
| Discovery.EndpointsDistinct | src/bitchat/network/discovery.py:257-261 | The text of an endpoint tells its IP and its port |
| Discovery.PruneRemovesExactlyStale | src/bitchat/network/discovery.py:372-385 | Pruning removes exactly the peers not heard of for too long, and lists exactly the endpoints removed |
| Discovery.PeerRecord.constructor | src/bitchat/network/discovery.py:319-328 | A record with its fields |
| Discovery.LanDiscovery.constructor | src/bitchat/network/discovery.py:30-57 | The registry starts empty |
| Discovery.LanDiscovery.Clear | src/bitchat/network/discovery.py:126-128 | The registry is emptied |
| Discovery.LanDiscovery.ProcessBeacon | src/bitchat/network/discovery.py:241-335 | Own and loopback beacons change nothing; any other leaves its peer with one record, brought up to date, and tells whether that is new |
| Discovery.LanDiscovery.Register | src/bitchat/network/discovery.py:257-335 | The peer's record is found under another endpoint, under this one, or made |
| Discovery.LanDiscovery.UpdatePrior | src/bitchat/network/discovery.py:267-303 | A record under another endpoint moves here if the IP is the same or it is old, and is refreshed in its place otherwise |
| Discovery.LanDiscovery.RegisterHere | src/bitchat/network/discovery.py:305-335 | A record under this endpoint is refreshed, or a new one takes its place |
| Discovery.LanDiscovery.Refresh | src/bitchat/network/discovery.py:292-317 | A record brought up to date in place |
| Discovery.LanDiscovery.FindPrior | src/bitchat/network/discovery.py:262-266 | The other endpoints of the peer, in order |
| Discovery.LanDiscovery.Add | src/bitchat/network/discovery.py:319-329 | A new record |
| Discovery.LanDiscovery.PopAll | src/bitchat/network/discovery.py:276-277 | The stale endpoints are deleted |
| Discovery.LanDiscovery.Pop | src/bitchat/network/discovery.py:276-277 | One endpoint is deleted |
| Discovery.LanDiscovery.Rekey | src/bitchat/network/discovery.py:276-285 | The record moves to its new endpoint and keeps its identity |
| Discovery.LanDiscovery.PutBack | src/bitchat/network/discovery.py:278-285 | The record under its new endpoint |
| Discovery.LanDiscovery.PruneStalePeers | src/bitchat/network/discovery.py:372-385 | Records not heard of for too long go, and their endpoints are listed |
| Png.Paeth | packaging/windows/assets.py:66-75 | The nearest of left, up and upper left to their linear estimate, ties in this order |
| Png.ReconFiltered | packaging/windows/assets.py:113-138 | Reconstruction inverts filtering, for every filter type, byte by byte |
| Png.ReconAt | packaging/windows/assets.py:113-138 | Every byte of a row is its filter of section 6 of RFC 2083 applied to the bytes left, above and above left, 0 outside the image |
| Png.CutRowExactly | packaging/windows/assets.py:108-138 | A scanline that is cut short is an IndexError if and only if its filter would change a byte that is missing; otherwise it is taken as it is |
| Png.ChunkLayout | packaging/windows/assets.py:150-154 | Length, tag, data and the checksum of tag and data, numbers with the highest byte first |
| Png.HeaderLayout | packaging/windows/assets.py:143-160 | Width, height, and 8-bit RGBA without interlacing |
| Png.HeaderAccepted | packaging/windows/assets.py:95-102 | A header is accepted if and only if it has 13 bytes and says 8-bit RGBA; width and height are its first two numbers |
| Png.RefusedExactly | packaging/windows/assets.py:78-141 | Each error exactly: bytes that do not start with the signature; chunks or a header that cannot be read; data that does not inflate; too little of it |
| Png.DefilterSub | packaging/windows/assets.py:120-122 | In place, the row that the scanline stands for, or the IndexError |
| Png.DefilterUp | packaging/windows/assets.py:123-125 | In place, the row that the scanline stands for, or the IndexError |
| Png.DefilterAverage | packaging/windows/assets.py:126-130 | In place, the row that the scanline stands for, or the IndexError |
| Png.DefilterPaeth | packaging/windows/assets.py:131-136 | In place, the row that the scanline stands for, or the IndexError |
| Png.Defilter | packaging/windows/assets.py:120-136 | In place, the row that the scanline stands for, or the IndexError |
| Png.ReadRow | packaging/windows/assets.py:113-138 | One more row, or the IndexError |
| Png.ReadRows | packaging/windows/assets.py:108-140 | All rows, or the IndexError |
| Png.ReadStep | packaging/windows/assets.py:88-105 | What one chunk does: the end, an error, or what is known before the next |
| Png.ScanChunks | packaging/windows/assets.py:83-105 | Header and data of the chunks up to the end |
| Png.DecodePngRgba | packaging/windows/assets.py:78-140 | Signature, chunks, header, inflation and scanlines in turn, each with its error, give the rows of the image |
| Png.RowsOfFiltered | packaging/windows/assets.py:108-140 | The scanline loops undo any choice of a filter for each row |
| Png.ScanSerialized | packaging/windows/assets.py:83-105 | The chunk loop finds the chunks that were written |
| Png.DecodeInvertsFiltering | packaging/windows/assets.py:78-140 | Any 8-bit RGBA image reads back, whatever filter each row has, however its data is spread over IDAT chunks and whatever other chunks there are |
| Png.EncodeDecode | packaging/windows/assets.py:78-160 | What is encoded decodes to the same image |

## Left out

- Real cryptography (X25519, ChaCha20-Poly1305, AES-GCM, SHA-256, the low-order point table): library calls, kept as functions with the laws named above; their own size limits are not modelled.
- asyncio scheduling, sockets, locks, timeouts and the pacing of fragments: only atomic steps and a clock parameter.
- BLE, BlueZ and WinRT backends, adapter monitoring, platform detection: hardware state.
- TUI, CLI, logging and command parsing: user interface.
- Identity, configuration and trust on first use: I/O with easy facts.
- The rest of `SessionCoordinator`: putting a packet for a neighbour that it cannot be sent to into the queue, handshake time-outs, transport switching, retries, periodic pruning, and the second `add_route` that local processing makes with the same hop count.
- Mesh addresses: in `Flood` and `Unicast` the address of a neighbour is its peer id in hex, the peers with a known address are the neighbours, and links neither fail nor appear during a run.
- Unicast.AtMostOnce: is about the life of one duplicate entry; OnlyTheRecipient says what holds beyond.
- UnicastDelivery.LetterArrives: gives conditions under which the next hops lead to the recipient; without a route a packet is sent to all neighbours, and no more is said of that than OnlyTheRecipient says.
- ReturnPath.AnswerArrives: takes routers with room in the route table, no fresh route to the origin before the broadcast, and the limits and caches of FloodReachesAll.
- FloodCoverage.FloodReachesAll: gives conditions that can be checked before or beside the run; CoversExactly says what they are there for. Neither lets a copy get lost: with a lost copy a node can miss the packet.
- Normalisation of peer ids and route keys (strip, lower case): `StoreForward` and `MeshRouting` take normalised keys.
- `unpad_packet_data`: deliberately permissive, used by nothing that is modelled.
- `mix_key_and_hash` and `legacy_hkdf`: used by nothing that is modelled.
- Exceptions out of `on_packet_received` and the other callbacks: the source suppresses them.
- `bytes.fromhex` skips white space in a peer id: both readings end in the same AuthenticationError.
- TCP connections that fail or are lost for other reasons than being dropped, in `LanAgreement`; and calls of `connect_peer` that find nothing once the end has opened a connection: they would open a third one between the two peers, and at an address whose close callback is still to come that callback would take it out.
- Other addresses of the other end, and connections to other peers in the same tables, in `LanAgreement`: these could use up the room, and the search by IP could find one of them.
- LanAgreement.NeverDropsBoth: takes room for two connections at each end, as the default of 32 gives; with a cap of one each end turns the other's connection away. It is about connections being closed; InTheTableExactly says when an end has them in its tables.
- LanAgreement.EndsAgree: says nothing of an interleaving that is still going on; DroppedExactly says when two connections remain, and LanExamples.KeptConnectionForgotten that the tables need not agree.
- EndToEnd.EndToEndDelivery: asks that the foreign traffic touches fewer assemblies than the table holds; beyond that the least recently touched assembly is evicted, as `LruSurvival` says.
- LanTransport.Transport.ConnectPeer: takes whether the address is an own endpoint and whether the transport is available as parameters, since they come from the network interfaces and the transport state.
- LanTransport.Transport.ConnectOrReuse: ends where the connection attempt starts; its failure, after which the connection leaves the tables again, is not modelled.
- LanTransport.Transport.OpenConnection: puts the new connection into the tables; the attempt itself is a network call.
- Discovery.LanDiscovery.PruneStalePeers: does not prune the rate limiter, which `Discovery` does not hold.
- Beacons on the wire (JSON) and local network interfaces: `Discovery` takes parsed beacons; its rate limiter is the one of `RateLimiter` with another threshold for pruning.
- The transport state machine of `LANTransport` (READY, SCANNING, ...): read by the user interface only.
- Packaging builders, SVG rasterising and resampling: subprocesses and floating point.
- Nim FFI and benchmarks: wrappers over a native library that is not part of this model.
