/** Length-prefixed frames on a TCP stream (src/bitchat/network/framing.py). */
module Framing {
  import opened Wrappers
  import opened ByteStrings

  const FRAME_MAGIC: Bytes := [0x42, 0x43, 0x01, 0x00]
  const HEADER_SIZE := 8
  const MAX_FRAME_SIZE := 65536

  datatype FramingError = FramingError

  function FrameBytes(payload: Bytes): Bytes {
    FRAME_MAGIC + BigEndian(|payload|, 4) + payload
  }

  function EncodeFrame(payload: Bytes): Result<Bytes, FramingError> {
    if |payload| > MAX_FRAME_SIZE then Failure(FramingError) else Success(FrameBytes(payload))
  }

  /** Four fixed bytes, the length in four bytes with the most significant first, and the payload. */
  lemma FrameLayout(payload: Bytes)
    ensures var frame := FrameBytes(payload);
            && |frame| == 8 + |payload| && frame[..4] == [66, 67, 1, 0] && frame[8..] == payload
            && forall i :: 4 <= i < 8 ==> frame[i] == Shifted(|payload|, 7 - i) % 256
    ensures EncodeFrame(payload) == if |payload| <= 65536 then Success(FrameBytes(payload)) else Failure(FramingError)
  {
    forall i | 0 <= i < 4 ensures BigEndian(|payload|, 4)[i] == Shifted(|payload|, 3 - i) % 256 {
      BigEndianAt(|payload|, 4, i);
    }
  }

  /** What the head of a buffer is: too short to tell, a bad header, or a whole frame. */
  datatype Head = Incomplete | BadHeader | Frame(payload: Bytes, rest: Bytes)

  function ReadHead(buffer: Bytes, maxFrameSize: int): (h: Head)
    ensures h.Frame? ==> |h.rest| < |buffer|
  {
    if |buffer| < HEADER_SIZE then Incomplete
    else if buffer[..4] != FRAME_MAGIC then BadHeader
    else
      var payloadLength := FromBigEndian(buffer[4..8]);
      if payloadLength > maxFrameSize then BadHeader
      else if |buffer| < HEADER_SIZE + payloadLength then Incomplete
      else Frame(buffer[HEADER_SIZE..HEADER_SIZE + payloadLength], buffer[HEADER_SIZE + payloadLength..])
  }

  /** The payloads cut from a buffer, what is left of it, and whether a bad header was met. */
  datatype Extraction = Extraction(frames: seq<Bytes>, rest: Bytes, failed: bool)
  {
    function Prepend(earlier: seq<Bytes>): Extraction {
      Extraction(earlier + frames, rest, failed)
    }
  }

  function Extract(buffer: Bytes, maxFrameSize: int): Extraction
    decreases |buffer|
  {
    match ReadHead(buffer, maxFrameSize)
    case Incomplete => Extraction([], buffer, false)
    case BadHeader => Extraction([], buffer, true)
    case Frame(payload, rest) => Extract(rest, maxFrameSize).Prepend([payload])
  }

  class StreamFramer {
    const maxFrameSize: int
    var buffer: Bytes

    constructor (maxFrameSize: int)
      ensures this.maxFrameSize == maxFrameSize && buffer == []
    {
      this.maxFrameSize, buffer := maxFrameSize, [];
    }

    /** Frames already cut in this call are lost when a later header is bad. */
    method Feed(chunk: Bytes) returns (r: Result<seq<Bytes>, FramingError>)
      modifies this`buffer
      ensures var e := Extract(old(buffer) + chunk, maxFrameSize);
              && buffer == e.rest
              && r == if e.failed then Failure(FramingError) else Success(e.frames)
    {
      buffer := buffer + chunk;
      ghost var whole := buffer;
      var frames: seq<Bytes> := [];
      while |buffer| >= HEADER_SIZE
        invariant Extract(whole, maxFrameSize) == Extract(buffer, maxFrameSize).Prepend(frames)
        decreases |buffer|
      {
        if buffer[..4] != FRAME_MAGIC {
          return Failure(FramingError);
        }
        var payloadLength := FromBigEndian(buffer[4..8]);
        if payloadLength > maxFrameSize {
          return Failure(FramingError);
        }
        var totalFrameLen := HEADER_SIZE + payloadLength;
        if |buffer| < totalFrameLen {
          break;
        }
        var payload := buffer[HEADER_SIZE..totalFrameLen];
        assert ReadHead(buffer, maxFrameSize) == Frame(payload, buffer[totalFrameLen..]);
        PrependTwice(Extract(buffer[totalFrameLen..], maxFrameSize), frames, [payload]);
        buffer := buffer[totalFrameLen..];
        frames := frames + [payload];
      }
      assert frames + [] == frames;
      return Success(frames);
    }

    method Clear()
      modifies this`buffer
      ensures buffer == []
    {
      buffer := [];
    }
  }

  lemma PrependTwice(e: Extraction, a: seq<Bytes>, b: seq<Bytes>)
    ensures e.Prepend(b).Prepend(a) == e.Prepend(a + b)
  {
    Associative(a, b, e.frames);
  }

  // ---- the head of a buffer ----

  /** Later bytes do not change what the head of a buffer was seen to be. */
  lemma HeadIsStable(a: Bytes, b: Bytes, maxFrameSize: int)
    ensures match ReadHead(a, maxFrameSize)
            case Incomplete => true
            case BadHeader => ReadHead(a + b, maxFrameSize) == BadHeader
            case Frame(payload, rest) => ReadHead(a + b, maxFrameSize) == Frame(payload, rest + b)
  {
    if |a| >= HEADER_SIZE {
      var c := a + b;
      assert c[..4] == a[..4] && c[4..8] == a[4..8];
      var total := HEADER_SIZE + FromBigEndian(a[4..8]);
      if total <= |a| {
        assert c[HEADER_SIZE..total] == a[HEADER_SIZE..total];
        assert c[total..] == a[total..] + b;
      }
    }
  }

  /** A head is read as a frame exactly when the buffer starts with that frame, encoded, within the limit. */
  lemma HeadIsFrame(buffer: Bytes, payload: Bytes, rest: Bytes, maxFrameSize: int)
    ensures ReadHead(buffer, maxFrameSize) == Frame(payload, rest)
            <==> buffer == FrameBytes(payload) + rest && |payload| <= maxFrameSize && |payload| < 0x1_0000_0000
  {
    Pow256Four();
    if ReadHead(buffer, maxFrameSize) == Frame(payload, rest) {
      FromBigEndianRoundTrip(buffer[4..8]);
      var total := HEADER_SIZE + |payload|;
      assert FrameBytes(payload) == buffer[..4] + buffer[4..8] + buffer[8..total];
      assert buffer == buffer[..4] + buffer[4..8] + buffer[8..total] + buffer[total..];
    }
    if buffer == FrameBytes(payload) + rest && |payload| <= maxFrameSize && |payload| < 0x1_0000_0000 {
      BigEndianRoundTrip(|payload|, 4);
      assert buffer[..4] == FRAME_MAGIC;
      assert buffer[4..8] == BigEndian(|payload|, 4);
      assert buffer[8..8 + |payload|] == payload;
      assert buffer[8 + |payload|..] == rest;
    }
  }

  // ---- cutting a buffer in two steps ----

  /** Bytes that come later never change what was cut before, nor mend a bad header. */
  lemma {:induction false} ExtractContinues(a: Bytes, b: Bytes, maxFrameSize: int)
    ensures var first := Extract(a, maxFrameSize);
            Extract(a + b, maxFrameSize)
            == if first.failed then Extraction(first.frames, first.rest + b, true)
               else Extract(first.rest + b, maxFrameSize).Prepend(first.frames)
    decreases |a|
  {
    HeadIsStable(a, b, maxFrameSize);
    match ReadHead(a, maxFrameSize) {
      case Incomplete => PrependNothing(Extract(a + b, maxFrameSize));
      case BadHeader =>
      case Frame(payload, rest) =>
        ExtractContinues(rest, b, maxFrameSize);
        var first := Extract(rest, maxFrameSize);
        PrependTwice(Extract(first.rest + b, maxFrameSize), [payload], first.frames);
    }
  }

  lemma PrependNothing(e: Extraction)
    ensures e.Prepend([]) == e
  {
    assert [] + e.frames == e.frames;
  }

  function FrameStream(payloads: seq<Bytes>): Bytes {
    if payloads == [] then [] else FrameBytes(payloads[0]) + FrameStream(payloads[1..])
  }

  ghost predicate Sendable(payloads: seq<Bytes>, maxFrameSize: int) {
    forall i :: 0 <= i < |payloads| ==> |payloads[i]| <= maxFrameSize && |payloads[i]| < 0x1_0000_0000
  }

  /** Whatever the outcome, the frames and the rest account for every byte of the buffer. */
  lemma {:induction false} ExtractLosesNothing(buffer: Bytes, maxFrameSize: int)
    ensures var e := Extract(buffer, maxFrameSize);
            FrameStream(e.frames) + e.rest == buffer && Sendable(e.frames, maxFrameSize)
    decreases |buffer|
  {
    match ReadHead(buffer, maxFrameSize) {
      case Incomplete =>
      case BadHeader =>
      case Frame(payload, rest) =>
        ExtractLosesNothing(rest, maxFrameSize);
        HeadIsFrame(buffer, payload, rest, maxFrameSize);
        var e := Extract(rest, maxFrameSize);
        assert ([payload] + e.frames)[1..] == e.frames;
        Associative(FrameBytes(payload), FrameStream(e.frames), e.rest);
    }
  }

  /** Frames that were encoded are cut out again, whatever follows them. */
  lemma {:induction false} ExtractFrames(payloads: seq<Bytes>, tail: Bytes, maxFrameSize: int)
    requires Sendable(payloads, maxFrameSize)
    ensures Extract(FrameStream(payloads) + tail, maxFrameSize) == Extract(tail, maxFrameSize).Prepend(payloads)
  {
    if payloads == [] {
      assert FrameStream(payloads) + tail == tail;
      PrependNothing(Extract(tail, maxFrameSize));
    } else {
      ExtractFrames(payloads[1..], tail, maxFrameSize);
      ExtractOneFrame(payloads[0], FrameStream(payloads[1..]), tail, maxFrameSize);
      PrependTwice(Extract(tail, maxFrameSize), [payloads[0]], payloads[1..]);
      assert [payloads[0]] + payloads[1..] == payloads;
    }
  }

  lemma ExtractOneFrame(payload: Bytes, later: Bytes, tail: Bytes, maxFrameSize: int)
    requires |payload| <= maxFrameSize && |payload| < 0x1_0000_0000
    ensures Extract(FrameBytes(payload) + later + tail, maxFrameSize)
            == Extract(later + tail, maxFrameSize).Prepend([payload])
  {
    Associative(FrameBytes(payload), later, tail);
    HeadIsFrame(FrameBytes(payload) + (later + tail), payload, later + tail, maxFrameSize);
  }

  /** After a call that did not raise, less than one maximal frame is buffered. */
  lemma {:induction false} ResidueBound(buffer: Bytes, maxFrameSize: int)
    requires maxFrameSize >= 0
    ensures var e := Extract(buffer, maxFrameSize);
            !e.failed ==> |e.rest| < HEADER_SIZE + maxFrameSize || |e.rest| < HEADER_SIZE
    decreases |buffer|
  {
    match ReadHead(buffer, maxFrameSize) {
      case Incomplete =>
      case BadHeader =>
      case Frame(payload, rest) => ResidueBound(rest, maxFrameSize);
    }
  }

  /** What a call leaves buffered holds no complete frame. */
  lemma {:induction false} RestIsIncomplete(buffer: Bytes, maxFrameSize: int)
    ensures var e := Extract(buffer, maxFrameSize);
            Extract(e.rest, maxFrameSize) == Extraction([], e.rest, e.failed)
    decreases |buffer|
  {
    match ReadHead(buffer, maxFrameSize) {
      case Incomplete =>
      case BadHeader =>
      case Frame(payload, rest) => RestIsIncomplete(rest, maxFrameSize);
    }
  }

  // ---- a stream read in chunks ----

  /** Feeding chunk after chunk until one call raises: what the calls returned, and the buffer after the last. */
  function Feeds(buffer: Bytes, chunks: seq<Bytes>, maxFrameSize: int): Extraction
    decreases chunks
  {
    if chunks == [] then Extraction([], buffer, false)
    else
      var e := Extract(buffer + chunks[0], maxFrameSize);
      if e.failed then Extraction([], e.rest, true)
      else
        var later := Feeds(e.rest, chunks[1..], maxFrameSize);
        later.Prepend(e.frames)
  }

  /** Chunking is invisible: a stream without a bad header yields the same frames and the same residue however it is
      cut, and whether a bad header is met depends on the bytes alone. */
  lemma {:induction false} ChunkingIndependent(buffer: Bytes, chunks: seq<Bytes>, maxFrameSize: int)
    requires Extract(buffer, maxFrameSize) == Extraction([], buffer, false)
    ensures var whole, fed := Extract(buffer + Concat(chunks), maxFrameSize), Feeds(buffer, chunks, maxFrameSize);
            && fed.failed == whole.failed
            && (!whole.failed ==> fed == whole)
            && fed.frames <= whole.frames
    decreases chunks
  {
    if chunks == [] {
      assert buffer + [] == buffer;
    } else {
      var a, b := buffer + chunks[0], Concat(chunks[1..]);
      assert buffer + Concat(chunks) == a + b;
      ExtractContinues(a, b, maxFrameSize);
      var first := Extract(a, maxFrameSize);
      if !first.failed {
        RestIsIncomplete(a, maxFrameSize);
        ChunkingIndependent(first.rest, chunks[1..], maxFrameSize);
      }
    }
  }

  /** The one thing chunking decides: when a bad header is met, the frames lost are exactly those completed by the
      call that meets it. So nothing is lost if and only if that call completes no frame. */
  lemma FramesLostByFailingFeed(buffer: Bytes, before: seq<Bytes>, bad: Bytes, maxFrameSize: int)
    requires Extract(buffer, maxFrameSize) == Extraction([], buffer, false)
    requires !Extract(buffer + Concat(before), maxFrameSize).failed
    requires Extract(buffer + Concat(before) + bad, maxFrameSize).failed
    ensures var whole := Extract(buffer + Concat(before) + bad, maxFrameSize);
            var fed := Feeds(buffer, before + [bad], maxFrameSize);
            var held := Feeds(buffer, before, maxFrameSize).rest;
            && whole.frames == fed.frames + Extract(held + bad, maxFrameSize).frames
            && (fed.frames == whole.frames <==> Extract(held + bad, maxFrameSize).frames == [])
  {
    ChunkingIndependent(buffer, before, maxFrameSize);
    ExtractContinues(buffer + Concat(before), bad, maxFrameSize);
    FeedsSplit(buffer, before, bad, maxFrameSize);
  }

  const NO_HEADER: Bytes := [0, 0, 0, 0, 0, 0, 0, 0]

  lemma BadHeaderFails(maxFrameSize: int)
    ensures Extract(NO_HEADER, maxFrameSize) == Extraction([], NO_HEADER, true)
  {
    assert NO_HEADER[..4][0] == 0 && FRAME_MAGIC[0] == 0x42;
  }

  lemma FrameThen(payload: Bytes, tail: Bytes, maxFrameSize: int)
    requires |payload| <= maxFrameSize && |payload| < 0x1_0000_0000
    ensures Extract(FrameBytes(payload) + tail, maxFrameSize) == Extract(tail, maxFrameSize).Prepend([payload])
  {
    HeadIsFrame(FrameBytes(payload) + tail, payload, tail, maxFrameSize);
  }

  /** A single call, from an empty buffer. */
  lemma FeedsOnce(chunk: Bytes, maxFrameSize: int)
    ensures var e := Extract(chunk, maxFrameSize);
            Feeds([], [chunk], maxFrameSize) == if e.failed then Extraction([], e.rest, true) else e
  {
    var e := Extract(chunk, maxFrameSize);
    assert [] + chunk == chunk && [chunk][1..] == [];
    assert Feeds(e.rest, [], maxFrameSize) == Extraction([], e.rest, false);
    assert e.frames + [] == e.frames;
  }

  lemma FrameFedFirst(payload: Bytes, maxFrameSize: int)
    requires |payload| <= maxFrameSize && |payload| < 0x1_0000_0000
    ensures Feeds([], [FrameBytes(payload)], maxFrameSize) == Extraction([payload], [], false)
  {
    FrameThen(payload, [], maxFrameSize);
    assert FrameBytes(payload) + [] == FrameBytes(payload);
    FeedsOnce(FrameBytes(payload), maxFrameSize);
  }

  /** A frame followed by a bad header: fed in one call the frame is lost, fed in two it has been returned before. */
  lemma FrameLost(payload: Bytes, maxFrameSize: int)
    requires |payload| <= maxFrameSize && |payload| < 0x1_0000_0000
    ensures Feeds([], [FrameBytes(payload) + NO_HEADER], maxFrameSize) == Extraction([], NO_HEADER, true)
    ensures Feeds([], [FrameBytes(payload)] + [NO_HEADER], maxFrameSize) == Extraction([payload], NO_HEADER, true)
  {
    BadHeaderFails(maxFrameSize);
    FrameThen(payload, NO_HEADER, maxFrameSize);
    FeedsOnce(FrameBytes(payload) + NO_HEADER, maxFrameSize);
    FrameFedFirst(payload, maxFrameSize);
    FeedsSplit([], [FrameBytes(payload)], NO_HEADER, maxFrameSize);
    assert [] + NO_HEADER == NO_HEADER;
  }

  lemma {:induction false} FeedsSplit(buffer: Bytes, before: seq<Bytes>, last: Bytes, maxFrameSize: int)
    requires !Feeds(buffer, before, maxFrameSize).failed
    ensures var f := Feeds(buffer, before, maxFrameSize);
            var e := Extract(f.rest + last, maxFrameSize);
            Feeds(buffer, before + [last], maxFrameSize)
            == if e.failed then Extraction(f.frames, e.rest, true) else e.Prepend(f.frames)
    decreases before
  {
    if before == [] {
      assert [last][1..] == [];
      var e := Extract(buffer + last, maxFrameSize);
      assert Feeds(e.rest, [], maxFrameSize) == Extraction([], e.rest, false);
      assert e.frames + [] == e.frames;
      PrependNothing(e);
    } else {
      var e := Extract(buffer + before[0], maxFrameSize);
      assert (before + [last])[1..] == before[1..] + [last];
      FeedsSplit(e.rest, before[1..], last, maxFrameSize);
      var f := Feeds(e.rest, before[1..], maxFrameSize);
      PrependTwice(Extract(f.rest + last, maxFrameSize), e.frames, f.frames);
    }
  }

  /** Round trip: encoded frames, cut into any chunks, come back as the payloads in order with nothing left over. */
  lemma StreamRoundTrip(payloads: seq<Bytes>, chunks: seq<Bytes>, maxFrameSize: int)
    requires Sendable(payloads, maxFrameSize) && Concat(chunks) == FrameStream(payloads)
    ensures Feeds([], chunks, maxFrameSize) == Extraction(payloads, [], false)
  {
    WholeStream(payloads, maxFrameSize);
    assert [] + Concat(chunks) == Concat(chunks);
    ChunkingIndependent([], chunks, maxFrameSize);
  }

  /** At every moment in between, the payloads so far are the first ones sent, and with the residue they are
      exactly the bytes received. */
  lemma StreamPrefix(payloads: seq<Bytes>, chunks: seq<Bytes>, maxFrameSize: int)
    requires Sendable(payloads, maxFrameSize) && Concat(chunks) <= FrameStream(payloads)
    ensures var fed := Feeds([], chunks, maxFrameSize);
            && !fed.failed && fed.frames <= payloads
            && FrameStream(fed.frames) + fed.rest == Concat(chunks)
  {
    var a := Concat(chunks);
    WholeStream(payloads, maxFrameSize);
    ExtractPrefix(a, FrameStream(payloads), maxFrameSize);
    assert [] + a == a;
    ChunkingIndependent([], chunks, maxFrameSize);
    ExtractLosesNothing(a, maxFrameSize);
  }

  lemma WholeStream(payloads: seq<Bytes>, maxFrameSize: int)
    requires Sendable(payloads, maxFrameSize)
    ensures Extract(FrameStream(payloads), maxFrameSize) == Extraction(payloads, [], false)
  {
    ExtractFrames(payloads, [], maxFrameSize);
    assert FrameStream(payloads) + [] == FrameStream(payloads);
    assert payloads + [] == payloads;
  }

  /** A prefix of a good buffer is good and yields the first frames. */
  lemma ExtractPrefix(a: Bytes, whole: Bytes, maxFrameSize: int)
    requires a <= whole && !Extract(whole, maxFrameSize).failed
    ensures !Extract(a, maxFrameSize).failed && Extract(a, maxFrameSize).frames <= Extract(whole, maxFrameSize).frames
  {
    assert a + whole[|a|..] == whole;
    ExtractContinues(a, whole[|a|..], maxFrameSize);
  }
}
