/** Frames on a link, parsed twice: the firmware takes one byte at a time
    (src/service/telemetry.c), the host scans a growing buffer (web/protocol.js). */
module Framing {
  import opened Bytes

  const MAGIC_BYTE_0: uint8 := 0x5a
  const MAGIC_BYTE_1: uint8 := 0x50
  const HEADER_SIZE: nat := 5

  /** The longest payload the firmware accepts, ZPT_MAX_REQUEST_PAYLOAD. */
  const MAX_REQUEST_PAYLOAD: nat := 128

  datatype Frame = Frame(kind: uint8, payload: seq<uint8>)

  ghost predicate Encodable(frame: Frame) {
    |frame.payload| < 0x1_0000
  }

  function EncodeFrame(frame: Frame): seq<uint8>
    requires Encodable(frame)
  {
    [MAGIC_BYTE_0, MAGIC_BYTE_1, frame.kind] + Le16(|frame.payload|) + frame.payload
  }

  ghost function Encodings(frames: seq<Frame>): seq<uint8>
    requires forall frame <- frames :: Encodable(frame)
  {
    if frames == [] then [] else EncodeFrame(frames[0]) + Encodings(frames[1..])
  }

  // ----- the host's decoder -----

  /** Where the search for a frame stops: the first magic pair, or else the last byte. */
  function Seek(buffer: seq<uint8>): (rest: seq<uint8>)
    ensures |rest| <= |buffer| && (buffer == [] <==> rest == [])
  {
    if |buffer| >= 2 && !StartsWithMagic(buffer) then Seek(buffer[1..]) else buffer
  }

  predicate StartsWithMagic(buffer: seq<uint8>) {
    |buffer| >= 2 && buffer[0] == MAGIC_BYTE_0 && buffer[1] == MAGIC_BYTE_1
  }

  function HeaderLength(buffer: seq<uint8>): uint16
    requires |buffer| >= HEADER_SIZE
  {
    GetLe16(buffer, 3)
  }

  predicate Complete(buffer: seq<uint8>) {
    |buffer| >= HEADER_SIZE && |buffer| - HEADER_SIZE >= HeaderLength(buffer)
  }

  /** The frame at the front of a buffer that holds all of it. */
  function FrameOf(buffer: seq<uint8>): Frame
    requires Complete(buffer)
  {
    Frame(buffer[2], buffer[HEADER_SIZE..HEADER_SIZE + HeaderLength(buffer)])
  }

  function AfterFrame(buffer: seq<uint8>): (rest: seq<uint8>)
    requires Complete(buffer)
    ensures |rest| < |buffer|
  {
    buffer[HEADER_SIZE + HeaderLength(buffer)..]
  }

  datatype Scanned = Scanned(frames: seq<Frame>, rest: seq<uint8>)

  /** The frames in `buffer`, and the bytes kept for the next chunk. */
  function Scan(buffer: seq<uint8>): Scanned
    decreases |buffer|
  {
    var found := Seek(buffer);
    if Complete(found) then
      var more := Scan(AfterFrame(found));
      Scanned([FrameOf(found)] + more.frames, more.rest)
    else
      Scanned([], found)
  }

  /** What the decoder keeps: at most one byte, or the start of a frame still incomplete. */
  ghost predicate Partial(rest: seq<uint8>) {
    |rest| <= 1 || (StartsWithMagic(rest) && !Complete(rest))
  }

  lemma {:induction false} SeekStops(buffer: seq<uint8>)
    ensures |Seek(buffer)| <= 1 || StartsWithMagic(Seek(buffer))
    decreases |buffer|
  {
    if |buffer| >= 2 && !StartsWithMagic(buffer) {
      SeekStops(buffer[1..]);
    }
  }

  lemma {:induction false} RestIsPartial(buffer: seq<uint8>)
    ensures Partial(Scan(buffer).rest)
    decreases |buffer|
  {
    SeekStops(buffer);
    var found := Seek(buffer);
    if Complete(found) {
      RestIsPartial(AfterFrame(found));
    }
  }

  // ----- chunks do not matter -----

  /** Skipped bytes may be forgotten before the next chunk arrives. */
  lemma {:induction false} SeekMore(a: seq<uint8>, b: seq<uint8>)
    ensures Seek(a + b) == Seek(Seek(a) + b)
    decreases |a|
  {
    if |a| >= 2 && !StartsWithMagic(a) {
      assert (a + b)[1..] == a[1..] + b;
      SeekMore(a[1..], b);
    }
  }

  lemma CompleteMore(found: seq<uint8>, b: seq<uint8>)
    requires Complete(found)
    ensures Complete(found + b) && FrameOf(found + b) == FrameOf(found)
    ensures AfterFrame(found + b) == AfterFrame(found) + b
  {
    var end := HEADER_SIZE + HeaderLength(found);
    assert (found + b)[HEADER_SIZE..end] == found[HEADER_SIZE..end];
    assert (found + b)[end..] == found[end..] + b;
  }

  lemma SeekFrame(found: seq<uint8>)
    requires StartsWithMagic(found)
    ensures Seek(found) == found
  {
  }

  lemma ScanSought(a: seq<uint8>, b: seq<uint8>)
    ensures Scan(a + b) == Scan(Seek(a) + b)
  {
    SeekMore(a, b);
  }

  ghost function Onto(frames: seq<Frame>, scanned: Scanned): Scanned {
    Scanned(frames + scanned.frames, scanned.rest)
  }

  lemma ScanFrame(found: seq<uint8>)
    requires StartsWithMagic(found) && Complete(found)
    ensures Scan(found) == Onto([FrameOf(found)], Scan(AfterFrame(found)))
  {
    SeekFrame(found);
  }

  lemma OntoTwice(a: seq<Frame>, b: seq<Frame>, scanned: Scanned)
    ensures Onto(a, Onto(b, scanned)) == Onto(a + b, scanned)
  {
    assert a + (b + scanned.frames) == a + b + scanned.frames;
  }

  /** Scanning in two chunks, keeping the rest of the first, finds what scanning both at once
      finds and keeps the same bytes. */
  lemma {:induction false} ChunksAgree(a: seq<uint8>, b: seq<uint8>)
    ensures Scan(a + b) == Onto(Scan(a).frames, Scan(Scan(a).rest + b))
    decreases |a|
  {
    hide Complete, FrameOf, AfterFrame, Seek, StartsWithMagic;
    var found := Seek(a);
    ScanSought(a, b);
    SeekStops(a);
    if Complete(found) {
      FramesStartWithMagic(a);
      CompleteMore(found, b);
      MagicMore(found, b);
      ScanFrame(found + b);
      ChunksAgree(AfterFrame(found), b);
      OntoTwice([FrameOf(found)], Scan(AfterFrame(found)).frames, Scan(Scan(a).rest + b));
    }
  }

  lemma FramesStartWithMagic(a: seq<uint8>)
    requires Complete(Seek(a))
    ensures StartsWithMagic(Seek(a))
  {
    SeekStops(a);
  }

  lemma MagicMore(found: seq<uint8>, b: seq<uint8>)
    requires StartsWithMagic(found)
    ensures StartsWithMagic(found + b)
  {
  }

  /** What a decoder holding `buffer` has returned after `chunks`, one push each. */
  ghost function PushAll(buffer: seq<uint8>, chunks: seq<seq<uint8>>): Scanned
    decreases |chunks|
  {
    if chunks == [] then Scanned([], buffer)
    else
      var first := Scan(buffer + chunks[0]);
      Onto(first.frames, PushAll(first.rest, chunks[1..]))
  }

  ghost function Stream(chunks: seq<seq<uint8>>): seq<uint8>
    decreases |chunks|
  {
    if chunks == [] then [] else chunks[0] + Stream(chunks[1..])
  }

  lemma RestScans(rest: seq<uint8>)
    requires Partial(rest)
    ensures Scan(rest) == Scanned([], rest)
  {
  }

  /** However a stream is cut into chunks, the pushes together return the frames one push of
      the whole stream returns, and leave the same bytes behind. */
  lemma {:induction false} AnyChunking(buffer: seq<uint8>, chunks: seq<seq<uint8>>)
    requires Partial(buffer)
    ensures PushAll(buffer, chunks) == Scan(buffer + Stream(chunks))
    decreases |chunks|
  {
    if chunks == [] {
      assert buffer + Stream(chunks) == buffer;
      RestScans(buffer);
    } else {
      var first, others := chunks[0], chunks[1..];
      AppendAssociates(buffer, first, Stream(others));
      ChunksAgree(buffer + first, Stream(others));
      RestIsPartial(buffer + first);
      AnyChunking(Scan(buffer + first).rest, others);
    }
  }

  // ----- round trip -----

  lemma EncodedIsComplete(frame: Frame, more: seq<uint8>)
    requires Encodable(frame)
    ensures StartsWithMagic(EncodeFrame(frame) + more) && Complete(EncodeFrame(frame) + more)
    ensures FrameOf(EncodeFrame(frame) + more) == frame
    ensures AfterFrame(EncodeFrame(frame) + more) == more
  {
    var found := EncodeFrame(frame);
    assert found[3] == Le16(|frame.payload|)[0] && found[4] == Le16(|frame.payload|)[1];
    assert HeaderLength(found) == |frame.payload|;
    assert found[HEADER_SIZE..HEADER_SIZE + |frame.payload|] == frame.payload;
    CompleteMore(found, more);
    assert AfterFrame(found) == [];
  }

  /** Frames sent back to back, in any chunks, come out as they went in and leave nothing. */
  lemma {:induction false} FramesRoundTrip(frames: seq<Frame>, chunks: seq<seq<uint8>>)
    requires forall frame <- frames :: Encodable(frame)
    requires Stream(chunks) == Encodings(frames)
    ensures PushAll([], chunks) == Scanned(frames, [])
  {
    AnyChunking([], chunks);
    assert [] + Stream(chunks) == Encodings(frames);
    EncodingsScan(frames);
  }

  lemma {:induction false} EncodingsScan(frames: seq<Frame>)
    requires forall frame <- frames :: Encodable(frame)
    ensures Scan(Encodings(frames)) == Scanned(frames, [])
    decreases |frames|
  {
    hide Complete, FrameOf, AfterFrame, EncodeFrame;
    if frames != [] {
      EncodedIsComplete(frames[0], Encodings(frames[1..]));
      ScanFrame(Encodings(frames));
      EncodingsScan(frames[1..]);
    }
  }

  /** `FrameDecoder`. */
  class FrameDecoder {
    var buffer: seq<uint8>

    constructor ()
      ensures buffer == []
    {
      buffer := [];
    }

    method Push(chunk: seq<uint8>) returns (frames: seq<Frame>)
      modifies this
      ensures Scanned(frames, buffer) == Scan(old(buffer) + chunk)
    {
      var merged := buffer + chunk;
      frames, buffer := Collect(merged);
    }

    /** The frames in `merged` and what is left of it. */
    method Collect(merged: seq<uint8>) returns (frames: seq<Frame>, rest: seq<uint8>)
      ensures Scanned(frames, rest) == Scan(merged)
    {
      var offset := 0;
      frames := [];
      Start(merged);
      while offset < |merged|
        invariant ScanningFrom(merged, offset, frames)
        decreases |merged| - offset
      {
        var frame;
        frame, offset := NextFrame(merged, offset, frames);
        if frame.None? {
          break;
        }
        frames := frames + [frame.value];
      }
      Stop(merged, offset, frames);
      rest := merged[offset..];
    }

    /** The frame at or after `start` if all of it is there, and where to go on. */
    method NextFrame(merged: seq<uint8>, start: nat, ghost frames: seq<Frame>)
        returns (frame: Option<Frame>, offset: nat)
      requires start < |merged| && ScanningFrom(merged, start, frames)
      ensures offset <= |merged|
      ensures frame.Some? ==> start < offset && ScanningFrom(merged, offset, frames + [frame.value])
      ensures frame.None? ==> ScanningFrom(merged, offset, frames) && Partial(merged[offset..])
    {
      hide ScanningFrom, Partial, StartsWithMagic;
      offset := SkipToMagic(merged, start, frames);
      if |merged| - offset < HEADER_SIZE {
        TooShort(merged, offset);
        return None, offset;
      }
      var length := GetLe16(merged, offset + 3);
      if |merged| - offset < HEADER_SIZE + length {
        FrameCut(merged, offset, length);
        return None, offset;
      }
      TakeFrame(merged, offset, frames, length);
      frame := Some(Frame(merged[offset + 2], merged[offset + HEADER_SIZE..offset + HEADER_SIZE + length]));
      offset := offset + HEADER_SIZE + length;
    }

    method SkipToMagic(merged: seq<uint8>, start: nat, ghost frames: seq<Frame>) returns (offset: nat)
      requires start < |merged| && ScanningFrom(merged, start, frames)
      ensures start <= offset < |merged| && ScanningFrom(merged, offset, frames)
      ensures offset + 1 == |merged| || StartsWithMagic(merged[offset..])
    {
      offset := start;
      while offset + 1 < |merged| && (merged[offset] != MAGIC_BYTE_0 || merged[offset + 1] != MAGIC_BYTE_1)
        invariant start <= offset < |merged|
        invariant ScanningFrom(merged, offset, frames)
        decreases |merged| - offset
      {
        Skip(merged, offset, frames);
        offset := offset + 1;
      }
    }
  }

  /** The frames before `offset` are found; scanning on from there finds the others. */
  ghost predicate ScanningFrom(merged: seq<uint8>, offset: nat, frames: seq<Frame>) {
    offset <= |merged| && Scan(merged) == Onto(frames, Scan(merged[offset..]))
  }

  lemma Skip(merged: seq<uint8>, offset: nat, frames: seq<Frame>)
    requires ScanningFrom(merged, offset, frames)
    requires offset + 1 < |merged| && (merged[offset] != MAGIC_BYTE_0 || merged[offset + 1] != MAGIC_BYTE_1)
    ensures ScanningFrom(merged, offset + 1, frames)
  {
    assert merged[offset..][1..] == merged[offset + 1..];
  }

  lemma FrameAt(merged: seq<uint8>, offset: nat, length: nat)
    requires offset + HEADER_SIZE + length <= |merged| && length == GetLe16(merged, offset + 3)
    ensures Complete(merged[offset..])
    ensures FrameOf(merged[offset..]) == Frame(merged[offset + 2], merged[offset + HEADER_SIZE..offset + HEADER_SIZE + length])
    ensures AfterFrame(merged[offset..]) == merged[offset + HEADER_SIZE + length..]
  {
    var found := merged[offset..];
    assert found[HEADER_SIZE..HEADER_SIZE + length] == merged[offset + HEADER_SIZE..offset + HEADER_SIZE + length];
    assert found[HEADER_SIZE + length..] == merged[offset + HEADER_SIZE + length..];
  }

  lemma TakeFrame(merged: seq<uint8>, offset: nat, frames: seq<Frame>, length: nat)
    requires ScanningFrom(merged, offset, frames)
    requires offset + HEADER_SIZE + length <= |merged| && length == GetLe16(merged, offset + 3)
    requires StartsWithMagic(merged[offset..])
    ensures ScanningFrom(merged, offset + HEADER_SIZE + length,
      frames + [Frame(merged[offset + 2], merged[offset + HEADER_SIZE..offset + HEADER_SIZE + length])])
  {
    hide Scan, Complete, FrameOf, AfterFrame, Onto;
    var found := merged[offset..];
    FrameAt(merged, offset, length);
    ScanFrame(found);
    OntoTwice(frames, [FrameOf(found)], Scan(AfterFrame(found)));
  }

  lemma TooShort(merged: seq<uint8>, offset: nat)
    requires offset < |merged| < offset + HEADER_SIZE
    requires offset + 1 == |merged| || StartsWithMagic(merged[offset..])
    ensures Partial(merged[offset..])
  {
  }

  lemma FrameCut(merged: seq<uint8>, offset: nat, length: nat)
    requires offset + HEADER_SIZE <= |merged| < offset + HEADER_SIZE + length
    requires StartsWithMagic(merged[offset..]) && length == GetLe16(merged, offset + 3)
    ensures Partial(merged[offset..])
  {
  }

  lemma Start(merged: seq<uint8>)
    ensures ScanningFrom(merged, 0, [])
  {
    assert merged[0..] == merged;
  }

  lemma Stop(merged: seq<uint8>, offset: nat, frames: seq<Frame>)
    requires ScanningFrom(merged, offset, frames)
    requires offset < |merged| ==> Partial(merged[offset..])
    ensures Scan(merged) == Scanned(frames, merged[offset..])
  {
    RestScans(merged[offset..]);
  }

  // ----- the firmware's parser -----

  /** Where a byte stream stands between two bytes. */
  datatype Position =
    | Magic0
    | Magic1
    | Kind
    | Length0(kind: uint8)
    | Length1(kind: uint8, low: uint8)
    | Payload(kind: uint8, length: nat, received: seq<uint8>)

  datatype Machine = Machine(position: Position, dispatched: seq<Frame>)

  ghost function AwaitMagic(byte: uint8): Position {
    if byte == MAGIC_BYTE_0 then Magic1 else Magic0
  }

  /** What one byte does. */
  ghost function Step(m: Machine, byte: uint8): Machine {
    match m.position
    case Magic0 => m.(position := AwaitMagic(byte))
    case Magic1 => m.(position := if byte == MAGIC_BYTE_1 then Kind else AwaitMagic(byte))
    case Kind => m.(position := Length0(byte))
    case Length0(kind) => m.(position := Length1(kind, byte))
    case Length1(kind, low) =>
      var length: int := GetLe16([low, byte], 0);
      if length > MAX_REQUEST_PAYLOAD then m.(position := Magic0)
      else if length == 0 then Machine(Magic0, m.dispatched + [Frame(kind, [])])
      else m.(position := Payload(kind, length, []))
    case Payload(kind, length, received) =>
      if |received| + 1 == length then Machine(Magic0, m.dispatched + [Frame(kind, received + [byte])])
      else m.(position := Payload(kind, length, received + [byte]))
  }

  ghost function Feed(m: Machine, stream: seq<uint8>): Machine
    decreases |stream|
  {
    if stream == [] then m else Step(Feed(m, stream[..|stream| - 1]), stream[|stream| - 1])
  }

  datatype ParserState = MAGIC_0 | MAGIC_1 | TYPE | LENGTH_0 | LENGTH_1 | PAYLOAD

  /** `struct zpt_frame_parser` of one link, with the frames it has dispatched. */
  class FrameParser {
    var state: ParserState
    var kind: uint8
    var length: uint16
    var received: nat
    const payload: array<uint8>
    var dispatched: seq<Frame>

    ghost predicate Valid()
      reads this, payload
    {
      payload.Length == MAX_REQUEST_PAYLOAD &&
      (state.LENGTH_1? ==> length < 0x100) &&
      (state.PAYLOAD? ==> received < length <= MAX_REQUEST_PAYLOAD)
    }

    ghost function At(): Machine
      reads this, payload
      requires Valid()
    {
      var position := match state
        case MAGIC_0 => Magic0
        case MAGIC_1 => Magic1
        case TYPE => Kind
        case LENGTH_0 => Length0(kind)
        case LENGTH_1 => Length1(kind, length)
        case PAYLOAD => Payload(kind, length, payload[..received]);
      Machine(position, dispatched)
    }

    constructor ()
      ensures Valid() && fresh(payload) && At() == Machine(Magic0, [])
    {
      state, kind, length, received, dispatched := MAGIC_0, 0, 0, 0, [];
      payload := new uint8[MAX_REQUEST_PAYLOAD](_ => 0);
    }

    method ParseByte(byte: uint8)
      requires Valid()
      modifies this, payload
      ensures Valid() && At() == Step(old(At()), byte)
    {
      match state
      case MAGIC_0 =>
        if byte == MAGIC_BYTE_0 { state := MAGIC_1; }
      case MAGIC_1 =>
        state := if byte == MAGIC_BYTE_1 then TYPE else if byte == MAGIC_BYTE_0 then MAGIC_1 else MAGIC_0;
      case TYPE =>
        kind := byte;
        state := LENGTH_0;
      case LENGTH_0 =>
        length := byte;
        state := LENGTH_1;
      case LENGTH_1 =>
        length := length + 0x100 * byte;
        received := 0;
        if length > payload.Length {
          state := MAGIC_0;
        } else if length == 0 {
          dispatched := dispatched + [Frame(kind, [])];
          state := MAGIC_0;
        } else {
          state := PAYLOAD;
        }
      case PAYLOAD =>
        payload[received] := byte;
        received := received + 1;
        assert payload[..received] == old(payload[..received]) + [byte];
        if received == length {
          dispatched := dispatched + [Frame(kind, payload[..length])];
          state := MAGIC_0;
        }
    }
  }

  // ----- the two parsers agree -----

  /** No header met so far names more than the firmware's payload, the incomplete one at the
      end included. */
  ghost predicate FramesFit(frames: seq<Frame>) {
    forall frame <- frames :: |frame.payload| <= MAX_REQUEST_PAYLOAD
  }

  ghost predicate LastHeaderFits(rest: seq<uint8>) {
    |rest| >= HEADER_SIZE ==> HeaderLength(rest) <= MAX_REQUEST_PAYLOAD
  }

  ghost predicate HeadersFit(stream: seq<uint8>) {
    FramesFit(Scan(stream).frames) && LastHeaderFits(Scan(stream).rest)
  }

  /** The firmware's position when the host's decoder holds `rest`. */
  ghost function PositionOf(rest: seq<uint8>): Position
    requires Partial(rest)
  {
    match |rest|
    case 0 => Magic0
    case 1 => AwaitMagic(rest[0])
    case 2 => Kind
    case 3 => Length0(rest[2])
    case 4 => Length1(rest[2], rest[3])
    case _ => Payload(rest[2], HeaderLength(rest), rest[HEADER_SIZE..])
  }

  lemma ShortScan(rest: seq<uint8>)
    requires |rest| == 2
    ensures Scan(rest) == Scanned([], if StartsWithMagic(rest) then rest else [rest[1]])
  {
    if !StartsWithMagic(rest) {
      assert rest[1..] == [rest[1]];
      SeekOne(rest[1]);
    }
  }

  lemma SeekOne(byte: uint8)
    ensures Seek([byte]) == [byte]
  {
  }

  lemma FirstTwo(rest: seq<uint8>, byte: uint8)
    requires |rest| <= 1
    ensures Scan(rest + [byte]).frames == []
    ensures Partial(Scan(rest + [byte]).rest)
    ensures PositionOf(Scan(rest + [byte]).rest) == Step(Machine(PositionOf(rest), []), byte).position
  {
    hide Scan, Seek, HeaderLength;
    var next := rest + [byte];
    RestIsPartial(next);
    if |rest| == 1 {
      ShortScan(next);
    } else {
      assert next == [byte];
      RestScans(next);
    }
  }

  /** One byte onto a frame still incomplete. */
  lemma Grow(rest: seq<uint8>, byte: uint8)
    requires StartsWithMagic(rest) && !Complete(rest)
    requires Partial(rest + [byte])
    requires LastHeaderFits(rest) && LastHeaderFits(rest + [byte])
    ensures Step(Machine(PositionOf(rest), []), byte) == Machine(PositionOf(rest + [byte]), [])
  {
    var next := rest + [byte];
    if |rest| == 4 {
      assert [rest[3], byte] == next[3..5];
      assert next[HEADER_SIZE..] == [];
    } else if |rest| >= HEADER_SIZE {
      assert next[HEADER_SIZE..] == rest[HEADER_SIZE..] + [byte];
    }
  }

  /** The byte that completes a frame. */
  lemma Finish(rest: seq<uint8>, byte: uint8)
    requires StartsWithMagic(rest) && !Complete(rest)
    requires Complete(rest + [byte]) && HeaderLength(rest + [byte]) <= MAX_REQUEST_PAYLOAD
    ensures Step(Machine(PositionOf(rest), []), byte) == Machine(Magic0, [FrameOf(rest + [byte])])
    ensures AfterFrame(rest + [byte]) == []
  {
    var next := rest + [byte];
    if |rest| == 4 {
      assert [rest[3], byte] == next[3..5];
      assert next[HEADER_SIZE..HEADER_SIZE] == [];
    } else {
      assert next[HEADER_SIZE..|next|] == rest[HEADER_SIZE..] + [byte];
    }
  }

  /** One byte takes both parsers to corresponding states and the same frame, if any. */
  lemma OneByte(rest: seq<uint8>, byte: uint8)
    requires Partial(rest) && LastHeaderFits(rest)
    requires HeadersFit(rest + [byte])
    ensures Partial(Scan(rest + [byte]).rest)
    ensures Step(Machine(PositionOf(rest), []), byte)
         == Machine(PositionOf(Scan(rest + [byte]).rest), Scan(rest + [byte]).frames)
  {
    hide FrameOf, AfterFrame, HeaderLength;
    RestIsPartial(rest + [byte]);
    if |rest| <= 1 {
      FirstTwo(rest, byte);
    } else {
      MagicMore(rest, [byte]);
      SeekFrame(rest + [byte]);
      if Complete(rest + [byte]) {
        ScanFrame(rest + [byte]);
        FitsHeader(rest + [byte]);
        Finish(rest, byte);
      } else {
        Grow(rest, byte);
      }
    }
  }

  lemma FitsHeader(found: seq<uint8>)
    requires StartsWithMagic(found) && Complete(found) && FramesFit(Scan(found).frames)
    ensures HeaderLength(found) <= MAX_REQUEST_PAYLOAD
  {
    ScanFrame(found);
    assert FrameOf(found) == Scan(found).frames[0];
  }

  lemma StepAppends(m: Machine, byte: uint8)
    ensures Step(m, byte).position == Step(Machine(m.position, []), byte).position
    ensures Step(m, byte).dispatched == m.dispatched + Step(Machine(m.position, []), byte).dispatched
  {
  }

  /** A header that is too long stays too long. */
  lemma FitsBefore(stream: seq<uint8>, byte: uint8)
    requires HeadersFit(stream + [byte])
    ensures HeadersFit(stream) && HeadersFit(Scan(stream).rest + [byte])
  {
    var before := Scan(stream);
    var after := Scan(before.rest + [byte]);
    ChunksAgree(stream, [byte]);
    assert FramesFit(before.frames) by {
      forall frame <- before.frames ensures |frame.payload| <= MAX_REQUEST_PAYLOAD {
        assert frame in before.frames + after.frames;
      }
    }
    assert FramesFit(after.frames) by {
      forall frame <- after.frames ensures |frame.payload| <= MAX_REQUEST_PAYLOAD {
        assert frame in before.frames + after.frames;
      }
    }
    RestIsPartial(stream);
    if |before.rest| >= HEADER_SIZE {
      HeaderStands(before.rest, byte);
    }
  }

  lemma HeaderStands(rest: seq<uint8>, byte: uint8)
    requires Partial(rest) && |rest| >= HEADER_SIZE && HeadersFit(rest + [byte])
    ensures HeaderLength(rest) <= MAX_REQUEST_PAYLOAD
  {
    MagicMore(rest, [byte]);
    SeekFrame(rest + [byte]);
    assert HeaderLength(rest + [byte]) == HeaderLength(rest);
    if Complete(rest + [byte]) {
      FitsHeader(rest + [byte]);
    }
  }

  /** On a stream whose headers fit, the firmware has dispatched exactly the frames the host's
      decoder returns for it, and stands where that decoder's kept bytes say. */
  lemma {:induction false} ParsersAgree(stream: seq<uint8>)
    requires HeadersFit(stream)
    ensures Partial(Scan(stream).rest)
    ensures Feed(Machine(Magic0, []), stream) == Machine(PositionOf(Scan(stream).rest), Scan(stream).frames)
    decreases |stream|
  {
    hide Step, PositionOf, HeadersFit, Partial;
    RestIsPartial(stream);
    if stream == [] {
      Nothing();
    } else {
      var before, byte := stream[..|stream| - 1], stream[|stream| - 1];
      assert stream == before + [byte];
      FitsBefore(before, byte);
      ParsersAgree(before);
      ChunksAgree(before, [byte]);
      RestFits(before);
      OneByte(Scan(before).rest, byte);
      StepAppends(Feed(Machine(Magic0, []), before), byte);
    }
  }

  lemma Nothing()
    ensures Scan([]) == Scanned([], []) && PositionOf([]) == Magic0
  {
  }

  lemma RestFits(stream: seq<uint8>)
    requires HeadersFit(stream)
    ensures LastHeaderFits(Scan(stream).rest)
  {
  }

  lemma {:induction false} DispatchedFit(stream: seq<uint8>)
    ensures var m := Feed(Machine(Magic0, []), stream);
            FramesFit(m.dispatched) &&
            (m.position.Payload? ==> |m.position.received| < m.position.length <= MAX_REQUEST_PAYLOAD)
    decreases |stream|
  {
    if stream != [] {
      DispatchedFit(stream[..|stream| - 1]);
    }
  }

  /** A byte that starts no frame is skipped. */
  lemma ScanSkips(stream: seq<uint8>)
    requires |stream| >= 2 && !StartsWithMagic(stream)
    ensures Scan(stream) == Scan(stream[1..])
  {
    ScanSought([stream[0]], stream[1..]);
    assert [stream[0]] + stream[1..] == stream;
  }

  /** The bytes before those kept: the same frames, and at most one byte that is not theirs. */
  lemma {:induction false} BeforeRest(stream: seq<uint8>) returns (before: seq<uint8>)
    requires StartsWithMagic(Scan(stream).rest)
    ensures stream == before + Scan(stream).rest
    ensures Scan(before).frames == Scan(stream).frames && |Scan(before).rest| <= 1
    decreases |stream|
  {
    hide FrameOf, AfterFrame, Complete, StartsWithMagic, Scan;
    if !StartsWithMagic(stream) {
      ShortRest(stream);
      ScanSkips(stream);
      var skipped := BeforeRest(stream[1..]);
      before := [stream[0]] + skipped;
      assert before[1..] == skipped && before == stream[..|before|];
      assert stream == [stream[0]] + stream[1..];
      OneSkipped(stream, before);
    } else if Complete(stream) {
      ScanFrame(stream);
      var rest := BeforeRest(AfterFrame(stream));
      before := FrameBefore(stream, rest);
    } else {
      before := [];
      RestScans(stream);
      Nothing();
    }
  }

  /** A stream too short to hold a magic pair keeps none. */
  lemma ShortRest(stream: seq<uint8>)
    requires StartsWithMagic(Scan(stream).rest) && !StartsWithMagic(stream)
    ensures |stream| >= 2
  {
  }

  lemma OneSkipped(stream: seq<uint8>, before: seq<uint8>)
    requires |stream| >= 2 && !StartsWithMagic(stream) && 0 < |before| <= |stream| && before == stream[..|before|]
    requires |Scan(before[1..]).rest| <= 1
    ensures Scan(before).frames == Scan(before[1..]).frames && |Scan(before).rest| <= 1
  {
    if |before| >= 2 {
      ScanSkips(before);
    } else {
      RestScans(before);
      assert before[1..] == [];
      Nothing();
    }
  }

  lemma FrameBefore(stream: seq<uint8>, rest: seq<uint8>) returns (before: seq<uint8>)
    requires StartsWithMagic(stream) && Complete(stream)
    requires rest <= AfterFrame(stream) && |Scan(rest).rest| <= 1
    ensures before + AfterFrame(stream)[|rest|..] == stream
    ensures Scan(before).frames == [FrameOf(stream)] + Scan(rest).frames && |Scan(before).rest| <= 1
  {
    hide Scan, Complete, FrameOf, AfterFrame, StartsWithMagic;
    var front := stream[..|stream| - |AfterFrame(stream)|];
    before := front + rest;
    FrontComplete(stream);
    CompleteMore(front, rest);
    MagicMore(front, rest);
    ScanFrame(before);
    assert AfterFrame(front) + rest == rest;
    assert AfterFrame(stream) == rest + AfterFrame(stream)[|rest|..];
  }

  /** The first frame's own bytes hold it whole. */
  lemma FrontComplete(stream: seq<uint8>)
    requires StartsWithMagic(stream) && Complete(stream)
    ensures var front := stream[..|stream| - |AfterFrame(stream)|];
            && StartsWithMagic(front) && Complete(front) && FrameOf(front) == FrameOf(stream) && AfterFrame(front) == []
            && stream == front + AfterFrame(stream)
  {
    var front := stream[..|stream| - |AfterFrame(stream)|];
    assert front[3] == stream[3] && front[4] == stream[4];
    assert FrameOf(front).payload == FrameOf(stream).payload;
  }

  /** What was dispatched before makes no difference. */
  lemma {:induction false} FeedAppends(m: Machine, stream: seq<uint8>)
    ensures Feed(m, stream).position == Feed(Machine(m.position, []), stream).position
    ensures Feed(m, stream).dispatched == m.dispatched + Feed(Machine(m.position, []), stream).dispatched
    decreases |stream|
  {
    hide Step;
    if stream != [] {
      var before, byte := stream[..|stream| - 1], stream[|stream| - 1];
      FeedAppends(m, before);
      StepAppends(Feed(m, before), byte);
      StepAppends(Feed(Machine(m.position, []), before), byte);
    }
  }

  /** A header that is too long is dropped alone, from either position before a frame. */
  lemma HeaderDropped(rest: seq<uint8>, position: Position)
    requires StartsWithMagic(rest) && |rest| >= HEADER_SIZE && HeaderLength(rest) > MAX_REQUEST_PAYLOAD
    requires position == Magic0 || position == Magic1
    ensures Feed(Machine(position, []), rest) == Feed(Machine(Magic0, []), rest[HEADER_SIZE..])
  {
    var header := rest[..HEADER_SIZE];
    assert rest == header + rest[HEADER_SIZE..];
    FeedMore(Machine(position, []), header, rest[HEADER_SIZE..]);
    FeedFive(header, position);
  }

  lemma FeedFive(header: seq<uint8>, position: Position)
    requires |header| == HEADER_SIZE && StartsWithMagic(header) && HeaderLength(header) > MAX_REQUEST_PAYLOAD
    requires position == Magic0 || position == Magic1
    ensures Feed(Machine(position, []), header) == Machine(Magic0, [])
  {
    hide Feed;
    var m := Machine(position, []);
    FeedNext(m, header, 0);
    FeedNext(m, header, 1);
    FeedNext(m, header, 2);
    FeedNext(m, header, 3);
    FeedNext(m, header, 4);
    FeedNone(m);
    assert header[..5] == header && header[..0] == [];
    assert [header[3], header[4]] == header[3..5];
  }

  lemma FeedNone(m: Machine)
    ensures Feed(m, []) == m
  {
  }

  lemma FeedNext(m: Machine, stream: seq<uint8>, n: nat)
    requires n < |stream|
    ensures Feed(m, stream[..n + 1]) == Step(Feed(m, stream[..n]), stream[n])
  {
    assert stream[..n + 1][..n] == stream[..n];
  }

  /** A stream that ends inside a frame too long for the firmware: it has dispatched the host's
      frames, and whatever it finds in the payload so far. */
  lemma LongEnd(stream: seq<uint8>)
    requires FramesFit(Scan(stream).frames) && !LastHeaderFits(Scan(stream).rest)
    ensures Feed(Machine(Magic0, []), stream).dispatched
         == Scan(stream).frames + Feed(Machine(Magic0, []), Scan(stream).rest[HEADER_SIZE..]).dispatched
  {
    hide Scan, Feed;
    var s := Scan(stream);
    RestIsPartial(stream);
    var before := BeforeRest(stream);
    ParsersAgree(before);
    FeedMore(Machine(Magic0, []), before, s.rest);
    FeedAppends(Feed(Machine(Magic0, []), before), s.rest);
    HeaderDropped(s.rest, PositionOf(Scan(before).rest));
  }

  /** Exactly when the parsers agree, on any stream in any chunks: every frame the host finds
      fits, and the stream does not end inside a longer one in whose payload so far the firmware
      found a frame of its own. */
  lemma AgreeIffFramesFit(chunks: seq<seq<uint8>>)
    ensures var s, firmware := PushAll([], chunks), Feed(Machine(Magic0, []), Stream(chunks)).dispatched;
            firmware == s.frames
            <==> FramesFit(s.frames) &&
                 (LastHeaderFits(s.rest) || Feed(Machine(Magic0, []), s.rest[HEADER_SIZE..]).dispatched == [])
  {
    hide Scan, Feed;
    var stream := Stream(chunks);
    assert [] + stream == stream;
    AnyChunking([], chunks);
    DispatchedFit(stream);
    if FramesFit(Scan(stream).frames) {
      if LastHeaderFits(Scan(stream).rest) {
        ParsersAgree(stream);
      } else {
        LongEnd(stream);
      }
    }
  }

  lemma {:induction false} FeedMore(m: Machine, a: seq<uint8>, b: seq<uint8>)
    ensures Feed(m, a + b) == Feed(Feed(m, a), b)
    decreases |b|
  {
    if b == [] {
      assert a + b == a;
    } else {
      var early := b[..|b| - 1];
      assert (a + b)[..|a + b| - 1] == a + early;
      FeedMore(m, a, early);
    }
  }

  /** Where they differ: of a frame too long for the firmware that carries a small one, the
      host returns the outer frame, while the firmware skips the outer header alone and
      dispatches the inner frame. */
  lemma TooLongIsOpened(outer: Frame, inner: Frame)
    requires Encodable(outer) && |inner.payload| <= MAX_REQUEST_PAYLOAD < |outer.payload|
    requires outer.payload == EncodeFrame(inner)
    ensures Scan(EncodeFrame(outer)).frames == [outer]
    ensures Feed(Machine(Magic0, []), EncodeFrame(outer)) == Machine(Magic0, [inner])
  {
    hide Feed, Scan, EncodeFrame;
    AloneScans(outer);
    AloneScans(inner);
    ParsersAgree(EncodeFrame(inner));
    HeaderThenPayload(outer);
    HeaderDropped(EncodeFrame(outer), Magic0);
  }

  lemma HeaderThenPayload(frame: Frame)
    requires Encodable(frame)
    ensures EncodeFrame(frame) + [] == EncodeFrame(frame)
    ensures StartsWithMagic(EncodeFrame(frame)) && |EncodeFrame(frame)| >= HEADER_SIZE
    ensures HeaderLength(EncodeFrame(frame)) == |frame.payload| && EncodeFrame(frame)[HEADER_SIZE..] == frame.payload
  {
    var code := EncodeFrame(frame);
    assert code[3] == Le16(|frame.payload|)[0] && code[4] == Le16(|frame.payload|)[1];
  }

  lemma AloneScans(frame: Frame)
    requires Encodable(frame)
    ensures Scan(EncodeFrame(frame)) == Scanned([frame], [])
  {
    assert Encodings([]) == [];
    assert [frame][1..] == [];
    assert Encodings([frame]) == EncodeFrame(frame) + [] == EncodeFrame(frame);
    EncodingsScan([frame]);
  }
}
