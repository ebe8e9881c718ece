# Verification of the capture stream and the pipelines it records

A pointing device's firmware sends motion through stages, and can record one such pipeline's input
for exact replay on a host. This project models both and proves what they promise, in Dafny
4.11. `dafny verify dfyconfig.toml` checks everything.

**The capture stream.** `CaptureTap` is the tap on a pipeline; `TapLog` is what it submits, next
to what was true at that moment. `CaptureCodec` encodes records, whole or as deltas;
`CaptureStore` says what the byte ring holds, and `CaptureBuffer` is the ring as it runs.
`CaptureDecoder` is the host's decoder, as a specification and as the object that parses batches.
`CaptureParsing` says what that parser accepts and refuses, whatever bytes it is given.
`CaptureRoundTrip`, `CaptureLog` and `CaptureBatches` lead from one record to one batch, and
`CaptureSession` is the whole state machine: submits, a worker that reads the live ring through a
snapshot one byte at a time, a link that delivers, loses or refuses, a host that decodes.
`CaptureDrain` is the worker's round on the objects.

**Traces and replay.** `TraceSegments` splits what arrived into traces, `ReplayTime` gives their
events times, `ReplayGuard` runs them and answers the keypress guard's questions, and
`KeypressGuard` is the guard in firmware, as atomic steps interleaved with key presses.
`RecordingStats` keeps the counts shown. `Recording` joins these end to end.

**Pipelines.** `PipelineEngine` compares the engine that holds one emission with plain nested
calls, over arbitrary stages given as scripts of what they do through the engine; `Pipeline` is
that engine on objects, and `PipelineStates` what an operation leaves in its stages whatever it
returns, and when a flush is due. `PipelineLifecycle`, `PipelineValidation` and `Router` are entering
and leaving, validation, and selection with rollback; `RouteOverride` is the table of held keys.

**Around them.** `AccelerationCurve` is the monotone cubic over real numbers, `Framing` the two
frame parsers, `BluetoothWrites` the chunked link, `StageTuning` and `Tuning` the parameters and
the batches that set them, `SettingsHash` the hash both sides compute. `Bytes` has the machine
integers, `Errno` the error numbers.

Some things the proofs made precise:

- The engine agrees with nested calls exactly when no stage fails by itself, or emits another kind,
  while its emission is held (`PipelineEngine.PushExact`); stages that keep to the contract never do
  (`PipelineEngine.PushRefines`).
- When an emission is lost the engine fails after the first of the calls nested calls make
  (`PipelineEngine.PushExact`), and whatever it returns every stage is as its own calls left it
  (`PipelineStates.PushLeads`, `PipelineStates.FlushLeads`).
- A full ring drops records, and recording resumes with the first one the free bytes can hold next to
  the marker of those dropped (`CaptureSession.Resumes`).
- Whatever its stages do, a validated pipeline never refuses a signal for its kind
  (`PipelineValidation.WellFormedIsSound`).
- The frame parsers agree where frames fit the firmware's 128 bytes, and beyond that exactly when
  the stream ends inside a longer frame in whose payload the firmware has found nothing
  (`Framing.AgreeIffFramesFit`). Of a longer frame the firmware skips the header alone and reads its
  payload as a new stream, so a frame within is dispatched (`Framing.TooLongIsOpened`).
- A frame replays with another guard answer than it had exactly when the conversion left out a key
  press, by the time of the trace's first frame, that still suppresses this one
  (`ReplayGuard.GuardReplaysIff`); that takes a frame stamped between the two
  (`ReplayGuard.GuardReplaysAnyWindow`, `ReplayGuard.OlderFrameDiffers`).
- Stages and sinks belong to one pipeline each, but stage memory need not: validation compares
  addresses within one pipeline, and only for later stateful stages. Two pipelines may share the
  memory of their stateful stages (`PipelineValidation.SharedAcross`), and a stateless stage that of
  an earlier stateful one (`PipelineValidation.SharedInOne`); when memory is owned once is
  `PipelineValidation.MemoryOwnedIff`.
- A router whose validation fails leaves the pipelines before the one that failed validated, so
  another try finds them busy (`PipelineValidation.RouterDescription.Validate`).
- A batch of settings can be applied and still report a failure, when the routers cannot be unlocked
  afterwards (`Tuning.Service.SetMany`).

## Model

| member | source | states |
|---|---|---|
| CaptureSession.RoundTrip | src/observer/capture.c:505-590 | Over every interleaving of submits with unlocked reads, sends and refusals and over any ring, once everything is sent and no batch was lost the host holds exactly the records kept, field for field, each under its own number, and skipped no delta |
| CaptureSession.LossSafety | web/protocol.js:534-610 | Whichever batches never arrive, each record decoded is the one recorded under that number, in order and none twice; no delta is applied to the wrong frame |
| CaptureSession.Accounting | src/observer/capture.c:505-601 | In every reachable state the number out, stored records, stored gaps and pending gap add up to the next number, and the ring holds exactly the bytes of its items, within capacity |
| CaptureSession.Resumes | src/observer/capture.c:505-544 | In every run a record is kept exactly when the ring's free bytes are enough for it and for a marker of records dropped before it; so one that meets an empty ring of at least 25 bytes is kept, whatever was dropped before |
| CaptureSession.DeltaFromNewest | src/observer/capture.c:406-438 | In every run in which the worker does not give up, a frame is made a delta from the newest frame before it unless a record was dropped or the pipeline entered since, and takes no more bytes than that delta with its span in full |
| CaptureSession.ReceivedOrSkipped | web/protocol.js:534-610 | Whatever is lost, each record of a batch that arrived was received or counted as skipped |
| CaptureSession.UnlockedRead | src/service/telemetry.c:762-794 | While taps keep writing, the bytes the worker has read through its snapshot are a prefix of what the snapshot held, all of it still stored |
| CaptureSession.LiveByteIsSnapshot | src/observer/capture.c:487-494 | A byte read from the live ring through a stale snapshot is the byte the snapshot held there |
| CaptureSession.BuiltIsBatch | src/observer/capture.c:546-582 | The batch built from bytes read without the lock is the batch a locked peek of the snapshot gives |
| CaptureSession.SendKeeps | src/service/telemetry.c:775-792 | Consuming the snapshot's take on the live buffer keeps the buffer, the log and what the host knows in agreement, delivered or lost |
| CaptureSession.RunKeeps | src/service/telemetry.c:684-794 | Every run of submits, snapshots, reads, deliveries, losses, refusals and give-ups keeps the session invariant |
| CaptureSession.DrainProgress | src/observer/capture.c:546-582 | A batch of at least 25 bytes takes a record whenever one is stored, so draining ends |
| CaptureBatches.BatchRoundTrip | web/protocol.js:534-610 | A batch that arrives parses, and gives exactly the records of its items under their numbers, whether or not earlier batches arrived |
| CaptureBatches.DecodeItems | web/protocol.js:541-606 | Item by item, decoding follows the ring's items, whole or delta, with the previous frame each delta was made from |
| CaptureBatches.CutShape | src/observer/capture.c:546-582 | What a batch takes is leading gaps and then records without a gap between them, up to 255 |
| CaptureBatches.BatchTakesMost | src/observer/capture.c:546-582 | A batch takes as much as it can: it ends at the first item where there is none, 255 records are in, a gap follows a record, or the next record does not fit |
| CaptureRoundTrip.RecordRoundTrip | src/observer/capture.c:37-62 | Any record, whole or as a delta, decodes to itself from where it stands, and decoding ends right after it |
| CaptureRoundTrip.DeltaRoundTrip | src/observer/capture.c:406-438 | A frame encoded as a delta decodes to itself against the frame it was encoded from |
| CaptureRoundTrip.FullRoundTrip | src/observer/capture.c:37-62 | A record encoded whole decodes to itself with no previous frame |
| CaptureRoundTrip.FollowInverts | web/protocol.js:561-583 | A delta followed from its base gives back the time, flags and span of the frame |
| CaptureDecoder.VarintRoundTrip | web/protocol.js:513-524 | A 32-bit varint is read back as its value, from at most five bytes, and the reader stops right after it |
| CaptureDecoder.ReadVarint | web/protocol.js:513-524 | The varint loop reads what the specification says, the limit on the fifth byte and the two errors included |
| CaptureDecoder.Decoder.ReadDelta | web/protocol.js:552-583 | The delta branch reads motion, flags and span in order and follows the previous frame or skips |
| CaptureDecoder.Decoder.ReadRecord | web/protocol.js:542-605 | One record of any kind, and its errors: short, unknown kind, malformed varint |
| CaptureDecoder.Decoder.ReadWhole | web/protocol.js:545-602 | Every other kind is read byte by byte, with its errors: short, or unknown |
| CaptureDecoder.Decoder.Parse | web/protocol.js:534-610 | A batch updates the decoder's state and returns its records exactly as the batch specification says; a first number not expected forgets the previous frame |
| CaptureParsing.OneLength | web/protocol.js:534-610 | A batch that parses does so at exactly its own length: cut short anywhere it is truncated, and with anything behind it it has trailing bytes |
| CaptureParsing.RecordCut | web/protocol.js:541-606 | Any record that can be read is read the same from any prefix that holds it, and reported as truncated from any shorter one |
| CaptureParsing.EachOnce | web/protocol.js:534-610 | Each of the records a batch says it holds is given, under its own number and in order, or counted as skipped, and the number expected next is the one after them; a refused batch leaves that where it was |
| CaptureParsing.WholeInverse | web/protocol.js:545-602 | A record that is read, unless it is a delta, is one whose encoding stands there: nothing else is accepted |
| CaptureCodec.Zigzag | src/observer/capture.c:391-393 | Zigzag numbers are undone by the decoder's unzigzag, for every 32-bit integer |
| CaptureCodec.PutVarint | src/observer/capture.c:381-389 | The encoder's loop writes the varint at its place and nothing else |
| CaptureCodec.PutFull | src/observer/capture.c:37-62 | The whole encoding is written byte by byte at its place, and its length returned |
| CaptureCodec.ChooseSpanMode | src/observer/capture.c:412-421 | The span is sent as previous, as elapsed, relative to elapsed, or absolute, whichever the rules pick |
| CaptureCodec.ShortestSpan | src/observer/capture.c:412-421 | A span that is the previous one or the time since takes no bytes, and another no more than the shorter of the ways to give it |
| CaptureCodec.ShortestForm | src/observer/capture.c:406-438 | A frame with a base in range takes no more bytes than its delta with the span in full, nor than its whole form |
| CaptureCodec.PutDelta | src/observer/capture.c:406-438 | The delta encoding is written at its place; nothing where the frame has to go whole |
| CaptureCodec.DeltaLayout | src/observer/capture.c:422-437 | Where the parts of a delta stand within its bytes |
| CaptureCodec.ItemKind | src/observer/capture.c:449-476 | The first byte of a stored item tells a gap marker, a delta and each whole record apart |
| CaptureCodec.StoredLength | src/observer/capture.c:449-476 | The length read back from a stored item's own bytes is the length it was stored with, whatever follows it |
| CaptureCodec.DeltaLength | src/observer/capture.c:451-462 | The same for deltas, whose varints, flags and span have no fixed length |
| CaptureStore.WriteContent | src/observer/capture.c:478-485 | Writing to a ring with room appends to its contents and keeps every byte already stored, wrapped or not |
| CaptureStore.DropContent | src/observer/capture.c:584-590 | Advancing the head takes exactly that many bytes off the front |
| CaptureStore.PutValid | src/observer/capture.c:505-544 | A put keeps the ring and its items in agreement and numbers the record, stored or dropped; a gap is stored before the record that follows it |
| CaptureStore.HasRoomIff | src/observer/capture.c:522-527 | There is room exactly when the free bytes are enough for the record and, with a gap pending, its marker; 25 free bytes always are |
| CaptureStore.ConsumeValid | src/observer/capture.c:584-590 | Consuming a batch keeps them in agreement and advances the number out by the items taken |
| CaptureStore.DiscardValid | src/observer/capture.c:592-601 | Discarding empties the ring and accounts for every record lost |
| CaptureBuffer.Buffer.RingWrite | src/observer/capture.c:478-485 | The byte loop stores the bytes after the used ones, wrapping, and changes no other byte |
| CaptureBuffer.Buffer.RingRead | src/observer/capture.c:487-494 | The byte loop reads the contents at an offset, across the wrap |
| CaptureBuffer.Buffer.Encode | src/observer/capture.c:510-521 | A frame goes as a delta when there is a base within range, otherwise whole |
| CaptureBuffer.Buffer.Append | src/observer/capture.c:535-536 | A gap's marker and then the record are appended to what the ring holds, and the gap is cleared |
| CaptureBuffer.Buffer.Put | src/observer/capture.c:505-544 | A record is kept if and only if the free bytes are enough for its own and, with records dropped before it, for the marker that says so; the state after is the store specification's |
| CaptureBuffer.Buffer.ReadItem | src/observer/capture.c:553-557 | The item at an offset and its length, from the ring's bytes alone |
| CaptureBuffer.Buffer.Peek | src/observer/capture.c:546-582 | The payload is the batch of the longest prefix of items that fits; the take says how many bytes and numbers it covers; the buffer is unchanged |
| CaptureBuffer.Buffer.Consume | src/observer/capture.c:584-590 | Head, used bytes and number out move on by the take |
| CaptureBuffer.Buffer.Discard | src/observer/capture.c:592-601 | The records lost are counted and the buffer is empty |
| CaptureDrain.SnapshotStands | src/service/telemetry.c:769-775 | Any number of puts leave the bytes a snapshot covers in place |
| CaptureDrain.TakeStands | src/service/telemetry.c:762-794 | A take peeked from a snapshot is still a valid take of the buffer after any puts |
| CaptureDrain.DrainRound | src/service/telemetry.c:762-794 | One round with puts during and after it: peek of the snapshot, then consume or discard on the live buffer, as if peeked from the live buffer, and how many records were lost |
| CaptureTap.SubMsUs | src/service/telemetry.c:703-709 | The microsecond sent is below 1000: exact within the frame's millisecond, and otherwise the last one |
| CaptureTap.FrameSays | src/observer/capture.c:299-307 | A frame record has the motion's time, span, low flags and both axes, each as far as 32 bits reach |
| CaptureTap.Tap.Submit | src/service/telemetry.c:684-701 | The record is numbered last; a refusal asks for a new start |
| CaptureTap.Tap.ResetAndEnter | src/observer/capture.c:173-186 | The stages are reset, then an entered record carries the hash of the settings in force |
| CaptureTap.Tap.ResyncAtRest | src/observer/capture.c:235-246 | At rest the recorder's request is taken, and stands again only if the entry made for it is refused; a new start is made if and only if one was asked for. Without rest nothing changes |
| CaptureTap.Tap.DescribeSource | src/observer/capture.c:248-269 | A source record is added exactly when the frame's source is not the one described since the entry; a second source, and a refusal, ask for a new start, and nothing else does |
| CaptureTap.Tap.RecordKeypress | src/observer/capture.c:273-285 | The guard is frozen; its key press is recorded exactly when it is new since the entry, so the newest one recorded is the one the stages decide with |
| CaptureTap.Tap.Input | src/observer/capture.c:287-312 | Each push records, in this order, an entry if at rest a new start was asked for, the source unless known, the key press if new, and one frame that says what the motion was; a request is left exactly when a record of this push was refused or, without rest, one stood before |
| CaptureTap.Tap.Describe | src/observer/capture.c:297-298 | What is recorded before a frame, exactly, and what it leaves asked for |
| CaptureTap.Tap.BrokenEnters | src/observer/capture.c:235-246 | Whatever keeps replay from following since the entry is met by a new start at the next rest |
| CaptureTap.Tap.TwoFrames | src/observer/capture.c:235-246 | A request is met once: after a frame at rest that started over with every record stored, the next frame from that source is recorded alone, after a rest or not |
| CaptureTap.Tap.AtRestIff | src/observer/capture.c:235-241 | At rest means replayable, a frame since the entry, nothing pending, and the last frame or flush at least the rest time ago, across the wrap of the clock |
| CaptureTap.Tap.Flush | src/observer/capture.c:323-335 | Each flush records its key press if that is new and one flush, and asks for a new start only for a refusal |
| CaptureTap.Tap.Activated | src/observer/capture.c:337-349 | Entering forgets what was described and records the entry |
| CaptureTap.Tap.Deactivated | src/observer/capture.c:337-349 | Leaving records that the pipeline was left |
| CaptureTap.Tap.SettingsChange | src/service/telemetry.c:745-757 | The new hash is in force, a settings record marks the change, and a new start is asked for |
| CaptureTap.Tap.StoredLost | src/service/telemetry.c:679-682 | Records the worker gives up ask for a new start |
| CaptureTap.Tap.Start | src/service/telemetry.c:802-809 | A recording starts with an empty log and, on an active replayable pipeline, a reset and an entered record |
| TapLog.TruthfulStays | src/observer/capture.c:287-349 | A log that says what was true stays so when a truthful record is added |
| TraceSegments.Segments | host/replay/capture-convert.js:134-183 | The loop finds exactly the traces of the walk over the records, or reports a frame before its source record |
| TraceSegments.SegmentsFound | host/replay/capture-convert.js:134-183 | For a tap's log with any records missing, splitting never fails, and finds the traces the whole log has when a missing record ends a trace |
| TraceSegments.TracesWhole | host/replay/capture-convert.js:128-183 | Each trace starts at an entered record and holds every frame, flush and key press up to a boundary, a missing record or the end, with no hole; traces follow one another |
| TraceSegments.TracesComplete | host/replay/capture-convert.js:148-181 | An event with no boundary or missing record since an entry is in the trace that starts there |
| TraceSegments.TraceIsTrue | src/observer/capture.c:160-335 | Throughout a trace no stage was reset, the settings in force are those of its hash, every frame has its source, and the newest key press in it is the one each frame and flush was decided with |
| TraceSegments.VisitMatches | host/replay/capture-convert.js:148-180 | One record moves the walk and the cut log in step; a frame with no source record never happens |
| ReplayTime.FixtureEvents | host/replay/capture-convert.js:190-219 | The conversion yields the events still relevant to the guard, with the deltas and late times of the specification, from the earliest time on; what they say is ReplayGuard.LineCarries and ReplayGuard.SpansIff |
| ReplayTime.BaseIsEarliest | host/replay/capture-convert.js:197-198 | Within a window of 2^31 ms the start is the earliest event, across the wrap of the clock |
| ReplayTime.ReplayTimeExact | host/replay/fixture.js:42-54 | Deltas and late times are not negative, a late time never exceeds the event's time, taking it off gives back the firmware's millisecond, and an event later than those before it keeps its microsecond |
| ReplayTime.PlayedIsLatest | host/replay/capture-convert.js:199-207 | An event is replayed at the latest of its own time and those before it |
| ReplayGuard.EncodeRunnerInput | host/replay/fixture.js:355-366 | Each line carries the event's absolute time and late time |
| ReplayGuard.LineCarries | host/replay/capture-convert.js:209-216 | Each line says what its event was: a frame's axes as recorded and its span, none where spans are not replayed and at least 40000 where it was clipped; or a flush, or a key press |
| ReplayGuard.EventReplays | host/replay/capture-convert.js:190-219 | Every frame, flush and remembered key press of a trace becomes the line at its place, which says what it was |
| ReplayGuard.LineFrom | host/replay/capture-convert.js:191-195 | Nothing else is replayed: each line is that of an event of the trace that is kept, at its place |
| ReplayGuard.StartIsFirst | host/replay/capture-convert.js:192 | A trace starts at its first frame or flush, or with neither at its first event |
| ReplayGuard.SpansIff | host/replay/capture-convert.js:209-212 | A fixture has spans exactly when one of its motions does |
| ReplayGuard.Replay.ReplayEvent | host/runners/cursor_pipeline_replay.c:580-602 | A key press line is remembered with its millisecond; a motion or flush is answered with the newest one |
| ReplayGuard.Replay.Run | host/runners/cursor_pipeline_replay.c:604-630 | Over all lines, each answer is that of the newest key press line before it |
| ReplayGuard.LineMs | host/runners/cursor_pipeline_replay.c:553-578 | The runner computes for each line the event's millisecond counted from the trace's start |
| ReplayGuard.PressRemembered | host/replay/capture-convert.js:191-195 | Of the key presses before an event, the newest is kept, or it and all older ones are too old to matter |
| ReplayGuard.GuardAnswer | host/runners/cursor_pipeline_replay.c:214-219 | For any frame or flush of a trace, the runner's answer is the firmware's except that a key press the conversion left out never suppresses |
| ReplayGuard.GuardReplaysIff | host/replay/capture-convert.js:191-195 | The runner's answer is the firmware's if and only if the newest key press before it was not left out while it still suppressed |
| ReplayGuard.GuardReplaysAnyWindow | host/replay/capture-convert.js:191-195 | For every window the answers agree, if and only if the event is not stamped between that key press and the trace's first frame or flush |
| ReplayGuard.GuardReplays | host/runners/cursor_pipeline_replay.c:214-219 | For a frame or flush no older than the trace's first, the runner's answer is the firmware's |
| ReplayGuard.OlderFrameDiffers | host/replay/capture-convert.js:191-195 | A trace whose second frame is older: firmware suppressed it, the runner does not |
| KeypressGuard.Guard.FreezeKeypress | src/platform/zmk/keypress_suppression.c:52-60 | With key presses landing between any two of its steps, the frozen key press is the one returned, one stamped no earlier than the newest when it began |
| KeypressGuard.Guard.IsSuppressed | src/platform/zmk/keypress_suppression.c:37-50 | Frozen, the answer depends on the frozen key press alone; otherwise it is that of a key press no older than the newest when asked |
| KeypressGuard.Guard.ThawKeypress | src/platform/zmk/keypress_suppression.c:62-65 | The guard answers live again |
| KeypressGuard.RecordedPipeline.Push | src/core/pipeline.c:340-363 | A recorded push of raw motion goes as if all its questions were answered with one key press, whatever was asked before, and the guard is frozen and thawed once, whatever the stages return and even if the recording stops; a refused push or another kind leaves the guard alone |
| KeypressGuard.RecordedPipeline.CallStage | src/platform/zmk/keypress_suppression.c:37-50 | Frozen, a stage call goes as with that one key press, each question depending on the answers before |
| KeypressGuard.RecordedPipeline.Flush | src/core/pipeline.c:365-402 | The same for a flush, up to its first failure; one that is refused or has nothing due leaves the guard alone |
| Recording.RecordingSplits | host/replay/capture-convert.js:134-183 | From the tap through buffer, link and decoder with any losses, what arrives splits without failing into unbroken stretches of the tap's log |
| Recording.RecordingReplays | host/runners/cursor_pipeline_replay.c:553-578 | A frame or flush of a trace reaches the runner with the motion and span recorded and its own millisecond, and is answered as the frozen guard answered it if and only if that key press was not left out while it still suppressed |
| Recording.CountsAddUp | web/recording-model.js:72-87 | Of a recording in progress, records and dropped add up to the next number |
| RecordingStats.Stats.AddRecords | web/recording-model.js:72-87 | The counts after a batch are those of its records one by one |
| RecordingStats.Conserved | web/recording-model.js:67-87 | Records and dropped add up to the next number if and only if no 2^31 numbers in a row are missing |
| RecordingStats.CountsEachKind | web/recording-model.js:72-87 | Each count is the number of the records of its kind |
| RecordingStats.TimesOfFrames | web/recording-model.js:78-82 | The times shown are those of the first frame and of the last, and there are none without a frame |
| RecordingStats.BatchesAdd | web/recording-model.js:72-87 | The counts do not depend on how the records are cut into batches |
| PipelineEngine.PushRefines | src/core/pipeline.c:340-363 | For stages that stop at their first failed emission and, holding one, neither fail by themselves nor emit another kind, a push makes the same calls in the same order as nested calls, with the same result, dispatches and outputs, the budget running out at the same point |
| PipelineEngine.PushExact | src/core/pipeline.c:340-363 | For any stages, sink and budget: a push makes the calls of nested calls and ends as they do if and only if no stage, at any depth, fails by itself or emits another kind while its emission is held (with dispatches left, or for another reason than the budget); otherwise both fail, after calls that are the first of those nested calls make |
| PipelineEngine.RunExact | src/core/pipeline.c:77-116 | The same for the rest of any call of any stage, from any state of the engine |
| PipelineEngine.FlushExact | src/core/pipeline.c:365-402 | The same for a flush |
| PipelineEngine.PushKeepsHeld | src/core/pipeline.c:87-116 | Stages that keep the contract lose nothing |
| PipelineEngine.DispatchRefines | src/core/pipeline.c:42-72 | One dispatch, whatever the stages do: as nested calls, or, exactly when an emission is lost, failed where nested calls dispatched more or failed for another reason |
| PipelineEngine.RunRefines | src/core/pipeline.c:77-116 | The same for the rest of a stage call; what is held is always the running stage's own, bound for the next |
| PipelineEngine.DrainRefines | src/core/pipeline.c:77-85 | The same for draining a held emission |
| PipelineEngine.FlushRefines | src/core/pipeline.c:365-402 | A flush through stages that keep the contract behaves as nested calls |
| PipelineEngine.DispatchFrames | src/core/pipeline.c:42-72 | What a dispatch does does not depend on the memory or deadline of the stages before it |
| PipelineEngine.PushSound | src/core/pipeline.c:42-72 | Whatever the stages do, dispatches and what is left add up to the budget and only stages that can flush have a deadline; where kinds fit, every dispatch is a call |
| PipelineEngine.RunSound | src/core/pipeline.c:87-131 | The same for any stage call, from any point on, with an emission held or not |
| PipelineEngine.FlushSound | src/core/pipeline.c:365-402 | The same for a flush |
| PipelineStates.PushLeads | src/core/pipeline.c:340-363 | Whatever a push returns, each stage is as the calls made to it left it, each run to its end or stopped by a failed emission, and the sink as the signals handed to it; every call was of a stage or a sink that takes the signal's kind |
| PipelineStates.RunLeads | src/core/pipeline.c:77-139 | The same for the rest of any stage call, through which the stages before it are left alone |
| PipelineStates.UncalledKeeps | src/core/pipeline.c:42-72 | A stage that was not called keeps its memory and its deadline, whatever the operation returned |
| PipelineStates.FlushLeads | src/core/pipeline.c:365-402 | Whatever a flush returns, the stages up to the one that failed had their turn: each is as the calls made to it and then its own flush, if due, left it, its deadline cleared before that |
| PipelineStates.TimeReachedIff | src/core/pipeline.c:32-34 | Within 2^31 ms a deadline is reached exactly when it is not after the current time, across the wrap of the clock |
| PipelineStates.FlushFirst | src/core/pipeline.c:377-397 | A flush passes over the stages whose deadline is to come; the first whose deadline is not after the current time loses it and is flushed, and it goes on behind unless that fails; with none nothing happens |
| Pipeline.Operation.DispatchAt | src/core/pipeline.c:42-72 | One dispatch on the objects is the specified one |
| Pipeline.Operation.Drain | src/core/pipeline.c:77-85 | The drain loop is the specified one |
| Pipeline.Operation.Emit | src/core/pipeline.c:87-116 | An emission finishes the one held, then is held itself |
| Pipeline.Push | src/core/pipeline.c:340-363 | A push checks, and then, whatever it returns, leaves stages and sink as the engine does, each stage as its own calls left it; the calls are those of nested calls unless a stage loses the emission it holds, and then the first of them |
| Pipeline.FlushDue | src/core/pipeline.c:365-402 | A flush checks; with every pending deadline still to come it returns 0, calls nothing and changes nothing; otherwise, whatever it returns, each stage is as the calls made to it and its own flush, if due, left it; the calls are those of nested calls, under the same condition |
| Pipeline.NextDeadline | src/core/pipeline.c:404-430 | The deadline of the first stage with the least time left, if the pipeline is active and one is pending; in a window of 2^31 ms that is one already reached or, where none is, the earliest |
| Pipeline.SoonestIsNext | src/core/pipeline.c:404-430 | The least time left is that of a deadline already reached or, where none is, of the earliest, across the wrap of the clock |
| PipelineLifecycle.Reset | src/core/pipeline.c:273-288 | Every stage and the sink are reset and no deadline is pending |
| PipelineLifecycle.ActivatePipeline | src/core/pipeline.c:290-321 | Stages and sink are reset and activated in order; a failure resets them all and leaves the pipeline inactive; the observer sees exactly the successes |
| PipelineLifecycle.ActivateStops | src/core/pipeline.c:299-308 | Stages are activated in order up to the first that fails, whose code is returned; those behind it are not called, and without a failure all were |
| PipelineLifecycle.ActivateReturns | src/core/pipeline.c:290-315 | The failure returned is that of the first stage that fails, and the sink's only when none did; then all are reset after what they did |
| PipelineLifecycle.DeactivateSound | src/core/pipeline.c:442-458 | The same for leaving, which goes on after failures |
| PipelineLifecycle.DeactivateTraced | src/core/pipeline.c:442-458 | Every stage leaves in its turn, as nested calls would unless an emission is lost, whatever others return; the first failure is returned |
| PipelineLifecycle.DeactivateReturns | src/core/pipeline.c:442-464 | The code is that of the first failure, of the stages in order and then of the sink |
| PipelineLifecycle.DeactivateLeads | src/core/pipeline.c:442-458 | Whatever leaving returns, each stage is as the calls made to it and then its own leaving left it, its deadline cleared |
| PipelineLifecycle.DeactivatePipeline | src/core/pipeline.c:432-472 | Whatever fails, the pipeline ends inactive, reset and without deadlines, the first failure is returned, what leaving dispatched is reported, and the observer told |
| PipelineValidation.Pipeline.FindStageLinkConflict | src/core/pipeline.c:188-201 | No earlier stage has the same name, nor the memory of a stateful one; the first in conflict decides the code |
| PipelineValidation.Pipeline.ValidateStageLink | src/core/pipeline.c:203-220 | A stage is accepted if and only if it is complete, fits, is free and apart from those before; the code of each refusal |
| PipelineValidation.Pipeline.ValidateStructure | src/core/pipeline.c:222-251 | The checks accept exactly well-formed pipelines with free parts; the first check that fails decides the code |
| PipelineValidation.Pipeline.Validate | src/core/pipeline.c:253-271 | Success takes all parts, failure changes nothing and has the code of its first reason, and what other pipelines own stays theirs |
| PipelineValidation.StagesDistinct | src/core/pipeline.c:188-201 | Stages are different objects, and share memory only if the later one is stateless |
| PipelineValidation.OwnedOnce | src/core/pipeline.c:167-220 | Validated pipelines share no stage and no sink |
| PipelineValidation.MemoryOwnedIff | src/core/pipeline.c:188-201 | The state of a stateful stage belongs to one pipeline if and only if no stage of another is given its address, which nothing checks |
| PipelineValidation.SharedAcross | src/core/pipeline.c:188-201 | Two pipelines whose stateful stages share memory are both validated |
| PipelineValidation.SharedWithin | src/core/pipeline.c:188-201 | Within a pipeline a stateful stage shares memory exactly with later stateless ones given its address |
| PipelineValidation.SharedInOne | src/core/pipeline.c:194-197 | Such a pipeline is validated |
| PipelineValidation.WellFormedIsSound | src/core/pipeline.c:42-72 | In a validated pipeline every dispatch of a push reaches a stage or the sink, none is refused for its kind, and dispatches and what is left add up to the budget |
| PipelineValidation.RouterDescription.ValidateRouterPipeline | src/core/router.c:14-29 | A pipeline is accepted if and only if it takes the router's input, is new, and has a name of its own; the code of each refusal |
| PipelineValidation.RouterDescription.Validate | src/core/router.c:47-66 | A router that is not well formed changes nothing; otherwise pipelines are validated in order, and those before one that fails stay validated |
| Router.OneActive | src/core/router.c:68-74 | Entries and leavings alternate, so at any time at most one pipeline is active, the one entered last |
| Router.Router.Activate | src/core/router.c:76-92 | The default pipeline is entered, or nothing is active |
| Router.Router.Select | src/core/router.c:94-137 | The active pipeline is left before another is entered; a failed entry restores it unless its own activation fails, and then none is active; which it is follows from the stages |
| Router.Router.EnterOrRestore | src/core/router.c:119-136 | The rollback |
| Router.Router.Deactivate | src/core/router.c:139-154 | None is active, whatever leaving returned |
| Router.Router.RoutePush | src/core/router.c:156-170 | A push reaches the active pipeline and leaves it as its own push does, whatever it returns; or reaches nothing; the others are unchanged |
| Router.Router.RouteFlush | src/core/router.c:172-183 | A flush reaches the active pipeline and leaves it as its own flush does; or reaches nothing; the others are unchanged |
| RouteOverride.HoldsNewest | src/core/route_override.c:22-63 | After any run the table lists exactly the accepted presses whose position was neither released nor pressed again, in order, no position twice, within capacity |
| RouteOverride.NewestWins | src/core/route_override.c:65-84 | The selected override is the newest such press; there is none exactly when there is no such press |
| RouteOverride.Table.Available | src/core/route_override.c:28-38 | The slot of the position, or else a free one, or none |
| RouteOverride.Table.Press | src/core/route_override.c:22-50 | A press moves its position to newest, or is refused exactly when the table is full of others |
| RouteOverride.Table.Release | src/core/route_override.c:52-63 | A release removes its position and reveals the next newest |
| RouteOverride.Table.Selected | src/core/route_override.c:65-84 | The newest override, if any |
| AccelerationCurve.HarmonicBound | web/acceleration-curve.js:62-66 | The weighted harmonic mean of two slopes of one sign has their sign and at most three times the smaller |
| AccelerationCurve.HarmonicWeights | web/acceleration-curve.js:62-66 | Which mean it is: its reciprocal is that of the slopes' reciprocals, weighted by one step and twice the other |
| AccelerationCurve.MeanOfEqual | web/acceleration-curve.js:62-66 | The mean of equal slopes is that slope |
| AccelerationCurve.TangentShare | web/acceleration-curve.js:55-69 | Every tangent is between zero and three times each neighbouring slope |
| AccelerationCurve.ProgressGrows | web/acceleration-curve.js:74-89 | A cubic with such tangents grows from 0 to 1 |
| AccelerationCurve.SegmentMonotone | web/acceleration-curve.js:74-89 | A segment lies between its end percents and moves one way |
| AccelerationCurve.EndSlopes | web/acceleration-curve.js:84-87 | A segment leaves and meets its points with their tangents as slopes, what is left being of second order |
| AccelerationCurve.StraightStays | web/acceleration-curve.js:55-89 | Through points in a line the curve is that line, between all but the first and the last two |
| AccelerationCurve.ThroughPoints | web/acceleration-curve.js:74-89 | The curve passes through its points |
| AccelerationCurve.NoOvershoot | web/acceleration-curve.js:74-89 | All values lie within the points' least and greatest percents |
| AccelerationCurve.RisesIffPointsDo | web/acceleration-curve.js:74-89 | The curve never falls if and only if the points' percents never fall |
| AccelerationCurve.CursorSpeedRises | web/acceleration-curve.js:74-89 | With percents that never fall, speed times sensitivity never falls |
| AccelerationCurve.Tangents | web/acceleration-curve.js:55-69 | The loop computes the tangents |
| AccelerationCurve.Evaluate | web/acceleration-curve.js:74-89 | The search and the formula compute the curve |
| AccelerationCurve.BenchmarkAgrees | host/replay/quality.js:76-98 | The benchmark's own formula is the same function |
| Framing.ChunksAgree | web/protocol.js:94-121 | Scanning in two chunks finds what scanning at once finds and keeps the same bytes |
| Framing.AnyChunking | web/protocol.js:94-121 | Any chunking gives the frames of one push |
| Framing.FramesRoundTrip | web/protocol.js:84-121 | Encoded frames in any chunks decode back and leave nothing |
| Framing.FrameDecoder.Push | web/protocol.js:94-121 | A push returns the frames of kept and new bytes, and keeps the rest |
| Framing.FrameParser.ParseByte | src/service/telemetry.c:1213-1254 | One byte moves the firmware's parser as specified, in place |
| Framing.OneByte | src/service/telemetry.c:1213-1254 | One byte takes both parsers to corresponding states, with the same frame if any |
| Framing.ParsersAgree | src/service/telemetry.c:1206-1254 | Where every header met names at most 128 bytes, the firmware dispatches exactly the frames the host returns |
| Framing.AgreeIffFramesFit | src/service/telemetry.c:1234-1246 | On any stream in any chunks the parsers find the same frames if and only if every frame the host finds fits, and the stream does not end inside a longer one in whose payload the firmware found a frame |
| Framing.LongEnd | src/service/telemetry.c:1234-1253 | Inside a frame that is too long the firmware has dispatched the host's frames and whatever it finds in the payload so far |
| Framing.BeforeRest | web/protocol.js:101-119 | The bytes before those the host keeps hold the same frames and at most one byte more |
| Framing.TooLongIsOpened | src/service/telemetry.c:1237-1238 | Where they differ: the firmware skips a long frame's header alone and dispatches the frame within |
| StageTuning.MicrometersExact | src/stage/stage_tuning.c:21-30 | Every 32-bit number of micrometres survives fixed point and back |
| StageTuning.PerMeterExact | src/stage/stage_tuning.c:32-35 | So does every number of steps per metre |
| StageTuning.FixedNearest | src/stage/stage_tuning.c:21-35 | Micrometres round to the nearest fixed-point number, steps per metre down, and a fixed-point number reads as the nearest integer, as far as 32 bits reach |
| StageTuning.PutGet | src/stage/stage_tuning.c:166-211 | A stored value is read back, and no other parameter changes |
| StageTuning.Validate | src/stage/stage_tuning.c:459-468 | The release ratio is at most the engage ratio and the curve's speeds increase; otherwise the release ratio, or the first speed that does not exceed the one before, is blamed |
| Tuning.ValidateBatch | src/service/tuning.c:115-159 | The batch is accepted, or the first value refused is reported |
| Tuning.BatchGets | src/stage/stage_tuning.c:37-60 | A batch's parameters read back as its values, the others as before |
| Tuning.BatchInRange | src/service/tuning.c:115-159 | A batch keeps every parameter in its range |
| Tuning.ResetValid | src/stage/stage_tuning.c:62-79 | A reset config is valid and reads as compiled |
| Tuning.Target.Set | src/stage/stage_tuning.c:93-103 | A batch is applied whole or not at all, with the code and the parameter to blame, and the config stays valid |
| Tuning.Target.Reset | src/stage/stage_tuning.c:105-114 | A reset is applied whole or not at all |
| Tuning.Service.GetValue | src/service/tuning.c:96-105 | A value read is in its parameter's range |
| Tuning.Service.SetMany | src/service/tuning.c:138-159 | Every outcome of a batch with its code and the parameter to blame; every target stays valid and only this one changes |
| Tuning.Service.Reset | src/service/tuning.c:161-164 | A target reset reads as compiled |
| Tuning.Service.ResetAll | src/service/tuning.c:166-175 | Every target is tried; the code is that of the first failure |
| Tuning.FirstFailureIs | src/service/tuning.c:166-175 | The code is zero exactly when no target's apply failed, and otherwise that of the first that did |
| Tuning.SetManyAtomic | src/service/tuning.c:138-159 | After a batch either everything reads as before, or its parameters read as its values and the rest as before |
| SettingsHash.StepsAgree | web/protocol.js:616-633 | One byte of FNV-1a in JavaScript's arithmetic is that of the firmware's |
| SettingsHash.HashAdd | src/observer/capture.c:664-680 | The firmware's parts fold to the hash of id, NUL, key, NUL and value |
| SettingsHash.OneByteApart | src/observer/capture.c:664-680 | Bytes that differ in exactly one place hash apart |
| SettingsHash.TermsApart | src/observer/capture.c:664-680 | So do settings: one whose id, key or value differs in one byte adds another term |
| SettingsHash.FirmwareHash | src/service/telemetry.c:813-831 | The firmware's loops add stage by stage |
| SettingsHash.TunerHash | web/protocol.js:616-633 | The tuner's loops add target by target |
| SettingsHash.OrdersAgree | src/service/telemetry.c:813-831 | Both orders give the same sum for distinct stages |
| SettingsHash.SettingsPermute | web/protocol.js:622-630 | A target's parameters add up the same in any order |
| SettingsHash.HashesAgree | web/protocol.js:616-633 | A device and a profile with the same settings for the pipeline's stages have the same hash, in any order |
| BluetoothWrites.CutFrame | web/transport.js:159-163 | The chunks of a frame are at most 20 bytes and join to it |
| BluetoothWrites.StepKeeps | web/transport.js:164-199 | Every step keeps the link's bytes whole frames and at most a part of one |
| BluetoothWrites.WholeFrames | web/transport.js:159-199 | After any schedule of writes, retries, failures and closes the link carried whole frames and at most a proper part of one more; once that is not being sent the link is closed or broken |
| BluetoothWrites.NothingFollows | web/transport.js:165-177 | After a part of a frame no more bytes go out |
| BluetoothWrites.InOrder | web/transport.js:164-182 | Writes end in the order they were made, none lost or made twice |
| BluetoothWrites.GoesOut | web/transport.js:164-194 | A frame on a link that stays open goes out whole, and its write succeeds, if each of its chunks left is rejected at most three times before it is taken |
| BluetoothWrites.GivesUp | web/transport.js:171-194 | A chunk rejected a fourth time fails the write, and breaks the link exactly when part of the frame is out |
| BluetoothWrites.FailsOnly | web/transport.js:164-194 | Nothing else fails a write on a link that is open and not broken |
| BluetoothWrites.FramesArrive | web/transport.js:159-199 | What the other side reads is exactly the frames of the writes that succeeded |
| CaptureCodec.PutLe32 | src/observer/capture.c:20-24 | Four bytes, least significant first, at their place and nothing else |
| CaptureCodec.PutMotion | src/observer/capture.c:424-428 | Elapsed time and both axes are written one after the other |
| CaptureCodec.PutFlags | src/observer/capture.c:429-431 | Flags are written only when they changed |
| CaptureCodec.PutSpan | src/observer/capture.c:432-436 | The span is written the way its mode says |
| CaptureCodec.MeasureVarint | src/observer/capture.c:440-446 | A varint's length is found from its continuation bits |
| CaptureCodec.MotionLength | src/observer/capture.c:452-455 | Past the three varints of a delta |
| CaptureCodec.SpanLength | src/observer/capture.c:456-460 | Past the span, if the mode sends one |
| CaptureDecoder.Decoder.ReadNext | web/protocol.js:541-606 | One turn of the record loop moves the state as the specification does |
| CaptureDecoder.Decoder.ReadRecords | web/protocol.js:541-606 | The record loop comes out where the specification does |
| CaptureBuffer.Buffer.PutMarker | src/observer/capture.c:529-534 | A pending gap is stored as a marker with its count |
| CaptureBuffer.Buffer.Keep | src/observer/capture.c:529-542 | Marker and record are stored in order and the base moves on to a frame |
| CaptureBuffer.Buffer.CopyBytes | src/observer/capture.c:568-570 | The stored bytes are copied to their place in the payload and nothing else changes |
| CaptureBuffer.Buffer.PeekItem | src/observer/capture.c:552-573 | One turn of the peek loop takes the next item or stops where the batch is cut |
| CaptureBuffer.Buffer.PutHeader | src/observer/capture.c:579-580 | The header names the first record's number and the count |
| CaptureTap.Tap.Enter | src/observer/capture.c:173-179 | The entered record carries the hash of the settings in force |
| TraceSegments.EndTrace | host/replay/capture-convert.js:141-147 | A trace in progress is kept if it has events, and none is in progress |
| ReplayTime.ConvertEvent | host/replay/capture-convert.js:201-217 | One event gets its time, delta, late time and span; what it then says is ReplayGuard.LineCarries |
| ReplayTime.EarliestMs | host/replay/capture-convert.js:197-198 | The loop finds the earliest time, across the wrap |
| KeypressGuard.Guard.KeyPresses | src/platform/zmk/keypress_suppression.c:115-131 | Any number of key presses, stamp before flag, keep the flag meaning that the stamp is the newest |
| KeypressGuard.RecordedPipeline.RecordKeypress | src/observer/capture.c:273-285 | The guard is frozen once, if the tap can freeze it |
| KeypressGuard.RecordedPipeline.Done | src/observer/capture.c:314-321 | A frozen guard is thawed once |
| Pipeline.Operation.CallSink | src/core/pipeline.c:51-60 | The sink is handed a signal it takes, and its successes are counted |
| Pipeline.Operation.CallStage | src/core/pipeline.c:87-139 | A stage's call does through the engine what the specification says |
| Pipeline.FlushStages | src/core/pipeline.c:377-397 | The loop over the stages is the specified flush |
| PipelineLifecycle.ActivateEach | src/core/pipeline.c:299-308 | Stages are activated in order up to a failure |
| PipelineLifecycle.DeactivateEach | src/core/pipeline.c:443-458 | Stages are left in order, their emissions finished downstream, the first failure kept |
| PipelineValidation.Pipeline.Take | src/core/pipeline.c:262-270 | Taking the parts keeps what every other pipeline owns |
| PipelineValidation.RouterDescription.ValidateStructure | src/core/router.c:31-45 | The router's checks accept exactly well-formed routers of new pipelines; the first pipeline refused decides the code |
| PipelineValidation.RouterDescription.ValidateEach | src/core/router.c:56-61 | Pipelines are validated in order up to one that fails, with its code |
| RouteOverride.Table.Init | src/core/route_override.c:8-20 | The table is empty, whatever its slots held |
| Framing.RestIsPartial | web/protocol.js:101-119 | What is kept is at most one byte or the start of a frame still incomplete |
| Framing.EncodedIsComplete | web/protocol.js:84-89 | An encoded frame is found whole where it stands, whatever follows |
| Framing.FrameDecoder.Collect | web/protocol.js:95-119 | The scanning loop |
| Framing.FrameDecoder.NextFrame | web/protocol.js:101-117 | One turn of it: a frame taken, or the place to keep bytes from |
| Framing.FrameDecoder.SkipToMagic | web/protocol.js:102-107 | The search for the next magic pair |
| Tuning.ValidateValueUpdate | src/service/tuning.c:115-136 | The verdict on one value: unknown, out of range, twice, or accepted |
| Tuning.Target.Prepare | src/stage/stage_tuning.c:37-60 | The candidate holds all values; when the rules across parameters fail it names the parameter to blame |
| Tuning.Service.SetValue | src/service/tuning.c:107-113 | One value is a batch of one |
| SettingsHash.AddStage | src/service/telemetry.c:816-828 | One stage's targets |
| SettingsHash.AddSettings | src/service/telemetry.c:822-827 | One target's parameters |
| SettingsHash.ScriptSettings | web/protocol.js:621-631 | One target's parameters, in the tuner |
| SettingsHash.ScriptFnv | web/protocol.js:624-628 | The byte loop in JavaScript computes FNV-1a |
| RecordingStats.Stats.AddRecord | web/recording-model.js:73-85 | One record |
| Router.Router.Enter | src/core/router.c:119-120 | Entering makes a pipeline the only active one, or leaves none |
| Router.Router.Leave | src/core/router.c:108-117 | Leaving leaves none, whatever it returns |

## Left out

- CaptureBuffer.Buffer.Put: sequence numbers are whole numbers below 2^32; a recording that wraps them is not modelled.
- CaptureSession.RoundTrip: frames have a microsecond part below 1000, as the tap gives them; locks are atomic steps.
- CaptureSession.LossSafety: a recording starts and the decoder with it; joining a recording in progress is not modelled.
- PipelineEngine.PushExact: stage and sink codes are zero or negative, and a stage ends its call; stage observers and frame callbacks only look and are left out.
- PipelineLifecycle.DeactivatePipeline: compared with nested calls stage by stage (PipelineLifecycle.DeactivateTraced), each from what the one before left.
- PipelineLifecycle.ActivatePipeline: the reset reason handed to stages is left out.
- PipelineValidation.Pipeline.Validate: the reset of stage memory at its end is in PipelineLifecycle.Reset; addresses are numbers.
- ReplayGuard.GuardReplaysIff: traces are shorter than 2^32 microseconds and lie in a window of 2^31 ms, and key presses are recorded in the order of their times.
- ReplayGuard.EncodeRunnerInput: lines are their fields; printing and scanning decimal numbers is left out, and so are the header and runs whose trace has no recorded flushes.
- ReplayGuard.Replay.ReplayEvent: the flushes the runner makes for traces without recorded ones are left out, and so are the stages it drives.
- TraceSegments.Segments: the warnings it words are left out.
- ReplayTime.FixtureEvents: labels, strokes, the profile match and the fixture's other fields are left out.
- CaptureTap.Tap.Input: raw motion only, as other signals pass the tap untouched; the link a report takes, the rest time and whether a pipeline replays are given.
- CaptureTap.Tap.Start: one recording of one pipeline at a time; records the worker gives up leave the log as it was and only ask for a new start (CaptureTap.Tap.StoredLost).
- CaptureDrain.DrainRound: puts land before the peek and after it; between its reads of the ring they are in CaptureSession.UnlockedRead.
- KeypressGuard.RecordedPipeline.Push: stages are what they ask and return; the engine between them is in Pipeline, whose stages ask nothing.
- KeypressGuard.RecordedPipeline.Flush: which stages are due is given.
- AccelerationCurve.Evaluate: real numbers, no rounding; presets, shapes and the numeric gain are left out.
- Framing.FrameDecoder.Push: a payload over 65535 bytes, which the encoder cannot describe, is left out; so is the reset of a parser when another peer takes the link.
- BluetoothWrites.WholeFrames: one link; opening the same object again while a write waits is left out, and a rejected chunk counts as not taken.
- RouteOverride.Table.Press: the order counter is a whole number, 64 bits in the program.
- StageTuning.PutGet: each stage's switch over parameter ids is a table of fields in the order of their ids; texts shown to the user are left out.
- Tuning.Service.SetMany: registration of targets is left out, and the routers' lock is a parameter.
- SettingsHash.HashesAgree: ids and keys are bytes without NUL, and profile values are 32-bit integers.
- Pipeline descriptions, capture status and control messages carry no state worth a proof.
- Stage algorithms, the split codec and device drivers; stages are arbitrary here.
- The device-side work queues, the Bluetooth stack, and the user interface.
- Calibration, benchmark metrics, stroke derivation and fixture generation.
