/** The tap that records one pipeline's input for replay (src/observer/capture.c), and the
    recorder it submits to (src/service/telemetry.c). Its log keeps, with every record, what
    was true when it was submitted. */
module CaptureTap {
  import opened Bytes
  import opened CaptureCodec
  import opened TapLog

  /** The raw motion a push hands the tap, with the link its report will take. */
  datatype Motion = Motion(observedAtMs: uint32, sourceId: uint16, cpi: uint16, link: uint8,
                           flags: uint32, x: int, y: int, spanUs: uint32)

  function SaturateInt32(v: int): (r: int32)
    ensures FitsInt32(v) ==> r == v
  {
    if v > 0x7fff_ffff then 0x7fff_ffff else if v < -0x8000_0000 then -0x8000_0000 else v
  }

  /** The microsecond within the frame's millisecond: the last one once that has passed. */
  function SubMsUs(nowUs: nat, timeMs: uint32): (us: uint16)
    ensures us < 1000
    ensures Wrap32(nowUs / 1000) == timeMs ==> nowUs == nowUs / 1000 * 1000 + us
    ensures Wrap32(nowUs / 1000) != timeMs ==> us + 1 == 1000
  {
    if Wrap32(nowUs / 1000) == timeMs then nowUs % 1000 else 999
  }

  function FrameFrom(m: Motion, nowUs: nat): Frame {
    Frame(m.flags % 0x100, m.observedAtMs, SubMsUs(nowUs, m.observedAtMs), SaturateInt32(m.x), SaturateInt32(m.y), m.spanUs)
  }

  /** The record says what the frame was: its time, source flags, span and, as far as 32 bits
      reach, its motion. */
  ghost predicate Says(r: Record, m: Motion) {
    && r.FrameRecord? && r.frame.Fits()
    && r.frame.timeMs == m.observedAtMs && r.frame.spanUs == m.spanUs && r.frame.flags == m.flags % 0x100
    && (FitsInt32(m.x) ==> r.frame.x == m.x) && (FitsInt32(m.y) ==> r.frame.y == m.y)
    && (m.x > 0x7fff_ffff ==> r.frame.x == 0x7fff_ffff) && (m.x < -0x8000_0000 ==> r.frame.x == -0x8000_0000)
    && (m.y > 0x7fff_ffff ==> r.frame.y == 0x7fff_ffff) && (m.y < -0x8000_0000 ==> r.frame.y == -0x8000_0000)
  }

  /** The frame's record carries all of it. */
  lemma FrameSays(m: Motion, nowUs: nat)
    ensures Says(FrameRecord(FrameFrom(m, nowUs)), m)
  {
  }

  function SourceOf(m: Motion): Record {
    Source(m.link, m.sourceId, m.cpi)
  }

  class Tap {
    // What the tap was attached to.
    const hasGuard: bool
    const replayable: bool
    const restMs: uint32

    // The pipeline, its settings, and the newest key press its guard knows.
    var active: bool
    var settings: uint32
    var press: Option<uint32>
    ghost var epoch: nat

    // The recorder.
    var recording: bool
    var capturedHash: uint32
    var resync: bool
    ghost var log: Log

    // struct zpt_capture_tap.
    var described: bool
    var sourceId: uint16
    var cpi: uint16
    var link: uint8
    var keypressRecorded: bool
    var keypressMs: uint32
    var haveLastFrame: bool
    var lastFrameMs: uint32
    var resyncPending: bool
    var frozen: bool

    ghost predicate Described()
      reads this
    {
      SourceAt(log, |log|) == if described then Some(Source(link, sourceId, cpi)) else None
    }

    ghost predicate Pressed()
      reads this
    {
      && KeypressAt(log, |log|) == (if keypressRecorded then Some(keypressMs) else None)
      && (keypressRecorded ==> hasGuard && press.Some?)
    }

    ghost predicate Current()
      reads this`log, this`epoch, this`settings, this`active
    {
      && (forall k | 0 <= k < |log| :: log[k].context.epoch <= epoch)
      && (log != [] ==>
            log[|log| - 1].context.settings == settings && (active ==> log[|log| - 1].context.epoch == epoch))
    }

    /** Nothing that keeps replay from following goes without a request to start over. */
    ghost predicate Requested()
      reads this
    {
      Broken(log, |log|) ==> resync || resyncPending
    }

    /** What every operation keeps while a recording runs. */
    ghost predicate Valid()
      reads this
    {
      recording ==>
        && AllTruthful(log) && capturedHash == settings && Current()
        && Described() && Pressed() && Requested()
    }

    constructor (hasGuard: bool, replayable: bool, restMs: uint32, settings: uint32)
      requires restMs < 0x8000_0000
      ensures Valid() && !recording && !active && log == [] && press == None
    {
      this.hasGuard, this.replayable, this.restMs, this.settings := hasGuard, replayable, restMs, settings;
      active, press, epoch := false, None, 0;
      recording, capturedHash, resync, log := false, 0, false, [];
      described, sourceId, cpi, link, frozen := false, 0, 0, 0, false;
      keypressRecorded, keypressMs, haveLastFrame, lastFrameMs, resyncPending := false, 0, false, 0, false;
    }

    ghost function Now(source: Option<Record>): Context
      reads this
    {
      Context(epoch, settings, if hasGuard then press else None, source)
    }

    /** Since the stages were entered nothing was reset, and no setting changed. */
    lemma SameAsLast()
      requires active && Current()
      ensures log != [] ==> log[|log| - 1].context.epoch == epoch && log[|log| - 1].context.settings == settings
    {
    }

    /** Number and store a record; a full buffer refuses it, at any time. */
    method Submit(record: Record, ghost source: Option<Record>)
      requires recording
      modifies this`log, this`resync
      ensures SubmittedLast(old(log), log, record, old(Now(source)), old(resync), resync)
      ensures old(Current()) ==> Current()
    {
      var stored: bool := *;
      if !stored {
        resync := true;
      }
      log := log + [Noted(record, stored, Now(source))];
    }

    /** Forgets what was recorded since the last entry. */
    method Restart()
      modifies this`described, this`keypressRecorded, this`haveLastFrame, this`resyncPending
      ensures !described && !keypressRecorded && !haveLastFrame && !resyncPending
    {
      described, keypressRecorded, haveLastFrame, resyncPending := false, false, false, false;
    }

    /** The stages of the pipeline, which was just reset, are entered. */
    method Enter()
      requires recording && AllTruthful(log) && capturedHash == settings
      requires !described && !keypressRecorded
      requires forall k | 0 <= k < |log| :: log[k].context.epoch < epoch
      modifies this`log, this`resync
      ensures Valid()
      ensures SubmittedLast(old(log), log, Entered(settings), old(Now(None)), old(resync), resync)
    {
      hide SourceAt, KeypressAt, Broken;
      Submit(Entered(capturedHash), None);
      EnteredLast(old(log), log, old(Now(None)), old(resync), resync);
    }

    /** A new epoch of the stages, and the entry that opens it in the log. */
    method ResetAndEnter()
      requires recording && AllTruthful(log) && capturedHash == settings && Current()
      modifies this`log, this`resync, this`epoch, this`described, this`keypressRecorded, this`haveLastFrame, this`resyncPending
      ensures Valid() && epoch == old(epoch) + 1
      ensures SubmittedLast(old(log), log, Entered(settings), Now(None), old(resync), resync)
      ensures !described && !keypressRecorded && !haveLastFrame && !resyncPending
    {
      epoch := epoch + 1;
      Restart();
      Enter();
    }

    /** At rest: a frame since the stages were entered, none for the rest time, nothing held. */
    predicate AtRest(nowMs: uint32, deadlinePending: bool)
      reads this
    {
      replayable && haveLastFrame && Since(nowMs, lastFrameMs) >= restMs && !deadlinePending
    }

    /** A pipeline rests once the last frame or flush is the rest time ago, across the wrap of the
        clock. */
    lemma AtRestIff(nowMs: uint32, deadlinePending: bool, origin: uint32)
      requires Offset(nowMs, origin) < 0x8000_0000 && Offset(lastFrameMs, origin) < 0x8000_0000
      ensures AtRest(nowMs, deadlinePending)
         <==> replayable && haveLastFrame && !deadlinePending && Offset(lastFrameMs, origin) + restMs <= Offset(nowMs, origin)
    {
      hide Since, Offset;
      SinceIsDifference(nowMs, lastFrameMs, origin);
    }

    /** A new start was asked for: by the recorder, or by the tap for a second source. */
    predicate Asked()
      reads this
    {
      resync || resyncPending
    }

    /** The frame's source is the one described since the stages were entered. */
    predicate Known(m: Motion)
      reads this
    {
      described && SourceOf(m) == Source(link, sourceId, cpi)
    }

    /** The guard knows a key press that was not recorded since the stages were entered. */
    predicate PressIsNew()
      reads this
    {
      hasGuard && press.Some? && (!keypressRecorded || press.value != keypressMs)
    }

    /** At rest, start over if anything keeps replay from following. The recorder's request is
        taken either way, and only a refused record asks again. */
    method ResyncAtRest(nowMs: uint32, deadlinePending: bool)
      requires recording && active && Valid()
      modifies this`log, this`resync, this`epoch, this`described, this`keypressRecorded, this`haveLastFrame, this`resyncPending
      ensures Valid()
      ensures var enters := old(AtRest(nowMs, deadlinePending) && Asked());
              && Got(old(log), log, EnteredIf(enters, settings))
              && resync == ((!old(AtRest(nowMs, deadlinePending)) && old(resync)) || Refused(old(log), log))
              && resyncPending == (!enters && old(resyncPending))
              && described == (!enters && old(described)) && keypressRecorded == (!enters && old(keypressRecorded))
              && epoch == old(epoch) + if enters then 1 else 0
    {
      if !replayable || !haveLastFrame || Since(nowMs, lastFrameMs) < restMs || deadlinePending {
        return;
      }
      var requested := resync;
      resync := false;
      if requested || resyncPending {
        ResetAndEnter();
      }
    }

    /** Describe the frame's source unless replay knows it already. */
    method DescribeSource(m: Motion)
      requires recording && active && Valid()
      modifies this`log, this`resync, this`described, this`sourceId, this`cpi, this`link, this`resyncPending
      ensures Valid() && described && SourceOf(m) == Source(link, sourceId, cpi)
      ensures SourceAt(log, |log|) == Some(SourceOf(m))
      ensures Got(old(log), log, if old(Known(m)) then [] else [SourceOf(m)])
      ensures resync == (old(resync) || Refused(old(log), log))
      ensures resyncPending == (old(resyncPending) || (old(described) && !old(Known(m))))
    {
      hide SourceAt, KeypressAt, Broken, AllTruthful;
      if described && sourceId == m.sourceId && cpi == m.cpi && link == m.link {
        return;
      }
      SubmitSource(m);
    }

    method SubmitSource(m: Motion)
      requires recording && active && Valid()
      modifies this`log, this`resync, this`described, this`sourceId, this`cpi, this`link, this`resyncPending
      ensures Valid() && described && SourceOf(m) == Source(link, sourceId, cpi)
      ensures SourceAt(log, |log|) == Some(SourceOf(m))
      ensures SubmittedLast(old(log), log, SourceOf(m), Now(None), old(resync), resync)
      ensures resyncPending == (old(resyncPending) || old(described))
    {
      hide SourceAt, KeypressAt, Broken, AllTruthful, Current, SubmittedLast;
      SameAsLast();
      // A second source since the entry breaks the log (Broken), so ask for a new start.
      resyncPending := resyncPending || described;
      sourceId, cpi, link, described := m.sourceId, m.cpi, m.link, true;
      Submit(SourceOf(m), None);
      SourceLast(old(log), log, SourceOf(m), Now(None), old(resync), resync);
    }

    /** Brings the log's newest key press up to the guard's, which stays frozen until Done. */
    method RecordKeypress()
      requires recording && active && Valid()
      modifies this`log, this`resync, this`keypressRecorded, this`keypressMs, this`frozen
      ensures Valid() && Now(None).press == KeypressAt(log, |log|)
      ensures SourceAt(log, |log|) == old(SourceAt(log, |log|))
      ensures hasGuard ==> frozen
      ensures !hasGuard ==> frozen == old(frozen)
      ensures !PressIsNew() && Got(old(log), log, PressIf(old(PressIsNew()), press))
      ensures resync == (old(resync) || Refused(old(log), log))
    {
      hide SourceAt, KeypressAt, Broken, AllTruthful, Current;
      SameAsLast();
      if !hasGuard {
        return;
      }
      frozen := true;
      if press.Some? && (!keypressRecorded || press.value != keypressMs) {
        keypressMs, keypressRecorded := press.value, true;
        Submit(Keypress(keypressMs), None);
        KeypressLast(old(log), log, keypressMs, Now(None), old(resync), resync);
      }
    }

    /** The frame to come is at rest and starts over. */
    predicate Enters(m: Motion, deadlinePending: bool)
      reads this
    {
      AtRest(m.observedAtMs, deadlinePending) && Asked()
    }

    /** What is recorded before a frame: the entry of a new start, its source unless that is known
        since the stages were entered, and its key press if that is new since. */
    ghost function Lead(m: Motion, deadlinePending: bool): (records: seq<Record>)
      reads this
      ensures forall r <- records :: !Processed(r)
    {
      var enters := Enters(m, deadlinePending);
      EnteredIf(enters, settings)
        + (if !enters && Known(m) then [] else [SourceOf(m)])
        + PressIf(PressIsNew() || (enters && hasGuard), press)
    }

    /** What keeps replay from following is met by a new start at the next rest. */
    lemma BrokenEnters(m: Motion, deadlinePending: bool)
      requires recording && Valid() && AtRest(m.observedAtMs, deadlinePending) && Broken(log, |log|)
      ensures Enters(m, deadlinePending)
    {
      hide Broken, AllTruthful, SourceAt, KeypressAt;
    }

    /** A new start, if one is due, and the frame's source. */
    method EnterAndDescribe(m: Motion, deadlinePending: bool)
      requires recording && active && Valid()
      modifies this`log, this`resync, this`epoch, this`described, this`keypressRecorded, this`haveLastFrame, this`resyncPending,
        this`sourceId, this`cpi, this`link
      ensures Valid() && Known(m) && SourceAt(log, |log|) == Some(SourceOf(m))
      ensures var enters := old(Enters(m, deadlinePending));
              && Got(old(log), log, EnteredIf(enters, settings) + if !enters && old(Known(m)) then [] else [SourceOf(m)])
              && resync == ((!old(AtRest(m.observedAtMs, deadlinePending)) && old(resync)) || Refused(old(log), log))
              && resyncPending == (!enters && (old(resyncPending) || (old(described) && !old(Known(m)))))
              && epoch == (old(epoch) + if enters then 1 else 0) && keypressRecorded == (!enters && old(keypressRecorded))
    {
      hide Valid, Got, Refused, SourceAt, KeypressAt, AllTruthful, Broken, AtRest, Processed;
      ghost var before := log;
      ghost var enters := Enters(m, deadlinePending);
      ResyncAtRest(m.observedAtMs, deadlinePending);
      ghost var entered, known := log, Known(m);
      DescribeSource(m);
      GotTwice(before, entered, log, EnteredIf(enters, settings), if known then [] else [SourceOf(m)]);
    }

    /** All that is recorded before a frame. */
    method Describe(m: Motion, deadlinePending: bool)
      requires recording && active && Valid()
      modifies this`log, this`resync, this`epoch, this`described, this`keypressRecorded, this`haveLastFrame, this`resyncPending,
        this`sourceId, this`cpi, this`link, this`keypressMs, this`frozen
      ensures Valid() && Known(m) && !PressIsNew() && (hasGuard ==> frozen)
      ensures SourceAt(log, |log|) == Some(SourceOf(m)) && Now(None).press == KeypressAt(log, |log|)
      ensures Got(old(log), log, old(Lead(m, deadlinePending)))
      ensures resync == ((!old(AtRest(m.observedAtMs, deadlinePending)) && old(resync)) || Refused(old(log), log))
      ensures resyncPending == (!old(Enters(m, deadlinePending)) && (old(resyncPending) || (old(described) && !old(Known(m)))))
      ensures epoch == old(epoch) + if old(Enters(m, deadlinePending)) then 1 else 0
    {
      hide Valid, Got, Refused, SourceAt, KeypressAt, AllTruthful, Broken, AtRest, Processed, Enters;
      ghost var before, enters := log, Enters(m, deadlinePending);
      ghost var lead := EnteredIf(enters, settings) + if !enters && Known(m) then [] else [SourceOf(m)];
      EnterAndDescribe(m, deadlinePending);
      ghost var sourced, pressed := log, PressIsNew();
      RecordKeypress();
      GotTwice(before, sourced, log, lead, PressIf(pressed, press));
    }

    /** A raw motion frame, before the stages get it. */
    method Input(m: Motion, nowUs: nat, deadlinePending: bool)
      requires active && Valid()
      modifies this`log, this`resync, this`epoch, this`described, this`keypressRecorded, this`haveLastFrame, this`resyncPending,
        this`sourceId, this`cpi, this`link, this`keypressMs, this`frozen, this`lastFrameMs
      ensures Valid()
      ensures !recording ==> log == old(log) && frozen == old(frozen)
      ensures recording ==> SubmittedOne(old(log), log, FrameRecord(FrameFrom(m, nowUs)), Now(Some(SourceOf(m))))
      ensures recording ==> haveLastFrame && lastFrameMs == m.observedAtMs && (hasGuard ==> frozen)
      ensures recording ==>
                var last := log[|log| - 1];
                Says(last.record, m) && last.context.source == Some(Source(m.link, m.sourceId, m.cpi))
      ensures recording ==>
                && Got(old(log), log, old(Lead(m, deadlinePending)) + [FrameRecord(FrameFrom(m, nowUs))])
                && Known(m) && !PressIsNew()
      ensures recording ==>
                && resync == ((!old(AtRest(m.observedAtMs, deadlinePending)) && old(resync)) || Refused(old(log), log))
                && resyncPending == (!old(Enters(m, deadlinePending)) && (old(resyncPending) || (old(described) && !old(Known(m)))))
                && epoch == old(epoch) + if old(Enters(m, deadlinePending)) then 1 else 0
      ensures recording && old(AtRest(m.observedAtMs, deadlinePending)) && Broken(old(log), |old(log)|) ==>
                old(Enters(m, deadlinePending))
    {
      hide Valid, Got, Refused, SourceAt, KeypressAt, AllTruthful, Broken, AtRest, Lead, Enters, FrameFrom, Says;
      if recording {
        if AtRest(m.observedAtMs, deadlinePending) && Broken(log, |log|) {
          BrokenEnters(m, deadlinePending);
        }
        ghost var lead := Lead(m, deadlinePending);
        Describe(m, deadlinePending);
        ghost var described := log;
        SubmitProcessed(FrameRecord(FrameFrom(m, nowUs)), Some(SourceOf(m)), m.observedAtMs);
        Finished(old(log), described, log, lead, FrameRecord(FrameFrom(m, nowUs)), Now(Some(SourceOf(m))));
        FrameSays(m, nowUs);
      }
    }

    /** Submit what the stages are about to process. */
    method SubmitProcessed(record: Record, ghost source: Option<Record>, timeMs: uint32)
      requires recording && active && Valid() && Processed(record)
      requires Now(None).press == KeypressAt(log, |log|)
      requires record.FrameRecord? ==> source.Some? && source == SourceAt(log, |log|)
      modifies this`log, this`resync, this`lastFrameMs, this`haveLastFrame
      ensures Valid() && lastFrameMs == timeMs && haveLastFrame == (old(haveLastFrame) || record.FrameRecord?)
      ensures Got(old(log), log, [record]) && log[|old(log)|].context == Now(source)
      ensures resync == (old(resync) || Refused(old(log), log))
    {
      hide SourceAt, KeypressAt, Broken, AllTruthful, Current;
      SameAsLast();
      Submit(record, source);
      ProcessedLast(old(log), log, record, Now(source), old(resync), resync);
      lastFrameMs := timeMs;
      haveLastFrame := haveLastFrame || record.FrameRecord?;
    }

    /** A flush, before the first stage whose deadline is due. */
    method Flush(nowMs: uint32)
      requires active && Valid()
      modifies this`log, this`resync, this`keypressRecorded, this`keypressMs, this`frozen, this`lastFrameMs, this`haveLastFrame
      ensures Valid()
      ensures !recording ==> log == old(log) && frozen == old(frozen)
      ensures recording ==> SubmittedOne(old(log), log, CaptureCodec.Flush(nowMs), Now(None)) && lastFrameMs == nowMs
      ensures haveLastFrame == old(haveLastFrame)
      ensures recording && hasGuard ==> frozen
      ensures recording ==>
                && Got(old(log), log, PressIf(old(PressIsNew()), press) + [CaptureCodec.Flush(nowMs)])
                && resync == (old(resync) || Refused(old(log), log)) && !PressIsNew()
    {
      hide Valid, Got, Refused, AllTruthful;
      if recording {
        ghost var pressed := PressIsNew();
        RecordKeypress();
        ghost var described := log;
        SubmitProcessed(CaptureCodec.Flush(nowMs), None, nowMs);
        Finished(old(log), described, log, PressIf(pressed, press), CaptureCodec.Flush(nowMs), Now(None));
      }
    }

    /** The push or flush is over. */
    method Done()
      requires Valid()
      modifies this`frozen
      ensures Valid() && !frozen
    {
      frozen := false;
    }

    /** A request to start over is met once: after a frame at rest that starts over, with every
        record stored, the next frame from that source is recorded alone, after a rest or not. */
    method TwoFrames(m: Motion, nowUs: nat, deadlinePending: bool, m': Motion, nowUs': nat, deadlinePending': bool)
      returns (ghost between: Log)
      requires recording && active && Valid()
      modifies this`log, this`resync, this`epoch, this`described, this`keypressRecorded, this`haveLastFrame, this`resyncPending,
        this`sourceId, this`cpi, this`link, this`keypressMs, this`frozen, this`lastFrameMs
      ensures Valid() && Got(old(log), between, old(Lead(m, deadlinePending)) + [FrameRecord(FrameFrom(m, nowUs))])
      ensures old(Enters(m, deadlinePending)) && !Refused(old(log), between) && SourceOf(m') == SourceOf(m) ==>
                Got(between, log, [FrameRecord(FrameFrom(m', nowUs'))]) && epoch == old(epoch) + 1
    {
      hide Valid, Got, Refused, AllTruthful, Broken, AtRest, SubmittedOne, FrameFrom;
      Input(m, nowUs, deadlinePending);
      Done();
      between := log;
      assert !Enters(m', deadlinePending') && SourceOf(m') == SourceOf(m) ==> Lead(m', deadlinePending') == [];
      assert Lead(m', deadlinePending') == [] ==>
          Lead(m', deadlinePending') + [FrameRecord(FrameFrom(m', nowUs'))] == [FrameRecord(FrameFrom(m', nowUs'))];
      Input(m', nowUs', deadlinePending');
    }

    /** The worker gave up on the link and dropped what was stored. */
    method StoredLost()
      requires Valid()
      modifies this`resync
      ensures Valid() && resync
    {
      resync := true;
    }

    /** The pipeline was reset and its stages activated. */
    method Activated()
      requires !active && Valid()
      modifies this`active, this`epoch, this`log, this`resync, this`described, this`keypressRecorded, this`haveLastFrame,
        this`resyncPending
      ensures active && Valid()
      ensures recording ==> SubmittedLast(old(log), log, Entered(settings), Now(None), old(resync), resync)
      ensures recording ==> !described && !keypressRecorded && !haveLastFrame && !resyncPending
    {
      epoch := epoch + 1;
      active := true;
      if recording {
        Restart();
        Enter();
      }
    }

    /** An inactive pipeline is reset, as when its activation fails. */
    method ResetInactive()
      requires !active && Valid()
      modifies this`epoch
      ensures Valid()
    {
      epoch := epoch + 1;
    }

    /** The stages were deactivated and reset. */
    method Deactivated()
      requires active && Valid()
      modifies this`active, this`epoch, this`log, this`resync
      ensures !active && Valid()
      ensures recording ==> SubmittedLast(old(log), log, Left, Now(None), old(resync), resync)
    {
      hide SourceAt, KeypressAt, Broken, AllTruthful;
      epoch := epoch + 1;
      active := false;
      if recording {
        Submit(Left, None);
        BoundaryLast(old(log), log, Left, Now(None), old(resync), resync);
      }
    }

    /** A key press reaches the guard. */
    method KeyPressed(timeMs: uint32)
      requires Valid()
      modifies this`press
      ensures Valid() && press == Some(timeMs)
    {
      press := Some(timeMs);
    }

    /** A setting changed, between operations. */
    method SettingsChange(hash: uint32)
      requires Valid()
      modifies this`settings, this`capturedHash, this`log, this`resync
      ensures Valid() && settings == hash
      ensures recording ==> resync && |log| == |old(log)| + 1 && log[..|old(log)|] == old(log) && log[|old(log)|].record.SettingsChanged?
    {
      hide SourceAt, KeypressAt, Broken, AllTruthful;
      settings := hash;
      if recording {
        capturedHash := hash;
        ghost var resyncWas := resync;
        Submit(SettingsChanged, None);
        BoundaryLast(old(log), log, SettingsChanged, Now(None), resyncWas, resync);
        resync := true;
      }
    }

    method Stop()
      modifies this`recording
      ensures Valid() && !recording
    {
      recording := false;
    }

    /** A new recording, between operations. */
    method Start()
      modifies this
      ensures Valid() && recording
      ensures active == old(active) && settings == old(settings) && press == old(press)
      ensures if replayable && active then SubmittedLast([], log, Entered(settings), Now(None), false, resync)
              else log == [] && !resync
      ensures !described && !keypressRecorded && !haveLastFrame && !resyncPending
    {
      log, resync, capturedHash, recording := [], false, settings, true;
      Restart();
      if replayable && active {
        ResetAndEnter();
      }
    }
  }

  // ----- what one more record keeps -----

  /** `record` was submitted, and asked for a new start if it was refused. */
  ghost predicate SubmittedLast(was: Log, log: Log, record: Record, context: Context, resyncWas: bool, resync: bool) {
    |log| == |was| + 1 && log == was + [Noted(record, log[|was|].stored, context)] && resync == (resyncWas || !log[|was|].stored)
  }

  /** The log got one frame or flush, last, and what describes it before. */
  ghost predicate SubmittedOne(was: Log, log: Log, record: Record, context: Context) {
    && |was| < |log| && log[..|was|] == was
    && log[|log| - 1].record == record && log[|log| - 1].context == context
    && forall i | |was| <= i < |log| - 1 :: !Processed(log[i].record)
  }

  /** The log got these records, in order. */
  ghost predicate Got(was: Log, log: Log, records: seq<Record>) {
    && |log| == |was| + |records| && log[..|was|] == was
    && forall k | 0 <= k < |records| :: log[|was| + k].record == records[k]
  }

  /** One of the records the log got was refused. */
  ghost predicate Refused(was: Log, log: Log) {
    exists i :: |was| <= i < |log| && !log[i].stored
  }

  ghost function EnteredIf(enters: bool, settings: uint32): (records: seq<Record>)
    ensures forall r <- records :: !Processed(r)
  {
    if enters then [Entered(settings)] else []
  }

  ghost function PressIf(pressed: bool, press: Option<uint32>): (records: seq<Record>)
    ensures forall r <- records :: !Processed(r)
  {
    if pressed && press.Some? then [Keypress(press.value)] else []
  }

  lemma GotTwice(a: Log, b: Log, c: Log, first: seq<Record>, second: seq<Record>)
    requires Got(a, b, first) && Got(b, c, second)
    ensures Got(a, c, first + second)
    ensures Refused(a, c) <==> Refused(a, b) || Refused(b, c)
  {
    assert c[..|a|] == c[..|b|][..|a|];
    forall i | 0 <= i < |b| ensures c[i] == b[i] {
      assert c[i] == c[..|b|][i];
    }
  }

  /** What describes a frame or flush, and then itself. */
  lemma Finished(was: Log, before: Log, log: Log, lead: seq<Record>, record: Record, context: Context)
    requires Got(was, before, lead) && Got(before, log, [record]) && log[|before|].context == context
    requires forall r <- lead :: !Processed(r)
    ensures SubmittedOne(was, log, record, context)
    ensures Got(was, log, lead + [record])
    ensures Refused(was, log) <==> Refused(was, before) || Refused(before, log)
  {
    GotTwice(was, before, log, lead, [record]);
    assert log[|before| + 0].record == [record][0];
    var all := lead + [record];
    forall i | |was| <= i < |log| - 1 ensures !Processed(log[i].record) {
      assert log[|was| + (i - |was|)].record == all[i - |was|] == lead[i - |was|];
      assert lead[i - |was|] in lead;
    }
  }

  lemma EnteredLast(was: Log, log: Log, context: Context, resyncWas: bool, resync: bool)
    requires AllTruthful(was) && SubmittedLast(was, log, Entered(context.settings), context, resyncWas, resync)
    requires forall k | 0 <= k < |was| :: was[k].context.epoch < context.epoch
    ensures AllTruthful(log) && SourceAt(log, |log|) == None && KeypressAt(log, |log|) == None
    ensures Broken(log, |log|) ==> resync
  {
    Appended(was, log[|was|]);
    TruthfulStays(was, log[|was|]);
  }

  lemma SourceLast(was: Log, log: Log, source: Record, context: Context, resyncWas: bool, resync: bool)
    requires AllTruthful(was) && source.Source? && SubmittedLast(was, log, source, context, resyncWas, resync)
    requires was != [] ==> was[|was| - 1].context.epoch == context.epoch && was[|was| - 1].context.settings == context.settings
    ensures AllTruthful(log) && SourceAt(log, |log|) == Some(source) && KeypressAt(log, |log|) == KeypressAt(was, |was|)
    ensures Broken(log, |log|) ==> resync || Broken(was, |was|) || SourceAt(was, |was|).Some?
  {
    Appended(was, log[|was|]);
    TruthfulStays(was, log[|was|]);
  }

  lemma KeypressLast(was: Log, log: Log, timeMs: uint32, context: Context, resyncWas: bool, resync: bool)
    requires AllTruthful(was) && SubmittedLast(was, log, Keypress(timeMs), context, resyncWas, resync)
    requires was != [] ==> was[|was| - 1].context.epoch == context.epoch && was[|was| - 1].context.settings == context.settings
    ensures AllTruthful(log) && SourceAt(log, |log|) == SourceAt(was, |was|) && KeypressAt(log, |log|) == Some(timeMs)
    ensures Broken(log, |log|) ==> resync || Broken(was, |was|)
  {
    Appended(was, log[|was|]);
    TruthfulStays(was, log[|was|]);
  }

  lemma ProcessedLast(was: Log, log: Log, record: Record, context: Context, resyncWas: bool, resync: bool)
    requires AllTruthful(was) && Processed(record) && SubmittedLast(was, log, record, context, resyncWas, resync)
    requires was != [] ==> was[|was| - 1].context.epoch == context.epoch && was[|was| - 1].context.settings == context.settings
    requires record.FrameRecord? ==> context.source.Some? && context.source == SourceAt(was, |was|)
    requires context.press == KeypressAt(was, |was|)
    ensures AllTruthful(log) && SourceAt(log, |log|) == SourceAt(was, |was|) && KeypressAt(log, |log|) == KeypressAt(was, |was|)
    ensures Broken(log, |log|) ==> resync || Broken(was, |was|)
  {
    Appended(was, log[|was|]);
    PrefixAgrees(was, log, |was|);
    TruthfulStays(was, log[|was|]);
  }

  lemma BoundaryLast(was: Log, log: Log, record: Record, context: Context, resyncWas: bool, resync: bool)
    requires AllTruthful(was) && (record.Left? || record.SettingsChanged?)
    requires SubmittedLast(was, log, record, context, resyncWas, resync)
    ensures AllTruthful(log) && SourceAt(log, |log|) == SourceAt(was, |was|) && KeypressAt(log, |log|) == KeypressAt(was, |was|)
    ensures Broken(log, |log|) ==> resync || Broken(was, |was|) || record.SettingsChanged?
  {
    Appended(was, log[|was|]);
    TruthfulStays(was, log[|was|]);
  }
}
