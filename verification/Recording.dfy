/** A recording from the tap to the replay: the tap's log through the ring, the link and the
    host's decoder, split into traces, converted, and run (src/observer/capture.c to
    host/runners/cursor_pipeline_replay.c). */
module Recording {
  import opened Bytes
  import opened CaptureCodec
  import opened TapLog
  import opened TraceSegments
  import D = CaptureDecoder
  import S = CaptureSession
  import CaptureLog
  import T = ReplayTime
  import G = ReplayGuard
  import R = RecordingStats

  /** The session carried exactly the records the tap submitted. */
  ghost predicate Carried(log: CaptureLog.Log, tap: Log) {
    |log| == |tap| && forall i | 0 <= i < |log| :: log[i].record == tap[i].record
  }

  /** Whatever the buffer, the link and the host lose, splitting what arrived never fails, and
      every trace holds one unbroken stretch of the tap's log, from an entry up to a boundary. */
  lemma RecordingSplits(data: seq<uint8>, actions: seq<S.Action>, s: S.Session, capacity: nat, tap: Log)
    requires data != [] && S.Runs(S.Start(data), actions, s, capacity)
    requires Carried(s.log, tap) && AllTruthful(tap) && |tap| < 0x1_0000_0000
    ensures !SegmentsOf(s.received).failed
    ensures SegmentsOf(s.received).done == TracesOf(TracesIn(tap, Kept(s.received)))
    ensures forall p <- TracesIn(tap, Kept(s.received)) :: Finished(p, tap, Kept(s.received), |tap|)
    ensures forall n <- Kept(s.received) :: n < |s.log| && s.log[n].kept
  {
    hide S.Runs, AllTruthful, Finished, TracesIn, SegmentsOf;
    S.LossSafety(data, actions, s, capacity);
    SegmentsFound(s.received, tap);
    TracesWhole(tap, Kept(s.received));
  }

  /** What a trace's replay does: the frame or flush at `i` in the tap's log reaches the runner
      with the motion recorded and the millisecond its stages saw, counted from the trace's start,
      and the guard answers it as firmware's frozen guard did, if and only if the conversion did
      not leave out the key press that guard was frozen with while it still suppressed. */
  lemma RecordingReplays(p: Placed, tap: Log, kept: set<nat>, i: nat, window: nat, useSpan: bool, baseMs: uint32, origin: uint32)
    requires Whole(p, tap, kept) && AllTruthful(tap) && p.from < i < p.till
    requires Processed(tap[i].record) && tap[i].record.Fits()
    requires var segment := RecordsOf(p.trace.events);
             && T.Events(segment) && segment != [] && T.Windowed(segment, origin) && G.PressesInOrder(segment, origin)
             && T.PlayedUs(T.Remembered(segment, T.StartMs(segment), window), baseMs) < 0x1_0000_0000
    ensures var segment, k := RecordsOf(p.trace.events), |EventsOf(tap, p.from + 1, i)|;
            && k < |segment| && segment[k] == tap[i].record && T.Events(segment[..k])
            && var press, nowMs := tap[i].context.press, T.TimeOf(tap[i].record);
               var lines, at := G.TraceLines(segment, window, useSpan, baseMs), G.LineIndex(segment, k, window);
               && at < |lines| && G.Carries(lines[at], tap[i].record, useSpan)
               && (exists answer :: G.Answered(lines, at, Offset(nowMs, baseMs), window, answer))
               && (G.Answered(lines, at, Offset(nowMs, baseMs), window, G.Suppresses(press, nowMs, window))
                   <==> !G.Forgets(press, T.StartMs(segment), nowMs, window))
  {
    hide AllTruthful, T.Matters, G.Carries, G.Answered, G.TraceLines, G.LineIndex, G.Suppresses, G.Forgets, T.Remembered, T.PlayedUs, T.StartMs,
      Offset, T.Windowed, G.PressesInOrder, LastPress;
    var before := EventsOf(tap, p.from + 1, i);
    var segment := RecordsOf(p.trace.events);
    EventOf(p, tap, kept, i);
    G.GuardAnswer(segment, |before|, window, useSpan, baseMs, origin);
    MattersHere(segment, |before|, window);
    G.EventReplays(segment, |before|, window, useSpan, baseMs);
    G.GuardReplaysIff(segment, |before|, window, useSpan, baseMs, origin);
  }

  lemma MattersHere(segment: seq<Record>, k: nat, window: nat)
    requires k < |segment| && T.Events(segment) && Processed(segment[k]) && segment[k].Fits()
    ensures T.Matters(segment[k], T.StartMs(segment), window)
  {
    hide T.StartMs;
  }

  /** The events of the trace before the one at `i`, and the newest key press among them. */
  lemma EventOf(p: Placed, tap: Log, kept: set<nat>, i: nat)
    requires Whole(p, tap, kept) && AllTruthful(tap) && p.from < i < p.till && Processed(tap[i].record)
    ensures var segment, k := RecordsOf(p.trace.events), |EventsOf(tap, p.from + 1, i)|;
            && k < |segment| && segment[k] == tap[i].record && LastPress(segment[..k]) == tap[i].context.press
  {
    hide AllTruthful, LastPress, EventsOf;
    TraceIsTrue(p, tap, kept, i);
    EventPlace(p.trace.events, EventsOf(tap, p.from + 1, i), D.Numbered(Wrap32(i), tap[i].record));
  }

  lemma EventPlace(events: seq<D.Numbered>, before: seq<D.Numbered>, n: D.Numbered)
    requires before + [n] <= events
    ensures |before| < |events| && RecordsOf(events)[..|before|] == RecordsOf(before) && RecordsOf(events)[|before|] == n.record
  {
    assert events[|before|] == (before + [n])[|before|];
    forall k | 0 <= k < |before| ensures events[k] == before[k] {
      assert events[k] == (before + [n])[k];
    }
  }

  /** What the tuner shows of a recording in progress: every number up to the last received is
      of a record it has or of one counted as dropped. */
  lemma CountsAddUp(data: seq<uint8>, actions: seq<S.Action>, s: S.Session, capacity: nat)
    requires data != [] && S.Runs(S.Start(data), actions, s, capacity) && |s.log| < 0x8000_0000
    ensures var t := R.AddAll(R.CREATED, s.received);
            t.records == |s.received| && t.records + t.dropped == t.nextSequence <= |s.log|
  {
    hide S.Runs, R.AddAll;
    S.LossSafety(data, actions, s, capacity);
    R.Conserved(s.received);
  }
}
