/** From the events of a trace to fixture events (host/replay/capture-convert.js,
    host/replay/fixture.js) and through the runner's lines back to the milliseconds and key
    presses the stages decide with (host/runners/cursor_pipeline_replay.c). */
module ReplayTime {
  import opened Bytes
  import opened CaptureCodec
  import opened TapLog

  const FLAG_SPAN_CLIPPED: int := 0x80
  const RESTART_SPAN_US: int := 40000

  /** The event's millisecond on the firmware's 32-bit clock. */
  function TimeOf(e: Record): uint32
    requires IsEvent(e) && e.Fits()
  {
    match e
    case FrameRecord(f) => f.timeMs
    case Keypress(t) => t
    case Flush(t) => t
  }

  ghost predicate Events(events: seq<Record>) {
    forall e <- events :: IsEvent(e) && e.Fits()
  }

  /** The events lie within 2^31 ms of uptime, from `origin` on. */
  ghost predicate Windowed(events: seq<Record>, origin: uint32)
    requires Events(events)
  {
    forall e <- events :: Offset(TimeOf(e), origin) < 0x8000_0000
  }

  // ----- fixture events -----

  /** The first frame or flush, or else the first event. */
  function StartMs(events: seq<Record>): uint32
    requires events != [] && Events(events)
    decreases |events|
  {
    if !events[0].Keypress? || |events| == 1 then TimeOf(events[0])
    else if forall e <- events[1..] :: e.Keypress? then TimeOf(events[0])
    else StartMs(events[1..])
  }

  /** Whether the conversion keeps an event: a key press only if it is less than the window
      before `startMs`. */
  predicate Matters(e: Record, startMs: uint32, window: nat)
    requires IsEvent(e) && e.Fits()
  {
    !e.Keypress? || Since(startMs, TimeOf(e)) < window
  }

  function Remembered(events: seq<Record>, startMs: uint32, window: nat): (kept: seq<Record>)
    requires Events(events)
    ensures Events(kept)
  {
    if events == [] then []
    else
      var last := events[|events| - 1];
      Remembered(events[..|events| - 1], startMs, window) + if Matters(last, startMs, window) then [last] else []
  }

  /** The earliest time. */
  function BaseMs(events: seq<Record>): uint32
    requires events != [] && Events(events)
  {
    var t := TimeOf(events[|events| - 1]);
    if |events| == 1 then t
    else
      var base := BaseMs(events[..|events| - 1]);
      if Since(t, base) < 0 then t else base
  }

  lemma {:induction false} BaseIsEarliest(events: seq<Record>, origin: uint32)
    requires events != [] && Events(events) && Windowed(events, origin)
    ensures Offset(BaseMs(events), origin) < 0x8000_0000
    ensures exists e :: e in events && BaseMs(events) == TimeOf(e)
    ensures forall e <- events :: Offset(BaseMs(events), origin) <= Offset(TimeOf(e), origin)
    decreases |events|
  {
    var last := events[|events| - 1];
    assert last in events;
    if |events| > 1 {
      var rest := events[..|events| - 1];
      assert forall e <- rest :: e in events;
      BaseIsEarliest(rest, origin);
      SinceIsDifference(TimeOf(last), BaseMs(rest), origin);
      forall e <- events ensures Offset(BaseMs(events), origin) <= Offset(TimeOf(e), origin) {
        assert e in rest || e == last;
      }
    }
  }

  /** `late` is 0 where the fixture leaves it out. */
  datatype FixtureEvent =
    | MotionEvent(delta: int, x: int, y: int, span: int, late: int)
    | FlushEvent(delta: int, late: int)
    | KeypressEvent(delta: int, late: int)

  datatype Fixture = Fixture(events: seq<FixtureEvent>, spans: bool, startMs: uint32)

  /** The span of a fixture's motion: at least RESTART_SPAN_US under the clipped flag. */
  function SpanOf(f: Frame): int
    requires 0 <= f.flags < 0x100
  {
    if f.flags >= FLAG_SPAN_CLIPPED && f.spanUs < RESTART_SPAN_US then RESTART_SPAN_US else f.spanUs
  }

  /** The event's own time in microseconds. */
  function OwnUs(e: Record, baseMs: uint32): nat
    requires IsEvent(e) && e.Fits()
  {
    Offset(TimeOf(e), baseMs) * 1000 + if e.FrameRecord? then e.frame.timeUs else 0
  }

  function Max(a: int, b: int): int {
    if a < b then b else a
  }

  /** When an event is replayed: its own time, or that of an event recorded before it. */
  function PlayedUs(events: seq<Record>, baseMs: uint32): nat
    requires Events(events)
  {
    if events == [] then 0
    else Max(OwnUs(events[|events| - 1], baseMs), PlayedUs(events[..|events| - 1], baseMs))
  }

  function Converted(e: Record, time: nat, previous: nat, baseMs: uint32): FixtureEvent
    requires IsEvent(e) && e.Fits()
  {
    var late, delta := time / 1000 - Offset(TimeOf(e), baseMs), time - previous;
    match e
    case FrameRecord(f) => MotionEvent(delta, f.x, f.y, SpanOf(f), Max(late, 0))
    case Flush(_) => FlushEvent(delta, Max(late, 0))
    case Keypress(_) => KeypressEvent(delta, Max(late, 0))
  }

  function Convert(events: seq<Record>, baseMs: uint32): (out: seq<FixtureEvent>)
    requires Events(events)
    ensures |out| == |events|
  {
    if events == [] then []
    else
      var before := events[..|events| - 1];
      Convert(before, baseMs)
        + [Converted(events[|events| - 1], PlayedUs(events, baseMs), PlayedUs(before, baseMs), baseMs)]
  }

  predicate HasSpan(events: seq<Record>)
    requires Events(events)
  {
    exists e <- events :: e.FrameRecord? && SpanOf(e.frame) != 0
  }

  /** `fixtureEvents`: nothing if no event matters. */
  method FixtureEvents(segment: seq<Record>, window: nat) returns (r: Option<Fixture>)
    requires segment != [] && Events(segment)
    ensures var events := Remembered(segment, StartMs(segment), window);
            r == if events == [] then None
                 else Some(Fixture(Convert(events, BaseMs(events)), HasSpan(events), BaseMs(events)))
  {
    var events := Remembered(segment, StartMs(segment), window);
    if events == [] {
      return None;
    }
    var baseMs := EarliestMs(events);
    var previous: nat := 0;
    var spans := false;
    var out: seq<FixtureEvent> := [];
    Nothing(events, baseMs);
    for i := 0 to |events|
      invariant Converting(events, i, baseMs, previous, out, spans)
    {
      assert events[i] in events;
      var event, time, span := ConvertEvent(events[i], baseMs, previous);
      NextConverted(events, i, baseMs, previous, out, spans, time);
      previous := time;
      spans := spans || span != 0;
      out := out + [event];
    }
    AllConverted(events, baseMs, previous, out, spans);
    r := Some(Fixture(out, spans, baseMs));
  }

  /** One event: when it is replayed, and how late. */
  method ConvertEvent(e: Record, baseMs: uint32, previous: nat) returns (event: FixtureEvent, time: nat, span: int)
    requires IsEvent(e) && e.Fits()
    ensures time == Max(OwnUs(e, baseMs), previous)
    ensures event == Converted(e, time, previous, baseMs)
    ensures span == if e.FrameRecord? then SpanOf(e.frame) else 0
  {
    var ownMs := Offset(TimeOf(e), baseMs);
    var own := ownMs * 1000 + if e.FrameRecord? then e.frame.timeUs else 0;
    time := Max(own, previous);
    var late := time / 1000 - ownMs;
    var delta := time - previous;
    span := 0;
    if e.FrameRecord? {
      span := SpanOf(e.frame);
      event := MotionEvent(delta, e.frame.x, e.frame.y, span, if late > 0 then late else 0);
    } else if e.Flush? {
      event := FlushEvent(delta, if late > 0 then late else 0);
    } else {
      event := KeypressEvent(delta, if late > 0 then late else 0);
    }
  }

  ghost predicate Converting(events: seq<Record>, i: nat, baseMs: uint32, previous: nat, out: seq<FixtureEvent>, spans: bool)
    requires i <= |events| && Events(events)
  {
    previous == PlayedUs(events[..i], baseMs) && out == Convert(events[..i], baseMs) && spans == HasSpan(events[..i])
  }

  lemma Nothing(events: seq<Record>, baseMs: uint32)
    requires Events(events)
    ensures Converting(events, 0, baseMs, 0, [], false)
  {
  }

  lemma NextConverted(events: seq<Record>, i: nat, baseMs: uint32, previous: nat, out: seq<FixtureEvent>, spans: bool, time: nat)
    requires i < |events| && Events(events) && Converting(events, i, baseMs, previous, out, spans)
    requires events[i] in events && time == Max(OwnUs(events[i], baseMs), previous)
    ensures Converting(events, i + 1, baseMs, time, out + [Converted(events[i], time, previous, baseMs)],
                       spans || (events[i].FrameRecord? && SpanOf(events[i].frame) != 0))
  {
    hide Converted, OwnUs, SpanOf;
    Before(events, i);
    SpanNext(events[..i], events[i]);
  }

  lemma SpanNext(events: seq<Record>, e: Record)
    requires Events(events) && IsEvent(e) && e.Fits()
    ensures Events(events + [e])
    ensures HasSpan(events + [e]) == (HasSpan(events) || (e.FrameRecord? && SpanOf(e.frame) != 0))
  {
    hide SpanOf;
    assert forall d <- events + [e] :: d in events || d == e;
    assert e in events + [e];
    if HasSpan(events) {
      var d :| d in events && d.FrameRecord? && SpanOf(d.frame) != 0;
      assert d in events + [e];
    }
  }

  lemma AllConverted(events: seq<Record>, baseMs: uint32, previous: nat, out: seq<FixtureEvent>, spans: bool)
    requires Events(events) && Converting(events, |events|, baseMs, previous, out, spans)
    ensures out == Convert(events, baseMs) && spans == HasSpan(events)
  {
    assert events[..|events|] == events;
  }

  method EarliestMs(events: seq<Record>) returns (baseMs: uint32)
    requires events != [] && Events(events)
    ensures baseMs == BaseMs(events)
  {
    baseMs := TimeOf(events[0]);
    for i := 1 to |events|
      invariant baseMs == BaseMs(events[..i])
    {
      assert events[i] in events;
      Before(events, i);
      if Since(TimeOf(events[i]), baseMs) < 0 {
        baseMs := TimeOf(events[i]);
      }
    }
    assert events[..|events|] == events;
  }

  lemma Before(events: seq<Record>, i: nat)
    requires i < |events|
    ensures events[..i + 1][..i] == events[..i] && events[..i + 1][i] == events[i]
    ensures events[..i + 1] == events[..i] + [events[i]]
  {
  }

  // ----- absolute times and the runner's lines -----

  /** The fixture's time after its first `n` events, in microseconds. */
  function TimeUs(out: seq<FixtureEvent>): int {
    if out == [] then 0 else TimeUs(out[..|out| - 1]) + out[|out| - 1].delta
  }

  /** Each event is replayed at its own time, to the microsecond, or with an earlier one that
      came after it, as many milliseconds late as it then is: taking those off gives back the
      millisecond firmware stamped it with. */
  lemma {:induction false} ReplayTimeExact(events: seq<Record>, baseMs: uint32)
    requires events != [] && Events(events)
    ensures var out, e := Convert(events, baseMs), events[|events| - 1];
            var late, time := out[|out| - 1].late, TimeUs(out);
            && time == PlayedUs(events, baseMs) >= 0 && out[|out| - 1].delta >= 0
            && 0 <= late <= time / 1000 && time / 1000 - late == Offset(TimeOf(e), baseMs)
            && (out[|out| - 1].delta > 0 ==> time == OwnUs(e, baseMs) && late == 0)
    decreases |events|
  {
    var before, e := events[..|events| - 1], events[|events| - 1];
    var out := Convert(events, baseMs);
    assert out[..|out| - 1] == Convert(before, baseMs);
    if before != [] {
      ReplayTimeExact(before, baseMs);
    }
    OwnMillisecond(e, baseMs);
  }

  lemma OwnMillisecond(e: Record, baseMs: uint32)
    requires IsEvent(e) && e.Fits()
    ensures OwnUs(e, baseMs) / 1000 == Offset(TimeOf(e), baseMs)
  {
  }

  /** The time of replay is the latest of the events so far. */
  lemma {:induction false} PlayedIsLatest(events: seq<Record>, baseMs: uint32)
    requires Events(events)
    ensures forall e <- events :: OwnUs(e, baseMs) <= PlayedUs(events, baseMs)
    ensures events != [] ==> exists e <- events :: OwnUs(e, baseMs) == PlayedUs(events, baseMs)
    decreases |events|
  {
    hide OwnUs;
    if events != [] {
      var before, last := events[..|events| - 1], events[|events| - 1];
      PlayedIsLatest(before, baseMs);
      assert last in events && forall e <- before :: e in events;
      assert forall e <- events :: e in before || e == last;
    }
  }
}
