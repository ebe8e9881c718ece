/** The keypress guard in replay: the runner's answers, from the lines of a fixture
    (host/replay/fixture.js, host/runners/cursor_pipeline_replay.c), against the firmware's
    answers for the events recorded (src/platform/zmk/keypress_suppression.c). */
module ReplayGuard {
  import opened Bytes
  import opened CaptureCodec
  import opened TapLog
  import opened ReplayTime

  /** The guard's answer: `press` was within `window` before `nowMs`, on the 32-bit clock. */
  predicate Suppresses(press: Option<uint32>, nowMs: uint32, window: nat) {
    press.Some? && Offset(nowMs, press.value) < window
  }

  // ----- the runner -----

  datatype LineKind = M | F | K

  /** A line of the runner's input; the late field is 0 where it is left out. */
  datatype Line = Line(kind: LineKind, tUs: int, x: int, y: int, span: int, late: int) {
    /** The fields as the runner's 32-bit scans read them. */
    predicate Fits() {
      0 <= tUs < 0x1_0000_0000 && 0 <= late < 0x1_0000_0000 && 0 <= span < 0x1_0000_0000
    }

    function Ms(): uint32
      requires Fits()
    {
      Wrap32(tUs / 1000 - late)
    }
  }

  ghost predicate AllFit(lines: seq<Line>) {
    forall line <- lines :: line.Fits()
  }

  function LineOf(e: FixtureEvent, timeUs: int, useSpan: bool): Line {
    match e
    case MotionEvent(_, x, y, span, late) => Line(M, timeUs, x, y, if useSpan then span else 0, late)
    case FlushEvent(_, late) => Line(F, timeUs, 0, 0, 0, late)
    case KeypressEvent(_, late) => Line(K, timeUs, 0, 0, 0, late)
  }

  function Lines(out: seq<FixtureEvent>, useSpan: bool): (lines: seq<Line>)
    ensures |lines| == |out|
  {
    if out == [] then []
    else Lines(out[..|out| - 1], useSpan) + [LineOf(out[|out| - 1], TimeUs(out), useSpan)]
  }

  /** `encodeRunnerInput` for a stage chain, after its header. */
  method EncodeRunnerInput(out: seq<FixtureEvent>, useSpan: bool) returns (lines: seq<Line>)
    ensures lines == Lines(out, useSpan)
  {
    var time := 0;
    lines := [];
    for i := 0 to |out|
      invariant time == TimeUs(out[..i]) && lines == Lines(out[..i], useSpan)
    {
      assert out[..i + 1][..i] == out[..i];
      time := time + out[i].delta;
      lines := lines + [LineOf(out[i], time, useSpan)];
    }
    assert out[..|out|] == out;
  }

  /** The newest key press among the lines read so far. */
  ghost function PressRead(lines: seq<Line>): Option<uint32>
    requires AllFit(lines)
  {
    if lines == [] then None
    else if lines[|lines| - 1].kind == K then Some(lines[|lines| - 1].Ms())
    else PressRead(lines[..|lines| - 1])
  }

  /** The answer for line `k` is that of the newest key press line before it; a key press line has
      none. */
  ghost predicate AnswerIs(lines: seq<Line>, k: nat, answer: bool, window: nat)
    requires k < |lines|
  {
    && AllFit(lines) && AllFit(lines[..k])
    && answer == (lines[k].kind != K && Suppresses(PressRead(lines[..k]), lines[k].Ms(), window))
  }

  /** The runner's guard. */
  class Replay {
    const window: uint16
    var keypressSeen: bool
    var lastKeypressMs: uint32
    var nowUs: uint32

    constructor (window: uint16)
      ensures this.window == window && !keypressSeen
    {
      this.window, keypressSeen, lastKeypressMs, nowUs := window, false, 0, 0;
    }

    ghost predicate Knows(press: Option<uint32>)
      reads this
    {
      keypressSeen == press.Some? && (keypressSeen ==> press == Some(lastKeypressMs))
    }

    predicate Suppressed(nowMs: uint32)
      reads this
    {
      window > 0 && keypressSeen && Wrap32(nowMs - lastKeypressMs) < window
    }

    /** Replay a line, and for a motion or a flush give the guard's answer while it runs. */
    method ReplayEvent(line: Line, ghost before: seq<Line>) returns (suppressed: bool)
      requires line.Fits() && AllFit(before) && Knows(PressRead(before))
      modifies this
      ensures AllFit(before + [line]) && Knows(PressRead(before + [line]))
      ensures suppressed == (line.kind != K && Suppresses(PressRead(before), line.Ms(), window))
      ensures line.kind != K ==> nowUs == line.tUs
    {
      assert (before + [line])[..|before|] == before;
      var tMs := Wrap32(line.tUs / 1000 - line.late);
      if line.kind == K {
        keypressSeen, lastKeypressMs := true, tMs;
        suppressed := false;
      } else {
        nowUs := line.tUs;
        suppressed := Suppressed(tMs);
      }
    }

    /** All lines of a fixture, with the guard's answer for each. */
    method Run(lines: seq<Line>) returns (answers: seq<bool>)
      requires AllFit(lines) && !keypressSeen
      modifies this
      ensures |answers| == |lines|
      ensures forall k | 0 <= k < |lines| :: AnswerIs(lines, k, answers[k], window)
    {
      answers := [];
      for i := 0 to |lines|
        invariant AllFit(lines[..i]) && Knows(PressRead(lines[..i]))
        invariant |answers| == i
        invariant forall k | 0 <= k < i :: AnswerIs(lines, k, answers[k], window)
      {
        assert lines[i] in lines && lines[..i + 1] == lines[..i] + [lines[i]];
        var suppressed := ReplayEvent(lines[i], lines[..i]);
        answers := answers + [suppressed];
      }
    }
  }

  // ----- replay hears the key presses firmware heard -----

  /** Key presses are recorded in the order of their times. */
  ghost predicate PressesInOrder(events: seq<Record>, origin: uint32) {
    forall i, j | 0 <= i < j < |events| && events[i].Keypress? && events[j].Keypress? ::
      Offset(events[i].timeMs, origin) <= Offset(events[j].timeMs, origin)
  }

  lemma EventsPrefix(events: seq<Record>, n: nat)
    requires n <= |events| && Events(events)
    ensures Events(events[..n])
  {
    assert forall e <- events[..n] :: e in events;
  }

  /** A line's milliseconds are the event's, counted from the trace's start. */
  lemma {:induction false} LineMs(events: seq<Record>, baseMs: uint32, useSpan: bool)
    requires events != [] && Events(events) && PlayedUs(events, baseMs) < 0x1_0000_0000
    ensures var line := Lines(Convert(events, baseMs), useSpan)[|events| - 1];
            && line.Fits() && line.Ms() == Offset(TimeOf(events[|events| - 1]), baseMs)
            && line.tUs == PlayedUs(events, baseMs)
            && (line.kind == K <==> events[|events| - 1].Keypress?)
  {
    hide PlayedUs, OwnUs, SpanOf, Offset, TimeUs;
    ReplayTimeExact(events, baseMs);
    SpanFits(events[|events| - 1]);
  }

  lemma SpanFits(e: Record)
    requires e.Fits()
    ensures e.FrameRecord? ==> 0 <= SpanOf(e.frame) < 0x1_0000_0000
  {
  }

  lemma PlayedGrows(events: seq<Record>, baseMs: uint32)
    requires events != [] && Events(events)
    ensures Events(events[..|events| - 1]) && PlayedUs(events[..|events| - 1], baseMs) <= PlayedUs(events, baseMs)
  {
    EventsPrefix(events, |events| - 1);
  }

  lemma LinesBefore(events: seq<Record>, baseMs: uint32, useSpan: bool)
    requires events != [] && Events(events) && Events(events[..|events| - 1])
    ensures var lines := Lines(Convert(events, baseMs), useSpan);
            lines == Lines(Convert(events[..|events| - 1], baseMs), useSpan) + [lines[|events| - 1]]
  {
    var out := Convert(events, baseMs);
    assert out[..|out| - 1] == Convert(events[..|events| - 1], baseMs);
  }

  /** The runner knows the newest key press of the events it was given. */
  lemma {:induction false} PressReplayed(events: seq<Record>, baseMs: uint32, useSpan: bool)
    requires Events(events) && PlayedUs(events, baseMs) < 0x1_0000_0000
    ensures AllFit(Lines(Convert(events, baseMs), useSpan))
    ensures PressRead(Lines(Convert(events, baseMs), useSpan))
         == match LastPress(events) { case Some(p) => Some(Offset(p, baseMs)) case None => None }
    decreases |events|
  {
    hide Convert, Lines, PlayedUs, OwnUs, SpanOf, Line.Ms, Line.Fits;
    if events == [] {
      NoLines(baseMs, useSpan);
    } else {
      var before := events[..|events| - 1];
      PlayedGrows(events, baseMs);
      PressReplayed(before, baseMs, useSpan);
      LineMs(events, baseMs, useSpan);
      LinesBefore(events, baseMs, useSpan);
      OneLine(Lines(Convert(before, baseMs), useSpan), Lines(Convert(events, baseMs), useSpan)[|events| - 1]);
    }
  }

  lemma NoLines(baseMs: uint32, useSpan: bool)
    ensures Lines(Convert([], baseMs), useSpan) == []
  {
  }

  lemma OneLine(lines: seq<Line>, line: Line)
    requires AllFit(lines) && line.Fits()
    ensures AllFit(lines + [line])
    ensures PressRead(lines + [line]) == if line.kind == K then Some(line.Ms()) else PressRead(lines)
  {
    assert (lines + [line])[..|lines|] == lines;
  }

  /** No key press as old as the newest, or older, is remembered if that one is not. */
  lemma {:induction false} AllForgotten(events: seq<Record>, startMs: uint32, window: nat, origin: uint32, p: uint32)
    requires Events(events) && Windowed(events, origin)
    requires Offset(startMs, origin) < 0x8000_0000 && Offset(p, origin) < 0x8000_0000 && Since(startMs, p) >= window
    requires forall e <- events :: e.Keypress? ==> Offset(e.timeMs, origin) <= Offset(p, origin)
    ensures LastPress(Remembered(events, startMs, window)) == None
    decreases |events|
  {
    hide Since, Offset;
    if events != [] {
      var before, last := events[..|events| - 1], events[|events| - 1];
      assert last in events && forall e <- before :: e in events;
      AllForgotten(before, startMs, window, origin, p);
      if last.Keypress? {
        SinceIsDifference(startMs, last.timeMs, origin);
        SinceIsDifference(startMs, p, origin);
        assert Remembered(events, startMs, window) == Remembered(before, startMs, window);
      } else {
        PressAfter(Remembered(before, startMs, window), last);
      }
    }
  }

  lemma PressAfter(events: seq<Record>, e: Record)
    ensures LastPress(events + [e]) == if e.Keypress? then Some(e.timeMs) else LastPress(events)
  {
    assert (events + [e])[..|events|] == events;
  }

  /** The newest key press is remembered, or none is. */
  lemma {:induction false} PressRemembered(events: seq<Record>, startMs: uint32, window: nat, origin: uint32)
    requires Events(events) && Windowed(events, origin) && PressesInOrder(events, origin)
    requires Offset(startMs, origin) < 0x8000_0000
    ensures var press := LastPress(events);
            LastPress(Remembered(events, startMs, window))
            == if press.Some? && Since(startMs, press.value) < window then press else None
    decreases |events|
  {
    hide Since, Offset;
    if events != [] {
      var before, last := events[..|events| - 1], events[|events| - 1];
      assert last in events && forall e <- before :: e in events;
      if !last.Keypress? {
        PressRemembered(before, startMs, window, origin);
        PressAfter(Remembered(before, startMs, window), last);
      } else if Since(startMs, last.timeMs) < window {
        PressAfter(Remembered(before, startMs, window), last);
      } else {
        forall e | e in before ensures e.Keypress? ==> Offset(e.timeMs, origin) <= Offset(last.timeMs, origin) {
          var j :| 0 <= j < |before| && before[j] == e;
          assert events[j] == e;
        }
        AllForgotten(before, startMs, window, origin, last.timeMs);
        assert Remembered(events, startMs, window) == Remembered(before, startMs, window);
      }
    }
  }

  /** An old press can't suppress anything from the start on. */
  lemma OldPress(p: uint32, startMs: uint32, nowMs: uint32, window: nat, origin: uint32)
    requires Offset(p, origin) < 0x8000_0000 && Offset(startMs, origin) < 0x8000_0000 && Offset(nowMs, origin) < 0x8000_0000
    requires Since(startMs, p) >= window && Offset(startMs, origin) <= Offset(nowMs, origin)
    ensures !Suppresses(Some(p), nowMs, window)
  {
    SinceIsDifference(nowMs, p, origin);
    SinceIsDifference(startMs, p, origin);
  }

  lemma SameAge(p: uint32, nowMs: uint32, baseMs: uint32)
    ensures Offset(Offset(nowMs, baseMs), Offset(p, baseMs)) == Offset(nowMs, p)
  {
    hide Offset;
    OffsetIs(nowMs, baseMs);
    OffsetIs(p, baseMs);
    OffsetIs(nowMs, p);
    OffsetIs(Offset(nowMs, baseMs), Offset(p, baseMs));
  }

  /** The events replayed up to one of them are those remembered up to it. */
  lemma {:induction false} RememberedPrefix(segment: seq<Record>, i: nat, n: nat, startMs: uint32, window: nat)
    requires i < n <= |segment| && Events(segment) && segment[i].Fits() && IsEvent(segment[i])
    requires Matters(segment[i], startMs, window) && Events(segment[..i]) && Events(segment[..n])
    ensures var k, all := |Remembered(segment[..i], startMs, window)|, Remembered(segment[..n], startMs, window);
            k < |all| && all[..k] == Remembered(segment[..i], startMs, window) && all[k] == segment[i]
    decreases n
  {
    assert segment[..n][..n - 1] == segment[..n - 1];
    EventsPrefix(segment, n - 1);
    if i < n - 1 {
      RememberedPrefix(segment, i, n - 1, startMs, window);
    }
  }

  lemma {:induction false} LinesPrefix(events: seq<Record>, k: nat, baseMs: uint32, useSpan: bool)
    requires k <= |events| && Events(events) && Events(events[..k])
    ensures Lines(Convert(events, baseMs), useSpan)[..k] == Lines(Convert(events[..k], baseMs), useSpan)
    ensures PlayedUs(events[..k], baseMs) <= PlayedUs(events, baseMs)
    decreases |events|
  {
    hide Lines, Convert, PlayedUs;
    if k == |events| {
      assert events[..k] == events;
    } else {
      var before := events[..|events| - 1];
      PlayedGrows(events, baseMs);
      assert before[..k] == events[..k];
      LinesPrefix(before, k, baseMs, useSpan);
      LinesBefore(events, baseMs, useSpan);
    }
  }

  /** The line a frame or flush becomes. */
  lemma LineAt(events: seq<Record>, k: nat, baseMs: uint32, useSpan: bool)
    requires k < |events| && Events(events) && Processed(events[k]) && PlayedUs(events, baseMs) < 0x1_0000_0000
    ensures var lines := Lines(Convert(events, baseMs), useSpan);
            && AllFit(lines) && lines[k].kind != K && lines[k].Ms() == Offset(TimeOf(events[k]), baseMs)
            && AllFit(lines[..k])
            && PressRead(lines[..k])
               == match LastPress(events[..k]) { case Some(p) => Some(Offset(p, baseMs)) case None => None }
  {
    hide Convert, Lines, PlayedUs, OwnUs, Line.Ms, Line.Fits, PressRead, LastPress;
    EventsPrefix(events, k);
    EventsPrefix(events, k + 1);
    LinesPrefix(events, k, baseMs, useSpan);
    LinesPrefix(events, k + 1, baseMs, useSpan);
    PressReplayed(events, baseMs, useSpan);
    PressReplayed(events[..k], baseMs, useSpan);
    LineMs(events[..k + 1], baseMs, useSpan);
    var lines := Lines(Convert(events, baseMs), useSpan);
    assert lines[k] == lines[..k + 1][k];
  }

  /** The lines of a trace. */
  ghost function TraceLines(segment: seq<Record>, window: nat, useSpan: bool, baseMs: uint32): seq<Line>
    requires segment != [] && Events(segment)
  {
    Lines(Convert(Remembered(segment, StartMs(segment), window), baseMs), useSpan)
  }

  /** The line event `i` becomes, if it becomes one. */
  ghost function LineIndex(segment: seq<Record>, i: nat, window: nat): nat
    requires segment != [] && Events(segment) && i <= |segment| && Events(segment[..i])
  {
    |Remembered(segment[..i], StartMs(segment), window)|
  }

  // ----- the runner is given what was recorded -----

  /** The line says what the event was: a frame's motion and, where spans are replayed, its span,
      which counts as at least 40 ms where it was clipped; or a flush or a key press. */
  ghost predicate Carries(line: Line, e: Record, useSpan: bool) {
    match e
    case FrameRecord(f) =>
      && line.kind == M && line.x == f.x && line.y == f.y
      && (!useSpan ==> line.span == 0)
      && (useSpan && f.flags / 0x80 % 2 == 0 ==> line.span == f.spanUs)
      && (useSpan && f.flags / 0x80 % 2 == 1 ==>
            line.span >= f.spanUs && line.span >= 40000 && (line.span == f.spanUs || line.span == 40000))
    case Flush(_) => line.kind == F
    case Keypress(_) => line.kind == K
    case _ => false
  }

  lemma LineCarries(events: seq<Record>, k: nat, baseMs: uint32, useSpan: bool)
    requires k < |events| && Events(events)
    ensures Carries(Lines(Convert(events, baseMs), useSpan)[k], events[k], useSpan)
  {
    hide Lines, Convert;
    EventsPrefix(events, k + 1);
    LinesPrefix(events, k + 1, baseMs, useSpan);
    assert events[k] in events;
    LastCarries(events[..k + 1], baseMs, useSpan);
    assert Lines(Convert(events, baseMs), useSpan)[..k + 1][k] == Lines(Convert(events, baseMs), useSpan)[k];
  }

  lemma LastCarries(events: seq<Record>, baseMs: uint32, useSpan: bool)
    requires events != [] && Events(events)
    ensures Carries(Lines(Convert(events, baseMs), useSpan)[|events| - 1], events[|events| - 1], useSpan)
  {
    hide PlayedUs, Converted, LineOf, TimeUs, Carries;
    var before, last, out := events[..|events| - 1], events[|events| - 1], Convert(events, baseMs);
    assert last in events;
    EventsPrefix(events, |events| - 1);
    EventCarries(last, PlayedUs(events, baseMs), PlayedUs(before, baseMs), baseMs, TimeUs(out), useSpan);
  }

  /** One event, through the fixture, to its line. */
  lemma EventCarries(e: Record, time: nat, previous: nat, baseMs: uint32, timeUs: int, useSpan: bool)
    requires IsEvent(e) && e.Fits()
    ensures Carries(LineOf(Converted(e, time, previous, baseMs), timeUs, useSpan), e, useSpan)
  {
    hide Offset;
  }

  /** Every frame, flush and remembered key press of a trace becomes the line at its place, which
      carries it. */
  lemma EventReplays(segment: seq<Record>, i: nat, window: nat, useSpan: bool, baseMs: uint32)
    requires i < |segment| && Events(segment) && segment[i].Fits() && IsEvent(segment[i])
    requires Matters(segment[i], StartMs(segment), window)
    ensures Events(segment[..i])
    ensures var lines, at := TraceLines(segment, window, useSpan, baseMs), LineIndex(segment, i, window);
            at < |lines| && Carries(lines[at], segment[i], useSpan)
  {
    hide Convert, Lines, Remembered, StartMs, Matters, Carries;
    EventsPrefix(segment, i);
    assert segment[..|segment|] == segment;
    RememberedPrefix(segment, i, |segment|, StartMs(segment), window);
    LineCarries(Remembered(segment, StartMs(segment), window), LineIndex(segment, i, window), baseMs, useSpan);
  }

  /** Nothing else is replayed: each line is that of an event of the trace. */
  lemma {:induction false} LineFrom(segment: seq<Record>, startMs: uint32, window: nat, k: nat) returns (i: nat)
    requires Events(segment) && k < |Remembered(segment, startMs, window)|
    ensures i < |segment| && Events(segment[..i]) && k == |Remembered(segment[..i], startMs, window)|
    ensures segment[i] == Remembered(segment, startMs, window)[k] && Matters(segment[i], startMs, window)
    decreases |segment|
  {
    var before := segment[..|segment| - 1];
    EventsPrefix(segment, |segment| - 1);
    if k < |Remembered(before, startMs, window)| {
      i := LineFrom(before, startMs, window, k);
      assert before[..i] == segment[..i];
    } else {
      i := |segment| - 1;
    }
  }

  /** The start is the first frame or flush, or the first event of a trace with neither. */
  lemma {:induction false} StartIsFirst(events: seq<Record>, i: nat)
    requires i < |events| && Events(events)
    requires forall k | 0 <= k < i :: events[k].Keypress?
    requires events[i].Keypress? ==> i == 0 && forall e <- events :: e.Keypress?
    ensures StartMs(events) == TimeOf(events[i])
    decreases i
  {
    assert forall e <- events[1..] :: e in events;
    if i > 0 {
      assert events[1..][i - 1] == events[i];
      assert events[i] in events[1..];
      StartIsFirst(events[1..], i - 1);
    }
  }

  ghost predicate Spans(e: FixtureEvent) {
    e.MotionEvent? && e.span != 0
  }

  /** A fixture has spans exactly when one of its motions does. */
  lemma {:induction false} SpansIff(events: seq<Record>, baseMs: uint32)
    requires Events(events)
    ensures HasSpan(events) <==> exists e <- Convert(events, baseMs) :: Spans(e)
    decreases |events|
  {
    hide PlayedUs, Converted, SpanOf, Spans, HasSpan;
    if events == [] {
      NoSpan();
    } else {
      var before, last := events[..|events| - 1], events[|events| - 1];
      EventsPrefix(events, |events| - 1);
      assert last in events && events == before + [last];
      SpansIff(before, baseMs);
      SpanNext(before, last);
      EventSpans(last, PlayedUs(events, baseMs), PlayedUs(before, baseMs), baseMs);
    }
  }

  lemma NoSpan()
    ensures !HasSpan([])
  {
  }

  lemma EventSpans(e: Record, time: nat, previous: nat, baseMs: uint32)
    requires IsEvent(e) && e.Fits()
    ensures Spans(Converted(e, time, previous, baseMs)) <==> e.FrameRecord? && SpanOf(e.frame) != 0
  {
    hide Offset;
  }

  // ----- the guard's answers -----

  /** Line `k` reaches the runner with this millisecond and gets this answer. */
  ghost predicate Answered(lines: seq<Line>, k: nat, ms: uint32, window: nat, answer: bool) {
    && k < |lines| && AllFit(lines) && AllFit(lines[..k])
    && lines[k].kind != K && lines[k].Ms() == ms && Suppresses(PressRead(lines[..k]), ms, window) == answer
  }

  /** The conversion left out a key press that still suppresses: too old at the time of the
      trace's first frame or flush, but not at `nowMs`. */
  predicate Forgets(press: Option<uint32>, startMs: uint32, nowMs: uint32, window: nat) {
    press.Some? && Since(startMs, press.value) >= window && Suppresses(press, nowMs, window)
  }

  lemma PrefixOrdered(segment: seq<Record>, i: nat, origin: uint32)
    requires i < |segment| && Events(segment) && Windowed(segment, origin) && PressesInOrder(segment, origin)
    requires Events(segment[..i])
    ensures Windowed(segment[..i], origin) && PressesInOrder(segment[..i], origin)
  {
    assert forall e <- segment[..i] :: e in segment;
  }

  lemma {:induction false} PressFound(events: seq<Record>)
    ensures LastPress(events).Some? ==> exists e <- events :: e.Keypress? && e.timeMs == LastPress(events).value
    decreases |events|
  {
    if events != [] {
      PressFound(events[..|events| - 1]);
      assert forall e <- events[..|events| - 1] :: e in events;
      assert events[|events| - 1] in events;
    }
  }

  lemma PressInWindow(segment: seq<Record>, i: nat, origin: uint32)
    requires i < |segment| && Events(segment) && Windowed(segment, origin)
    ensures Offset(TimeOf(segment[i]), origin) < 0x8000_0000
    ensures LastPress(segment[..i]).Some? ==> Offset(LastPress(segment[..i]).value, origin) < 0x8000_0000
  {
    assert segment[i] in segment;
    PressFound(segment[..i]);
    if LastPress(segment[..i]).Some? {
      var e :| e in segment[..i] && e.Keypress? && e.timeMs == LastPress(segment[..i]).value;
      assert e in segment && TimeOf(e) == e.timeMs;
    }
  }

  lemma StartInWindow(segment: seq<Record>, origin: uint32)
    requires segment != [] && Events(segment) && Windowed(segment, origin)
    ensures Offset(StartMs(segment), origin) < 0x8000_0000
    decreases |segment|
  {
    assert segment[0] in segment && forall e <- segment[1..] :: e in segment;
    if segment[0].Keypress? && |segment| > 1 && !(forall e <- segment[1..] :: e.Keypress?) {
      StartInWindow(segment[1..], origin);
    }
  }

  /** The runner's answer for any frame or flush of a trace: firmware's, except for a key press
      the conversion left out. */
  lemma GuardAnswer(segment: seq<Record>, i: nat, window: nat, useSpan: bool, baseMs: uint32, origin: uint32)
    requires i < |segment| && Events(segment) && Windowed(segment, origin) && PressesInOrder(segment, origin)
    requires Processed(segment[i]) && PlayedUs(Remembered(segment, StartMs(segment), window), baseMs) < 0x1_0000_0000
    ensures Events(segment[..i])
    ensures var press, nowMs := LastPress(segment[..i]), TimeOf(segment[i]);
            Answered(TraceLines(segment, window, useSpan, baseMs), LineIndex(segment, i, window), Offset(nowMs, baseMs), window,
                     Suppresses(press, nowMs, window) && !Forgets(press, StartMs(segment), nowMs, window))
  {
    hide Convert, Lines, PlayedUs, Line.Ms, Line.Fits, Remembered, PressRead, LastPress, StartMs, Since, Offset, AllFit;
    EventsPrefix(segment, i);
    assert segment[..|segment|] == segment;
    var startMs := StartMs(segment);
    assert Matters(segment[i], startMs, window);
    RememberedPrefix(segment, i, |segment|, startMs, window);
    var events, k := Remembered(segment, startMs, window), LineIndex(segment, i, window);
    LineAt(events, k, baseMs, useSpan);
    PrefixOrdered(segment, i, origin);
    StartInWindow(segment, origin);
    PressRemembered(segment[..i], startMs, window, origin);
    var press := LastPress(segment[..i]);
    if press.Some? {
      SameAge(press.value, TimeOf(segment[i]), baseMs);
    }
  }

  /** Exactly when guard decisions replay: the runner's answer is firmware's if and only if the
      conversion did not leave out a key press that still suppresses. */
  lemma GuardReplaysIff(segment: seq<Record>, i: nat, window: nat, useSpan: bool, baseMs: uint32, origin: uint32)
    requires i < |segment| && Events(segment) && Windowed(segment, origin) && PressesInOrder(segment, origin)
    requires Processed(segment[i]) && PlayedUs(Remembered(segment, StartMs(segment), window), baseMs) < 0x1_0000_0000
    ensures Events(segment[..i])
    ensures var press, nowMs := LastPress(segment[..i]), TimeOf(segment[i]);
            Answered(TraceLines(segment, window, useSpan, baseMs), LineIndex(segment, i, window), Offset(nowMs, baseMs), window,
                     Suppresses(press, nowMs, window))
            <==> !Forgets(press, StartMs(segment), nowMs, window)
  {
    hide TraceLines, LineIndex, PressRead, LastPress, StartMs, Since, Offset, AllFit, PlayedUs, Remembered;
    GuardAnswer(segment, i, window, useSpan, baseMs, origin);
  }

  /** A press is forgotten for some window exactly when the frame is stamped after it and before
      the trace's first one. */
  lemma ForgetsForSome(press: uint32, startMs: uint32, nowMs: uint32, origin: uint32)
    requires Offset(press, origin) < 0x8000_0000 && Offset(startMs, origin) < 0x8000_0000 && Offset(nowMs, origin) < 0x8000_0000
    ensures (exists window: nat :: Forgets(Some(press), startMs, nowMs, window))
       <==> Offset(press, origin) <= Offset(nowMs, origin) < Offset(startMs, origin)
  {
    SinceIsDifference(startMs, press, origin);
    SinceIsDifference(nowMs, press, origin);
    if Offset(press, origin) <= Offset(nowMs, origin) < Offset(startMs, origin) {
      assert Forgets(Some(press), startMs, nowMs, Since(startMs, press));
    }
    if window: nat :| Forgets(Some(press), startMs, nowMs, window) {
      if Offset(startMs, origin) <= Offset(nowMs, origin) {
        OldPress(press, startMs, nowMs, window, origin);
      } else {
        SinceBackwards(nowMs, press, origin);
      }
    }
  }

  /** A press stamped later than the event seems a long time ago. */
  lemma SinceBackwards(nowMs: uint32, press: uint32, origin: uint32)
    requires Offset(press, origin) < 0x8000_0000 && Offset(nowMs, origin) < 0x8000_0000
    ensures Offset(nowMs, origin) < Offset(press, origin) ==> Offset(nowMs, press) >= 0x8000_0000
  {
    hide Offset;
    OffsetIs(nowMs, origin);
    OffsetIs(press, origin);
    OffsetIs(nowMs, press);
  }

  /** The same, whatever the guard's window: an event replays with firmware's answer for every
      window if and only if it is not stamped between the newest key press before it and the
      trace's first frame or flush. */
  lemma GuardReplaysAnyWindow(segment: seq<Record>, i: nat, useSpan: bool, baseMs: uint32, origin: uint32)
    requires i < |segment| && Events(segment) && Windowed(segment, origin) && PressesInOrder(segment, origin)
    requires Processed(segment[i])
    requires forall window :: PlayedUs(Remembered(segment, StartMs(segment), window), baseMs) < 0x1_0000_0000
    ensures Events(segment[..i])
    ensures var press, nowMs := LastPress(segment[..i]), TimeOf(segment[i]);
            (forall window: nat ::
               Answered(TraceLines(segment, window, useSpan, baseMs), LineIndex(segment, i, window), Offset(nowMs, baseMs),
                        window, Suppresses(press, nowMs, window)))
            <==> !(press.Some? &&
                   Offset(press.value, origin) <= Offset(nowMs, origin) < Offset(StartMs(segment), origin))
  {
    hide TraceLines, LineIndex, PressRead, LastPress, StartMs, Since, Offset, AllFit, PlayedUs, Remembered, Answered, Forgets;
    EventsPrefix(segment, i);
    var press, startMs, nowMs := LastPress(segment[..i]), StartMs(segment), TimeOf(segment[i]);
    forall window: nat
      ensures Answered(TraceLines(segment, window, useSpan, baseMs), LineIndex(segment, i, window), Offset(nowMs, baseMs), window,
                       Suppresses(press, nowMs, window))
              <==> !Forgets(press, startMs, nowMs, window)
    {
      GuardReplaysIff(segment, i, window, useSpan, baseMs, origin);
    }
    PressInWindow(segment, i, origin);
    StartInWindow(segment, origin);
    if press.Some? {
      ForgetsForSome(press.value, startMs, nowMs, origin);
    } else {
      NothingForgotten(startMs, nowMs);
    }
  }

  lemma NothingForgotten(startMs: uint32, nowMs: uint32)
    ensures forall window: nat :: !Forgets(None, startMs, nowMs, window)
  {
  }

  /** Guard decisions replay exactly for a frame or flush that is no older than the trace's
      first. */
  lemma GuardReplays(segment: seq<Record>, i: nat, window: nat, useSpan: bool, baseMs: uint32, origin: uint32)
    requires i < |segment| && Events(segment) && Windowed(segment, origin) && PressesInOrder(segment, origin)
    requires Processed(segment[i]) && Offset(StartMs(segment), origin) <= Offset(TimeOf(segment[i]), origin)
    requires PlayedUs(Remembered(segment, StartMs(segment), window), baseMs) < 0x1_0000_0000
    ensures Events(segment[..i])
    ensures Answered(TraceLines(segment, window, useSpan, baseMs), LineIndex(segment, i, window),
                     Offset(TimeOf(segment[i]), baseMs), window,
                     Suppresses(LastPress(segment[..i]), TimeOf(segment[i]), window))
  {
    hide TraceLines, LineIndex, PressRead, LastPress, StartMs, Since, Offset, AllFit, PlayedUs, Remembered, Answered;
    GuardReplaysIff(segment, i, window, useSpan, baseMs, origin);
    PressInWindow(segment, i, origin);
    StartInWindow(segment, origin);
    var press, startMs, nowMs := LastPress(segment[..i]), StartMs(segment), TimeOf(segment[i]);
    if Forgets(press, startMs, nowMs, window) {
      OldPress(press.value, startMs, nowMs, window, origin);
    }
  }

  /** An older one may replay differently: firmware's guard suppressed the second frame, and the
      runner does not. */
  lemma OlderFrameDiffers(f: Frame, g: Frame, useSpan: bool)
    requires f.Fits() && g.Fits() && f.timeMs == 1000 && g.timeMs == 990
    ensures var segment := [Keypress(950), FrameRecord(f), FrameRecord(g)];
            && Events(segment) && Events(segment[..2])
            && Suppresses(LastPress(segment[..2]), 990, 50)
            && Answered(TraceLines(segment, 50, useSpan, 990), LineIndex(segment, 2, 50), 0, 50, false)
  {
    hide Answered, TraceLines, LineIndex, Suppresses, Forgets, LastPress, StartMs, Remembered, PlayedUs, Windowed,
      PressesInOrder, Offset, Since;
    var segment := [Keypress(950), FrameRecord(f), FrameRecord(g)];
    OlderFits(f, g);
    EventsPrefix(segment, 2);
    StartOfOlder(f, g);
    LastPressOf(950, FrameRecord(f));
    assert segment[..2] == [Keypress(950), FrameRecord(f)];
    PlayedOlder(f, g);
    OlderForgets();
    GuardAnswer(segment, 2, 50, useSpan, 990, 0);
  }

  lemma OlderFits(f: Frame, g: Frame)
    requires f.Fits() && g.Fits() && f.timeMs == 1000 && g.timeMs == 990
    ensures var segment := [Keypress(950), FrameRecord(f), FrameRecord(g)];
            Events(segment) && Windowed(segment, 0) && PressesInOrder(segment, 0)
  {
  }

  lemma OlderForgets()
    ensures Suppresses(Some(950), 990, 50) && Forgets(Some(950), 1000, 990, 50) && Offset(990, 990) == 0
  {
  }

  lemma StartOfOlder(f: Frame, g: Frame)
    requires f.Fits() && g.Fits() && f.timeMs == 1000
    ensures StartMs([Keypress(950), FrameRecord(f), FrameRecord(g)]) == 1000
  {
    var segment := [Keypress(950), FrameRecord(f), FrameRecord(g)];
    assert segment[1..] == [FrameRecord(f), FrameRecord(g)];
    assert segment[1] in segment[1..];
  }

  lemma LastPressOf(t: uint32, e: Record)
    requires !e.Keypress?
    ensures LastPress([Keypress(t), e]) == Some(t)
  {
    assert [Keypress(t), e][..1] == [Keypress(t)];
  }

  lemma RememberedNext(events: seq<Record>, e: Record, startMs: uint32, window: nat)
    requires Events(events) && Events(events + [e]) && IsEvent(e) && e.Fits()
    ensures Remembered(events + [e], startMs, window)
         == Remembered(events, startMs, window) + if Matters(e, startMs, window) then [e] else []
  {
    assert (events + [e])[..|events|] == events;
  }

  lemma RememberedOlder(f: Frame, g: Frame)
    requires f.Fits() && g.Fits()
    ensures Remembered([Keypress(950), FrameRecord(f), FrameRecord(g)], 1000, 50) == [FrameRecord(f), FrameRecord(g)]
  {
    hide Remembered;
    RememberedNothing(1000, 50);
    RememberedNext([], Keypress(950), 1000, 50);
    RememberedNext([Keypress(950)], FrameRecord(f), 1000, 50);
    RememberedNext([Keypress(950), FrameRecord(f)], FrameRecord(g), 1000, 50);
    assert [] + [Keypress(950)] == [Keypress(950)];
    assert [Keypress(950)] + [FrameRecord(f)] == [Keypress(950), FrameRecord(f)];
    assert [Keypress(950), FrameRecord(f)] + [FrameRecord(g)] == [Keypress(950), FrameRecord(f), FrameRecord(g)];
  }

  lemma RememberedNothing(startMs: uint32, window: nat)
    ensures Remembered([], startMs, window) == []
  {
  }

  lemma PlayedOlder(f: Frame, g: Frame)
    requires f.Fits() && g.Fits() && f.timeMs == 1000 && g.timeMs == 990
    ensures PlayedUs(Remembered([Keypress(950), FrameRecord(f), FrameRecord(g)], 1000, 50), 990) < 0x1_0000_0000
  {
    hide Remembered, PlayedUs;
    RememberedOlder(f, g);
    PlayedIsLatest([FrameRecord(f), FrameRecord(g)], 990);
    assert OwnUs(FrameRecord(f), 990) < 11000 && OwnUs(FrameRecord(g), 990) < 11000;
  }
}
