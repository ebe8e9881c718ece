/** Splitting a decoded recording into traces (host/replay/capture-convert.js), and what such a
    trace of a tap's recording holds. */
module TraceSegments {
  import opened Bytes
  import opened CaptureCodec
  import opened TapLog
  import D = CaptureDecoder

  /** A stretch of records that replays on its own. */
  datatype Trace = Trace(source: Option<Record>, events: seq<D.Numbered>, settingsHash: uint32)

  /** The walk over the records: finished traces, the one in progress, and whether a frame came
      before its source record. */
  datatype Walk = Walk(done: seq<Trace>, current: Option<Trace>, failed: bool)

  /** End the trace in progress, keeping it if anything happened in it. */
  ghost function End(w: Walk): Walk {
    match w.current
    case Some(trace) => w.(done := if trace.events != [] then w.done + [trace] else w.done, current := None)
    case None => w
  }

  /** What one record does. */
  ghost function Visit(w: Walk, n: D.Numbered): Walk {
    match n.record
    case Entered(hash) => End(w).(current := Some(Trace(None, [], hash)))
    case Left => End(w)
    case SettingsChanged => End(w)
    case Source(_, _, _) =>
      (match w.current
       case Some(trace) => if trace.source.Some? then End(w) else w.(current := Some(trace.(source := Some(n.record))))
       case None => w)
    case _ =>
      match w.current
      case Some(trace) =>
        Walk(w.done, Some(trace.(events := trace.events + [n])), w.failed || (n.record.FrameRecord? && trace.source.None?))
      case None => w
  }

  /** The number expected after the first `n` records. */
  function Expected(records: seq<D.Numbered>, n: nat): nat
    requires n <= |records|
  {
    if n > 0 then records[n - 1].sequence + 1 else if records != [] then records[0].sequence else 0
  }

  /** The walk over the first `n` records: a number that was not expected ends the trace. */
  ghost function WalkTo(records: seq<D.Numbered>, n: nat): Walk
    requires n <= |records|
  {
    if n == 0 then Walk([], None, false)
    else
      var w := WalkTo(records, n - 1);
      Visit(if records[n - 1].sequence != Expected(records, n - 1) then End(w) else w, records[n - 1])
  }

  ghost function SegmentsOf(records: seq<D.Numbered>): Walk {
    End(WalkTo(records, |records|))
  }

  /** `segments`: the traces of a recording, or that a frame came before its source record. */
  method Segments(records: seq<D.Numbered>) returns (traces: seq<Trace>, failed: bool)
    ensures !failed ==> traces == SegmentsOf(records).done
    ensures failed <==> SegmentsOf(records).failed
  {
    traces := [];
    var current: Option<Trace> := None;
    var expected: int := if records != [] then records[0].sequence else 0;
    for i := 0 to |records|
      invariant Walk(traces, current, false) == WalkTo(records, i)
      invariant expected == Expected(records, i)
    {
      var n := records[i];
      if n.sequence != expected {
        traces, current := EndTrace(traces, current);
      }
      expected := n.sequence + 1;
      if n.record.Entered? {
        traces, current := EndTrace(traces, current);
        current := Some(Trace(None, [], n.record.settingsHash));
      } else if n.record.Left? || n.record.SettingsChanged? {
        traces, current := EndTrace(traces, current);
      } else if n.record.Source? {
        if current.Some? && current.value.source.Some? {
          traces, current := EndTrace(traces, current);
        } else if current.Some? {
          current := Some(current.value.(source := Some(n.record)));
        }
      } else if current.Some? {
        if n.record.FrameRecord? && current.value.source.None? {
          FailureStays(records, i + 1, |records|);
          return [], true;
        }
        current := Some(current.value.(events := current.value.events + [n]));
      }
    }
    traces, current := EndTrace(traces, current);
    failed := false;
  }

  method EndTrace(traces: seq<Trace>, current: Option<Trace>) returns (ended: seq<Trace>, none: Option<Trace>)
    ensures none == None
    ensures Walk(ended, none, false) == End(Walk(traces, current, false))
  {
    none := None;
    ended := traces;
    if current.Some? && current.value.events != [] {
      ended := traces + [current.value];
    }
  }

  lemma {:induction false} FailureStays(records: seq<D.Numbered>, n: nat, m: nat)
    requires n <= m <= |records| && WalkTo(records, n).failed
    ensures WalkTo(records, m).failed && End(WalkTo(records, m)).failed
    decreases m
  {
    if n < m {
      FailureStays(records, n, m - 1);
    }
  }

  // ----- the same traces, from the log and what was dropped from it -----

  /** The records that reached the host: numbers of the log in order, each with its record. */
  ghost predicate Received(records: seq<D.Numbered>, log: Log) {
    && (forall i | 0 <= i < |records| ::
          records[i].sequence < |log| && records[i].record == log[records[i].sequence].record)
    && (forall i, j | 0 <= i < j < |records| :: records[i].sequence < records[j].sequence)
  }

  /** A trace with its place: it holds the log from `from` up to `till`. */
  datatype Placed = Placed(trace: Trace, from: nat, till: nat)

  /** The traces finished among the first records of the log, and the one in progress. */
  datatype Cutting = Cutting(done: seq<Placed>, current: Option<Placed>)

  ghost function CutOff(c: Cutting): Cutting {
    match c.current
    case Some(p) => Cutting(if p.trace.events != [] then c.done + [p] else c.done, None)
    case None => c
  }

  /** The trace in progress goes on for one record. */
  ghost function Longer(p: Placed, n: D.Numbered): Placed {
    Placed(
      if n.record.Source? then p.trace.(source := Some(n.record)) else p.trace.(events := p.trace.events + [n]),
      p.from, p.till + 1)
  }

  /** The traces of a log from which only the numbers `kept` arrived: a trace starts where the
      pipeline is entered, and a record that did not arrive, another entry, leaving, a settings
      change or a second source ends it. */
  ghost function CutTo(log: Log, kept: set<nat>, m: nat): Cutting
    requires m <= |log|
  {
    if m == 0 then Cutting([], None)
    else CutAt(CutTo(log, kept, m - 1), log, kept, m - 1)
  }

  ghost predicate Ends(log: Log, kept: set<nat>, i: nat)
    requires i < |log|
  {
    var r := log[i].record;
    i !in kept || r.Entered? || r.Left? || r.SettingsChanged? || (r.Source? && SourceAt(log, i).Some?)
  }

  ghost function CutAt(c: Cutting, log: Log, kept: set<nat>, i: nat): Cutting
    requires i < |log|
  {
    var r := log[i].record;
    if Ends(log, kept, i) then
      if i in kept && r.Entered? then CutOff(c).(current := Some(Placed(Trace(None, [], r.settingsHash), i, i + 1)))
      else CutOff(c)
    else
      match c.current
      case Some(p) => c.(current := Some(Longer(p, D.Numbered(Wrap32(i), r))))
      case None => c
  }

  ghost function Kept(records: seq<D.Numbered>): set<nat> {
    set n | n in records :: n.sequence as nat
  }

  // ----- what a trace holds -----

  ghost function EventAt(log: Log, i: nat): seq<D.Numbered>
    requires i < |log|
  {
    if IsEvent(log[i].record) then [D.Numbered(Wrap32(i), log[i].record)] else []
  }

  /** The frames, flushes, and key presses numbered from `from` up to `till`. */
  ghost function EventsOf(log: Log, from: nat, till: nat): seq<D.Numbered>
    requires from <= till <= |log|
    decreases till
  {
    if from == till then []
    else
      EventsOf(log, from, till - 1) + EventAt(log, till - 1)
  }

  /** A trace holds every event from the entry it starts with up to its end: all of it arrived,
      nothing in it ends a trace, and its source is the one described in it. */
  ghost predicate Whole(p: Placed, log: Log, kept: set<nat>) {
    && p.from < p.till <= |log| && log[p.from].record == Entered(p.trace.settingsHash) && p.from in kept
    && (forall i | p.from < i < p.till :: !Ends(log, kept, i))
    && p.trace.events == EventsOf(log, p.from + 1, p.till)
    && p.trace.source == SourceAt(log, p.till)
  }

  /** A finished trace, before record `m`: it is as long as it can be. */
  ghost predicate Finished(p: Placed, log: Log, kept: set<nat>, m: nat) {
    Whole(p, log, kept) && p.till <= m && p.trace.events != [] && (p.till < |log| ==> Ends(log, kept, p.till))
  }

  /** Finished traces follow one another. */
  ghost predicate InOrder(done: seq<Placed>, m: nat) {
    && (forall j, k | 0 <= j < k < |done| :: done[j].till <= done[k].from)
    && forall j | 0 <= j < |done| :: done[j].till <= m
  }

  ghost predicate CutsRight(c: Cutting, log: Log, kept: set<nat>, m: nat)
    requires m <= |log|
  {
    && (forall j | 0 <= j < |c.done| :: Finished(c.done[j], log, kept, m))
    && (c.current.Some? ==> Whole(c.current.value, log, kept) && c.current.value.till == m)
    && InOrder(c.done, if c.current.Some? then c.current.value.from else m)
  }

  lemma CutOffRight(c: Cutting, log: Log, kept: set<nat>, m: nat)
    requires m <= |log| && CutsRight(c, log, kept, m)
    requires m < |log| ==> Ends(log, kept, m)
    ensures CutsRight(CutOff(c), log, kept, m)
  {
    hide Ends, SourceAt, EventsOf;
  }

  lemma EnterRight(c: Cutting, log: Log, kept: set<nat>, m: nat, hash: uint32)
    requires m < |log| && CutsRight(c, log, kept, m) && c.current.None?
    requires log[m].record == Entered(hash) && m in kept
    ensures CutsRight(c.(current := Some(Placed(Trace(None, [], hash), m, m + 1))), log, kept, m + 1)
  {
  }

  lemma LongerWhole(p: Placed, log: Log, kept: set<nat>)
    requires p.till < |log| && Whole(p, log, kept) && !Ends(log, kept, p.till)
    ensures Whole(Longer(p, D.Numbered(Wrap32(p.till), log[p.till].record)), log, kept)
  {
  }

  /** One more record: traces finished stay finished. */
  lemma NextRight(c: Cutting, log: Log, kept: set<nat>, m: nat)
    requires m < |log| && CutsRight(c, log, kept, m)
    ensures CutsRight(CutAt(c, log, kept, m), log, kept, m + 1)
  {
    hide Whole, Ends;
    if Ends(log, kept, m) {
      CutOffRight(c, log, kept, m);
      if m in kept && log[m].record.Entered? {
        EnterRight(CutOff(c), log, kept, m, log[m].record.settingsHash);
      }
    } else if c.current.Some? {
      LongerWhole(c.current.value, log, kept);
    }
  }

  lemma {:induction false} CutToRight(log: Log, kept: set<nat>, m: nat)
    requires m <= |log|
    ensures CutsRight(CutTo(log, kept, m), log, kept, m)
    decreases m
  {
    hide CutsRight, CutAt;
    if m == 0 {
      NothingRight(log, kept);
    } else {
      CutToRight(log, kept, m - 1);
      NextRight(CutTo(log, kept, m - 1), log, kept, m - 1);
    }
  }

  lemma NothingRight(log: Log, kept: set<nat>)
    ensures CutsRight(Cutting([], None), log, kept, 0)
  {
  }

  // ----- the host's walk finds the same traces -----

  ghost function TracesOf(done: seq<Placed>): seq<Trace> {
    seq(|done|, j requires 0 <= j < |done| => done[j].trace)
  }

  lemma TracesAppend(done: seq<Placed>, p: Placed)
    ensures TracesOf(done + [p]) == TracesOf(done) + [p.trace]
  {
  }

  ghost predicate Matches(w: Walk, c: Cutting) {
    && w.done == TracesOf(c.done) && !w.failed
    && w.current == match c.current { case Some(p) => Some(p.trace) case None => None }
  }

  lemma EndMatches(w: Walk, c: Cutting)
    requires Matches(w, c)
    ensures Matches(End(w), CutOff(c))
  {
    if c.current.Some? {
      TracesAppend(c.done, c.current.value);
    }
  }

  lemma {:induction false} GapEnds(log: Log, kept: set<nat>, a: nat, b: nat)
    requires a < b <= |log| && forall i | a <= i < b :: i !in kept
    ensures CutTo(log, kept, b) == CutOff(CutTo(log, kept, a))
    decreases b
  {
    if a < b - 1 {
      GapEnds(log, kept, a, b - 1);
    }
  }

  /** A record of a tap's log: its frames come after their source records. */
  lemma VisitMatches(w: Walk, c: Cutting, log: Log, kept: set<nat>, m: nat)
    requires m < |log| && |log| < 0x1_0000_0000 && m in kept && AllTruthful(log)
    requires Matches(w, c) && CutsRight(c, log, kept, m)
    ensures Matches(Visit(w, D.Numbered(m, log[m].record)), CutAt(c, log, kept, m))
  {
    hide Matches, End, CutOff, AllTruthful, SourceAt, KeypressAt;
    var r := log[m].record;
    CurrentSource(w, c, log, kept, m);
    EndMatches(w, c);
    if Ends(log, kept, m) {
      if r.Entered? {
        StartMatches(End(w), CutOff(c), Trace(None, [], r.settingsHash), m);
      }
    } else {
      LongerMatches(w, c, log, kept, m);
    }
  }

  lemma CurrentSource(w: Walk, c: Cutting, log: Log, kept: set<nat>, m: nat)
    requires m < |log| && AllTruthful(log) && Matches(w, c) && CutsRight(c, log, kept, m)
    ensures w.current.Some? <==> c.current.Some?
    ensures w.current.Some? ==> w.current.value == c.current.value.trace && w.current.value.source == SourceAt(log, m)
    ensures log[m].record.FrameRecord? ==> SourceAt(log, m).Some?
    ensures w.current.None? ==> End(w) == w && CutOff(c) == c
  {
    assert Truthful(log, m);
  }

  lemma StartMatches(w: Walk, c: Cutting, trace: Trace, m: nat)
    requires Matches(w, c)
    ensures Matches(w.(current := Some(trace)), c.(current := Some(Placed(trace, m, m + 1))))
  {
  }

  lemma LongerMatches(w: Walk, c: Cutting, log: Log, kept: set<nat>, m: nat)
    requires m < |log| && |log| < 0x1_0000_0000 && !Ends(log, kept, m)
    requires Matches(w, c)
    requires w.current.Some? ==> w.current.value.source == SourceAt(log, m)
    requires log[m].record.FrameRecord? ==> SourceAt(log, m).Some?
    ensures Matches(Visit(w, D.Numbered(m, log[m].record)), CutAt(c, log, kept, m))
  {
    hide SourceAt;
  }

  ghost predicate Missing(kept: set<nat>, a: nat, b: nat) {
    forall i | a <= i < b :: i !in kept
  }

  lemma BetweenMissing(records: seq<D.Numbered>, log: Log, n: nat)
    requires Received(records, log) && n <= |records|
    ensures Expected(records, n) <= |log|
    ensures n < |records| ==>
      Expected(records, n) <= records[n].sequence && Missing(Kept(records), Expected(records, n), records[n].sequence)
    ensures n == |records| ==> Missing(Kept(records), Expected(records, n), |log|)
    ensures n == 0 ==> Missing(Kept(records), 0, Expected(records, 0))
  {
    var till: nat := if n < |records| then records[n].sequence else |log|;
    forall i | Expected(records, n) <= i < till ensures i !in Kept(records) {
      forall k | 0 <= k < |records| ensures records[k].sequence != i {
        assert k < n - 1 ==> records[k].sequence < records[n - 1].sequence;
        assert k > n ==> records[n].sequence < records[k].sequence;
      }
    }
    forall i | n == 0 && 0 <= i < Expected(records, 0) ensures i !in Kept(records) {
      forall k | 0 <= k < |records| ensures records[k].sequence != i {
        assert k > 0 ==> records[0].sequence < records[k].sequence;
      }
    }
  }

  lemma GapMatches(w: Walk, log: Log, kept: set<nat>, a: nat, b: nat)
    requires a <= b <= |log| && Missing(kept, a, b) && Matches(w, CutTo(log, kept, a))
    ensures Matches(if a != b then End(w) else w, CutTo(log, kept, b))
    ensures End(w) == End(End(w)) && Matches(End(w), CutOff(CutTo(log, kept, b)))
  {
    EndMatches(w, CutTo(log, kept, a));
    if a < b {
      GapEnds(log, kept, a, b);
    }
  }

  lemma {:induction false} WalkMatches(records: seq<D.Numbered>, log: Log, n: nat)
    requires Received(records, log) && AllTruthful(log) && |log| < 0x1_0000_0000 && n <= |records|
    ensures Expected(records, n) <= |log|
    ensures Matches(WalkTo(records, n), CutTo(log, Kept(records), Expected(records, n)))
    decreases n
  {
    hide Matches, AllTruthful, Visit, CutAt, End, CutOff;
    var kept := Kept(records);
    BetweenMissing(records, log, n);
    if n == 0 {
      NothingMatches();
      GapMatches(WalkTo(records, 0), log, kept, 0, Expected(records, 0));
      assert End(WalkTo(records, 0)) == WalkTo(records, 0) by {
        EndNothing();
      }
    } else {
      WalkMatches(records, log, n - 1);
      BetweenMissing(records, log, n - 1);
      var w, m: nat := WalkTo(records, n - 1), records[n - 1].sequence;
      GapMatches(w, log, kept, Expected(records, n - 1), m);
      CutToRight(log, kept, m);
      assert records[n - 1] in records && m in kept;
      VisitMatches(if m != Expected(records, n - 1) then End(w) else w, CutTo(log, kept, m), log, kept, m);
      assert records[n - 1] == D.Numbered(m, log[m].record);
    }
  }

  lemma NothingMatches()
    ensures Matches(Walk([], None, false), Cutting([], None))
  {
  }

  lemma EndNothing()
    ensures End(Walk([], None, false)) == Walk([], None, false)
  {
  }

  /** The traces of a log of which `kept` arrived. */
  ghost function TracesIn(log: Log, kept: set<nat>): seq<Placed> {
    CutOff(CutTo(log, kept, |log|)).done
  }

  /** Whatever was dropped from a tap's recording, splitting it never fails, and finds exactly
      the traces its log has between entries, drops, and changes. */
  lemma SegmentsFound(records: seq<D.Numbered>, log: Log)
    requires Received(records, log) && AllTruthful(log) && |log| < 0x1_0000_0000
    ensures !SegmentsOf(records).failed
    ensures SegmentsOf(records).done == TracesOf(TracesIn(log, Kept(records)))
  {
    hide AllTruthful, CutOff, End;
    WalkMatches(records, log, |records|);
    BetweenMissing(records, log, |records|);
    GapMatches(WalkTo(records, |records|), log, Kept(records), Expected(records, |records|), |log|);
  }

  /** Traces never straddle a boundary: each is whole, ends only where it must, and comes after
      the one before it. */
  lemma TracesWhole(log: Log, kept: set<nat>)
    ensures forall p <- TracesIn(log, kept) :: Finished(p, log, kept, |log|)
    ensures InOrder(TracesIn(log, kept), |log|)
  {
    CutToRight(log, kept, |log|);
    CutOffRight(CutTo(log, kept, |log|), log, kept, |log|);
  }

  /** No event is left out: where the pipeline was entered and everything since arrived with
      nothing that ends a trace, the event is in the trace that starts there. */
  lemma {:induction false} EventsStay(log: Log, kept: set<nat>, a: nat, i: nat, m: nat) returns (p: Placed)
    requires a < i < m <= |log| && log[a].record.Entered? && a in kept
    requires IsEvent(log[i].record) && forall k | a < k <= i :: !Ends(log, kept, k)
    ensures p.from == a && i < p.till
    ensures CutTo(log, kept, m).current == Some(p) || p in CutTo(log, kept, m).done
    decreases m
  {
    hide Ends;
    if m == i + 1 {
      p := Begun(log, kept, a, i + 1);
    } else {
      var q := EventsStay(log, kept, a, i, m - 1);
      p := q;
      var c := CutTo(log, kept, m - 1);
      CutToRight(log, kept, m - 1);
      if c.current == Some(q) {
        if Ends(log, kept, m - 1) {
          EventIn(q, log, kept, i);
        } else {
          p := Longer(q, D.Numbered(Wrap32(m - 1), log[m - 1].record));
        }
      }
    }
  }

  /** The trace in progress while nothing ends it. */
  lemma {:induction false} Begun(log: Log, kept: set<nat>, a: nat, m: nat) returns (p: Placed)
    requires a < m <= |log| && log[a].record.Entered? && a in kept
    requires forall k | a < k < m :: !Ends(log, kept, k)
    ensures CutTo(log, kept, m).current == Some(p) && p.from == a && p.till == m
    decreases m
  {
    if m == a + 1 {
      p := Placed(Trace(None, [], log[a].record.settingsHash), a, m);
    } else {
      var q := Begun(log, kept, a, m - 1);
      p := Longer(q, D.Numbered(Wrap32(m - 1), log[m - 1].record));
    }
  }

  lemma EventIn(p: Placed, log: Log, kept: set<nat>, i: nat)
    requires Whole(p, log, kept) && p.from < i < p.till && IsEvent(log[i].record)
    ensures D.Numbered(Wrap32(i), log[i].record) in p.trace.events
  {
    EventsSplit(log, p.from + 1, i, p.till);
    EventsSplit(log, p.from + 1, i + 1, p.till);
    assert D.Numbered(Wrap32(i), log[i].record) in EventsOf(log, p.from + 1, i + 1);
  }

  lemma {:induction false} EventsSplit(log: Log, a: nat, b: nat, c: nat)
    requires a <= b <= c <= |log|
    ensures EventsOf(log, a, c) == EventsOf(log, a, b) + EventsOf(log, b, c)
    decreases c
  {
    if b < c {
      EventsSplit(log, a, b, c - 1);
    }
  }

  lemma TracesComplete(log: Log, kept: set<nat>, a: nat, i: nat) returns (p: Placed)
    requires a < i < |log| && log[a].record.Entered? && a in kept
    requires IsEvent(log[i].record) && forall k | a < k <= i :: !Ends(log, kept, k)
    ensures p in TracesIn(log, kept) && p.from == a
    ensures D.Numbered(Wrap32(i), log[i].record) in p.trace.events
  {
    p := EventsStay(log, kept, a, i, |log|);
    CutToRight(log, kept, |log|);
    EventIn(p, log, kept, i);
  }

  // ----- what was true during a trace -----

  ghost function RecordsOf(events: seq<D.Numbered>): seq<Record> {
    seq(|events|, i requires 0 <= i < |events| => events[i].record)
  }

  lemma {:induction false} PressInTrace(p: Placed, log: Log, kept: set<nat>, i: nat)
    requires Whole(p, log, kept) && p.from < i <= p.till
    ensures KeypressAt(log, i) == LastPress(RecordsOf(EventsOf(log, p.from + 1, i)))
    decreases i
  {
    hide KeypressAt, LastPress, EventsOf, Ends;
    if i == p.from + 1 {
      PressAtEntry(log, p.from);
    } else {
      PressInTrace(p, log, kept, i - 1);
      NoEntry(p, log, kept, i - 1);
      EventsNext(log, p.from + 1, i - 1);
      PressNext(log, i - 1, EventsOf(log, p.from + 1, i - 1));
    }
  }

  lemma PressAtEntry(log: Log, a: nat)
    requires a < |log| && log[a].record.Entered?
    ensures KeypressAt(log, a + 1) == LastPress(RecordsOf(EventsOf(log, a + 1, a + 1)))
  {
  }

  lemma NoEntry(p: Placed, log: Log, kept: set<nat>, i: nat)
    requires Whole(p, log, kept) && p.from < i < p.till
    ensures !log[i].record.Entered?
  {
    assert !Ends(log, kept, i);
  }

  lemma PressNext(log: Log, i: nat, events: seq<D.Numbered>)
    requires i < |log| && !log[i].record.Entered? && KeypressAt(log, i) == LastPress(RecordsOf(events))
    ensures KeypressAt(log, i + 1) == LastPress(RecordsOf(events + EventAt(log, i)))
  {
    hide LastPress;
    if IsEvent(log[i].record) {
      PressAppend(events, D.Numbered(Wrap32(i), log[i].record));
    } else {
      assert events + EventAt(log, i) == events;
    }
  }

  lemma EventsNext(log: Log, from: nat, i: nat)
    requires from <= i < |log|
    ensures EventsOf(log, from, i + 1) == EventsOf(log, from, i) + EventAt(log, i)
  {
  }

  lemma PressAppend(events: seq<D.Numbered>, n: D.Numbered)
    ensures LastPress(RecordsOf(events + [n]))
         == if n.record.Keypress? then Some(n.record.timeMs) else LastPress(RecordsOf(events))
  {
    var all := RecordsOf(events + [n]);
    assert all[..|all| - 1] == RecordsOf(events);
  }

  lemma {:induction false} SteadyInTrace(p: Placed, log: Log, kept: set<nat>, i: nat)
    requires Whole(p, log, kept) && AllTruthful(log) && p.from <= i < p.till
    ensures log[i].context.epoch == log[p.from].context.epoch
    ensures log[i].context.settings == log[p.from].context.settings
    decreases i
  {
    if i > p.from {
      SteadyInTrace(p, log, kept, i - 1);
      assert !Ends(log, kept, i) && Truthful(log, i);
    }
  }

  /** The one source record in a trace comes before its frames. */
  lemma {:induction false} SourceInTrace(p: Placed, log: Log, kept: set<nat>, i: nat, till: nat)
    requires Whole(p, log, kept) && p.from < i <= till <= p.till && SourceAt(log, i).Some?
    ensures SourceAt(log, till) == SourceAt(log, i)
    decreases till
  {
    if i < till {
      SourceInTrace(p, log, kept, i, till - 1);
      assert !Ends(log, kept, till - 1);
    }
  }

  /** A trace is of one run of the stages from their reset: throughout it no stage was reset,
      the settings in force were those of its hash, every frame came from its source, and every
      frame and flush was decided with the newest key press among the trace's events before it. */
  lemma TraceIsTrue(p: Placed, log: Log, kept: set<nat>, i: nat)
    requires Whole(p, log, kept) && AllTruthful(log) && p.from < i < p.till
    ensures forall k | 0 <= k < p.from :: log[k].context.epoch < log[p.from].context.epoch
    ensures log[i].context.epoch == log[p.from].context.epoch
    ensures log[i].context.settings == p.trace.settingsHash
    ensures log[i].record.FrameRecord? ==> p.trace.source.Some? && log[i].context.source == p.trace.source
    ensures Processed(log[i].record) ==> log[i].context.press == LastPress(RecordsOf(EventsOf(log, p.from + 1, i)))
    ensures EventsOf(log, p.from + 1, i) + EventAt(log, i) <= p.trace.events
  {
    hide SourceAt, KeypressAt, LastPress, EventsOf, Ends;
    EntryIsFresh(log, p.from);
    SaysTrue(log, i);
    SteadyInTrace(p, log, kept, i);
    if log[i].record.FrameRecord? {
      SourceInTrace(p, log, kept, i, p.till);
    }
    if Processed(log[i].record) {
      PressInTrace(p, log, kept, i);
    }
    EventsSplit(log, p.from + 1, i + 1, p.till);
    EventsNext(log, p.from + 1, i);
  }

  lemma EntryIsFresh(log: Log, a: nat)
    requires a < |log| && AllTruthful(log) && log[a].record.Entered?
    ensures log[a].context.settings == log[a].record.settingsHash
    ensures forall k | 0 <= k < a :: log[k].context.epoch < log[a].context.epoch
  {
    assert Truthful(log, a);
  }

  lemma SaysTrue(log: Log, i: nat)
    requires i < |log| && AllTruthful(log)
    ensures log[i].record.FrameRecord? ==> log[i].context.source.Some? && log[i].context.source == SourceAt(log, i)
    ensures Processed(log[i].record) ==> log[i].context.press == KeypressAt(log, i)
  {
    assert Truthful(log, i);
  }
}
