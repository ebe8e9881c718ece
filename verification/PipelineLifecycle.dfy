/** Entering and leaving a pipeline: reset, activate, deactivate (src/core/pipeline.c). */
module PipelineLifecycle {
  import opened Bytes
  import opened Errno
  import opened PipelineEngine
  import opened PipelineStates
  import opened Pipeline

  /** What the lifecycle observers of all pipelines saw, in order. */
  class Observer {
    ghost var calls: seq<(PipelineState, bool)>

    constructor ()
      ensures calls == []
    {
      calls := [];
    }

    method Saw(p: PipelineState, active: bool)
      modifies this
      ensures calls == old(calls) + [(p, active)]
    {
      calls := calls + [(p, active)];
    }
  }

  /** Only stages that can flush have a deadline pending, and none of an inactive pipeline. */
  ghost predicate Consistent(p: PipelineState)
    reads p
  {
    && p.Fits() && p.OnlyFlushable()
    && (!p.active ==> forall i | 0 <= i < |p.deadlines| :: p.deadlines[i].None?)
  }

  // ----- reset -----

  ghost function ResetStage(api: StageApi, m: Memory): Memory {
    match api.reset
    case Some(reset) => reset(m)
    case None => m
  }

  ghost function ResetMemory(c: Chain, memory: seq<Memory>): seq<Memory>
    requires |memory| == |c.stages|
  {
    seq(|memory|, i requires 0 <= i < |memory| => ResetStage(c.stages[i], memory[i]))
  }

  ghost function ResetSink(c: Chain, sink: SinkState): SinkState {
    match c.sinkReset
    case Some(reset) => reset(sink)
    case None => sink
  }

  ghost function NoDeadlines(c: Chain): seq<Option<uint32>> {
    seq(|c.stages|, _ => None)
  }

  method Reset(p: PipelineState)
    requires p.Fits()
    modifies p`memory, p`deadlines, p`sink
    ensures p.memory == ResetMemory(p.chain, old(p.memory)) && p.deadlines == NoDeadlines(p.chain)
    ensures p.sink == ResetSink(p.chain, old(p.sink))
  {
    var c := p.chain;
    for i := 0 to |c.stages|
      invariant p.Fits() && p.sink == old(p.sink)
      invariant forall k | 0 <= k < i :: p.memory[k] == ResetStage(c.stages[k], old(p.memory)[k]) && p.deadlines[k] == None
      invariant forall k | i <= k < |c.stages| :: p.memory[k] == old(p.memory)[k]
    {
      p.deadlines := p.deadlines[i := None];
      match c.stages[i].reset
      case Some(reset) => p.memory := p.memory[i := reset(p.memory[i])];
      case None =>
    }
    match c.sinkReset
    case Some(reset) => p.sink := reset(p.sink);
    case None =>
  }

  // ----- activate -----

  /** What activating leaves behind. */
  datatype Activation = Activation(memory: seq<Memory>, sink: SinkState, code: Code)

  /** Activate stage `i` and those after it, up to a failure. */
  ghost function ActivateStages(c: Chain, memory: seq<Memory>, i: nat): (r: (seq<Memory>, Code))
    requires |memory| == |c.stages| && i <= |c.stages|
    ensures |r.0| == |c.stages|
    decreases |c.stages| - i
  {
    if i == |c.stages| then (memory, 0)
    else
      match c.stages[i].activate
      case None => ActivateStages(c, memory, i + 1)
      case Some(activate) =>
        var (m, code) := activate(memory[i]);
        if code < 0 then (memory[i := m], code) else ActivateStages(c, memory[i := m], i + 1)
  }

  /** Each stage up to `stop` is as its own activation, which succeeded, left it. There is a stage
      `stop` exactly when one failed: it is the first that did, its code is returned, and those
      behind it were not called. */
  ghost predicate ActivatedUpTo(c: Chain, before: seq<Memory>, after: seq<Memory>, code: Code, i: nat, stop: nat) {
    && |before| == |after| == |c.stages| && i <= stop <= |c.stages| && (stop < |c.stages| <==> code < 0)
    && (forall k | 0 <= k < |c.stages| ::
          match c.stages[k].activate
          case Some(activate) =>
            if i <= k < stop then (after[k], 0 as Code) == activate(before[k])
            else if k == stop then (after[k], code) == activate(before[k])
            else after[k] == before[k]
          case None => after[k] == before[k] && k != stop)
  }

  lemma {:induction false} ActivateStops(c: Chain, memory: seq<Memory>, i: nat) returns (stop: nat)
    requires |memory| == |c.stages| && i <= |c.stages|
    ensures ActivatedUpTo(c, memory, ActivateStages(c, memory, i).0, ActivateStages(c, memory, i).1, i, stop)
    decreases |c.stages| - i
  {
    if i == |c.stages| {
      stop := i;
    } else if c.stages[i].activate.None? {
      stop := ActivateStops(c, memory, i + 1);
    } else {
      var (m, code) := c.stages[i].activate.value(memory[i]);
      if code < 0 {
        stop := i;
      } else {
        stop := ActivateStops(c, memory[i := m], i + 1);
      }
    }
  }

  /** Stages and sink are reset, then activated in order; a failure resets them again. */
  ghost function Activate(c: Chain, memory: seq<Memory>, sink: SinkState): Activation
    requires |memory| == |c.stages|
  {
    var (m, code) := ActivateStages(c, ResetMemory(c, memory), 0);
    var s := ResetSink(c, sink);
    if code < 0 then Failed(c, m, s, code)
    else
      match c.sinkActivate
      case None => Activation(m, s, 0)
      case Some(activate) =>
        var (s', result) := activate(s);
        if result < 0 then Failed(c, m, s', result) else Activation(m, s', 0)
  }

  ghost function Failed(c: Chain, memory: seq<Memory>, sink: SinkState, code: Code): Activation
    requires |memory| == |c.stages|
  {
    Activation(ResetMemory(c, memory), ResetSink(c, sink), code)
  }

  /** Which failure activating returns: that of the first stage that fails, and the sink's only
      when none did. Whatever fails, stages and sink are reset after what they did. */
  lemma ActivateReturns(c: Chain, memory: seq<Memory>, sink: SinkState) returns (stop: nat, after: seq<Memory>)
    requires |memory| == |c.stages|
    ensures var r := Activate(c, memory, sink);
            if stop < |c.stages| then
              && ActivatedUpTo(c, ResetMemory(c, memory), after, r.code, 0, stop)
              && r.memory == ResetMemory(c, after) && r.sink == ResetSink(c, ResetSink(c, sink))
            else
              && ActivatedUpTo(c, ResetMemory(c, memory), after, 0, 0, stop)
              && r.memory == (if r.code < 0 then ResetMemory(c, after) else after)
              && match c.sinkActivate
                 case None => r.code == 0 && r.sink == ResetSink(c, sink)
                 case Some(activate) =>
                   var (sink', code) := activate(ResetSink(c, sink));
                   r.code == code && r.sink == if code < 0 then ResetSink(c, sink') else sink'
  {
    hide ResetSink, ResetMemory, ActivatedUpTo, ActivateStages;
    ResetFits(c, memory);
    stop := ActivateStops(c, ResetMemory(c, memory), 0);
    after := ActivateStages(c, ResetMemory(c, memory), 0).0;
    StopsIff(c, ResetMemory(c, memory), after, ActivateStages(c, ResetMemory(c, memory), 0).1, stop);
    if stop == |c.stages| && c.sinkActivate.Some? {
      var result: Code := c.sinkActivate.value(ResetSink(c, sink)).1;
      assert result <= 0;
    }
  }

  lemma ResetFits(c: Chain, memory: seq<Memory>)
    requires |memory| == |c.stages|
    ensures |ResetMemory(c, memory)| == |c.stages|
  {
  }

  lemma StopsIff(c: Chain, before: seq<Memory>, after: seq<Memory>, code: Code, stop: nat)
    requires ActivatedUpTo(c, before, after, code, 0, stop)
    ensures stop <= |c.stages| && (stop < |c.stages| <==> code < 0)
  {
  }

  /** What activating `p` would do now. */
  ghost function Activating(p: PipelineState): Activation
    reads p
    requires p.Fits()
  {
    Activate(p.chain, p.memory, p.sink)
  }

  method ActivateEach(p: PipelineState) returns (code: Code)
    requires p.Fits()
    modifies p`memory
    ensures (p.memory, code) == ActivateStages(p.chain, old(p.memory), 0)
  {
    var c := p.chain;
    ghost var target := ActivateStages(c, p.memory, 0);
    for i := 0 to |c.stages|
      invariant p.Fits() && target == ActivateStages(c, p.memory, i)
    {
      match c.stages[i].activate
      case None =>
      case Some(activate) =>
        var (m, result) := activate(p.memory[i]);
        p.memory := p.memory[i := m];
        if result < 0 {
          return result;
        }
    }
    code := 0;
  }

  /** `zpt_pipeline_activate`. */
  method ActivatePipeline(p: PipelineState, observer: Observer) returns (code: Code)
    requires Consistent(p)
    modifies p, observer
    ensures Consistent(p) && p.validated == old(p.validated)
    ensures !p.validated ==> code == EINVAL
    ensures p.validated && old(p.active) ==> code == EALREADY
    ensures !p.validated || old(p.active) ==> unchanged(p) && unchanged(observer)
    ensures p.validated && !old(p.active) ==>
              && Activation(p.memory, p.sink, code) == old(Activating(p)) && p.deadlines == NoDeadlines(p.chain)
              && p.active == (code == 0)
              && observer.calls == (if p.active then old(observer.calls) + [(p, true)] else old(observer.calls))
  {
    if !p.validated {
      return EINVAL;
    }
    if p.active {
      return EALREADY;
    }
    Reset(p);
    code := ActivateEach(p);
    if code < 0 {
      Reset(p);
      return;
    }
    match p.chain.sinkActivate {
      case None =>
      case Some(activate) =>
        var (sink, result) := activate(p.sink);
        p.sink := sink;
        code := result;
        if code < 0 {
          Reset(p);
          return;
        }
    }
    p.active := true;
    observer.Saw(p, true);
    code := 0;
  }

  // ----- deactivate -----

  /** Deactivate stage `i` and those after it; what they emit is finished downstream, and the
      first failure is kept while the others go on. */
  ghost function DeactivateStages(c: Chain, now: uint32, e: Engine, i: nat, first: Code): (o: EngineOutcome)
    requires e.For(c) && i <= |c.stages|
    ensures o.engine.For(c)
    decreases |c.stages| - i
  {
    if i == |c.stages| then EngineOutcome(e, first)
    else
      var cleared := e.(world := e.world.PutDeadline(i, None));
      match c.stages[i].deactivate
      case None => DeactivateStages(c, now, cleared, i + 1, first)
      case Some(deactivate) =>
        var ran := EngineRun(c, now, cleared, i, deactivate(e.world.memory[i], now));
        var o := EngineDrain(c, now, ran.engine, ran.code);
        DeactivateStages(c, now, o.engine, i + 1, if first == 0 then o.code else first)
  }

  /** The rest of a deactivation comes out at `target`. */
  ghost predicate DeactivatesTo(c: Chain, now: uint32, e: Engine, i: nat, first: Code, target: EngineOutcome)
    requires e.For(c) && i <= |c.stages|
  {
    target == DeactivateStages(c, now, e, i, first)
  }

  method DeactivateEach(operation: Operation) returns (first: Code)
    requires operation.Value().For(operation.pipeline.chain)
    modifies operation, operation.pipeline`memory, operation.pipeline`deadlines, operation.pipeline`sink
    ensures EngineOutcome(operation.Value(), first)
         == DeactivateStages(operation.pipeline.chain, operation.now, old(operation.Value()), 0, 0)
  {
    var p, c, now := operation.pipeline, operation.pipeline.chain, operation.now;
    ghost var target := DeactivateStages(c, now, operation.Value(), 0, 0);
    first := 0;
    for i := 0 to |c.stages|
      invariant operation.Value().For(c)
      invariant DeactivatesTo(c, now, operation.Value(), i, first, target)
    {
      p.deadlines := p.deadlines[i := None];
      match c.stages[i].deactivate
      case None =>
      case Some(deactivate) =>
        var ran := operation.CallStage(i, deactivate(p.memory[i], now));
        var code := operation.Drain(ran);
        if first == 0 {
          first := code;
        }
    }
  }

  /** Leaving counts its dispatches too, and where kinds fit nothing it dispatches is refused
      for its kind. */
  lemma {:induction false} DeactivateSound(c: Chain, now: uint32, e: Engine, i: nat, first: Code, fit: bool)
    requires e.For(c) && i <= |c.stages| && (fit ==> PipelineEngine.Fits(c, e))
    ensures PipelineEngine.Sound(c, e, DeactivateStages(c, now, e, i, first).engine, fit)
    decreases |c.stages| - i
  {
    hide EngineRun, EngineDrain, CanFlush, PipelineEngine.Fits, DeadlinesFlush, PipelineEngine.Sound;
    if i == |c.stages| {
      SoundStep(c, e, e, fit);
    } else {
      var cleared := e.(world := e.world.PutDeadline(i, None));
      match c.stages[i].deactivate
      case None =>
        SoundStep(c, e, cleared, fit);
        SoundFits(c, e, cleared, fit);
        DeactivateSound(c, now, cleared, i + 1, first, fit);
        SoundTwice(c, e, cleared, DeactivateStages(c, now, cleared, i + 1, first).engine, fit);
      case Some(deactivate) =>
        var script := deactivate(e.world.memory[i], now);
        CallSound(c, now, e, i, script, fit);
        var ran := EngineRun(c, now, cleared, i, script);
        var o := EngineDrain(c, now, ran.engine, ran.code);
        var next := if first == 0 then o.code else first;
        SoundFits(c, e, o.engine, fit);
        DeactivateSound(c, now, o.engine, i + 1, next, fit);
        SoundTwice(c, e, o.engine, DeactivateStages(c, now, o.engine, i + 1, next).engine, fit);
    }
  }

  /** Every stage has its turn to leave, whatever others return: each is as the calls made to it
      and then its own leaving left it. */
  lemma {:induction false} DeactivateLeads(c: Chain, now: uint32, e: Engine, i: nat, first: Code)
    requires e.For(c) && e.held.None? && i <= |c.stages|
    ensures Swept(c, now, Leaving, e.world, DeactivateStages(c, now, e, i, first).engine.world, i, |c.stages|)
    decreases |c.stages| - i
  {
    hide EngineRun, EngineDrain, Leads, Swept, CallLeaves;
    if i == |c.stages| {
      SweptNone(c, now, Leaving, e.world, i);
    } else {
      var cleared := e.(world := e.world.PutDeadline(i, None));
      match c.stages[i].deactivate
      case None =>
        DeactivateLeads(c, now, cleared, i + 1, first);
        NoCalls(c, now, e.world, cleared.world, i + 1, i);
        SweptOne(c, now, Leaving, e.world, cleared.world, DeactivateStages(c, now, cleared, i + 1, first).engine.world, i, |c.stages|);
      case Some(deactivate) =>
        var script := deactivate(e.world.memory[i], now);
        TurnLeads(c, now, e, i, script);
        var ran := EngineRun(c, now, cleared, i, script);
        var o := EngineDrain(c, now, ran.engine, ran.code);
        var next := if first == 0 then o.code else first;
        DeactivateLeads(c, now, o.engine, i + 1, next);
        SweptOne(c, now, Leaving, e.world, o.engine.world, DeactivateStages(c, now, o.engine, i + 1, next).engine.world, i, |c.stages|);
    }
  }

  /** In this call a stage loses the emission it holds. */
  ghost predicate CallLoses(c: Chain, now: uint32, e: Engine, i: nat, script: Script)
    requires e.For(c) && i < |c.stages|
  {
    var ran := EngineRun(c, now, e, i, script);
    RunLoses(c, now, e, i, script) || DrainLoses(c, now, ran.engine, ran.code)
  }

  /** Stage `i` leaves: it loses its deadline and, where it asks to be told, is called as nested
      calls would. */
  ghost predicate StageLeaves(c: Chain, now: uint32, e: Engine, i: nat, o: EngineOutcome)
    requires i < |c.stages|
  {
    && e.For(c) && e.held.None? && o.engine.For(c) && o.engine.held.None?
    && var cleared := e.(world := e.world.PutDeadline(i, None));
       match c.stages[i].deactivate
       case None => o == EngineOutcome(cleared, 0)
       case Some(deactivate) =>
         var script := deactivate(e.world.memory[i], now);
         Matches(CallLoses(c, now, cleared, i, script), Outcome(o.engine.world, o.code), Run(c, now, cleared.world, i, script))
  }

  /** `trace` starts at `e`, and goes on with what each stage from `i` on left and returned. */
  ghost predicate LeaveTrace(c: Chain, now: uint32, e: Engine, i: nat, trace: seq<EngineOutcome>) {
    && i <= |c.stages| && |trace| == |c.stages| - i + 1 && trace[0] == EngineOutcome(e, 0)
    && forall k | 0 <= k < |c.stages| - i :: StageLeaves(c, now, trace[k].engine, i + k, trace[k + 1])
  }

  /** `code` is the first failure, `first` being the earliest, or success where there is none. */
  ghost predicate FirstFailure(first: Code, trace: seq<EngineOutcome>, code: Code) {
    if first < 0 then code == first
    else if code == 0 then forall o <- trace :: o.code == 0
    else exists k :: 0 <= k < |trace| && trace[k].code == code && forall l | 0 <= l < k :: trace[l].code == 0
  }

  /** Leaving calls every stage in order, whatever others return, and returns the first failure. */
  lemma {:induction false} DeactivateTraced(c: Chain, now: uint32, e: Engine, i: nat, first: Code) returns (trace: seq<EngineOutcome>)
    requires e.For(c) && e.held.None? && i <= |c.stages|
    ensures LeaveTrace(c, now, e, i, trace)
    ensures trace[|c.stages| - i].engine == DeactivateStages(c, now, e, i, first).engine
    ensures FirstFailure(first, trace, DeactivateStages(c, now, e, i, first).code)
    decreases |c.stages| - i
  {
    hide EngineRun, EngineDrain, Run, Matches, CallLoses;
    if i == |c.stages| {
      trace := [EngineOutcome(e, 0)];
    } else {
      var o := LeaveOne(c, now, e, i);
      var next := if first == 0 then o.code else first;
      var rest := DeactivateTraced(c, now, o.engine, i + 1, next);
      trace := [EngineOutcome(e, 0), o] + rest[1..];
      TraceOn(c, now, e, i, o, rest);
      FailureOn(first, e, o, rest, DeactivateStages(c, now, e, i, first).code);
    }
  }

  lemma LeaveOne(c: Chain, now: uint32, e: Engine, i: nat) returns (o: EngineOutcome)
    requires e.For(c) && e.held.None? && i < |c.stages|
    ensures StageLeaves(c, now, e, i, o)
    ensures forall first: Code :: DeactivateStages(c, now, e, i, first)
                               == DeactivateStages(c, now, o.engine, i + 1, if first == 0 then o.code else first)
  {
    hide EngineRun, EngineDrain, Run, Matches;
    var cleared := e.(world := e.world.PutDeadline(i, None));
    match c.stages[i].deactivate
    case None => o := EngineOutcome(cleared, 0);
    case Some(deactivate) =>
      var script := deactivate(e.world.memory[i], now);
      CallMatches(c, now, cleared, i, script);
      var ran := EngineRun(c, now, cleared, i, script);
      o := EngineDrain(c, now, ran.engine, ran.code);
  }

  lemma TraceOn(c: Chain, now: uint32, e: Engine, i: nat, o: EngineOutcome, rest: seq<EngineOutcome>)
    requires i < |c.stages| && StageLeaves(c, now, e, i, o) && LeaveTrace(c, now, o.engine, i + 1, rest)
    ensures LeaveTrace(c, now, e, i, [EngineOutcome(e, 0), o] + rest[1..])
    ensures ([EngineOutcome(e, 0), o] + rest[1..])[|c.stages| - i].engine == rest[|c.stages| - i - 1].engine
  {
    hide StageLeaves;
    var trace := [EngineOutcome(e, 0), o] + rest[1..];
    forall k | 0 <= k < |c.stages| - i ensures StageLeaves(c, now, trace[k].engine, i + k, trace[k + 1]) {
      if k > 0 {
        assert StageLeaves(c, now, rest[k - 1].engine, i + 1 + (k - 1), rest[k]);
      }
    }
  }

  lemma FailureOn(first: Code, e: Engine, o: EngineOutcome, rest: seq<EngineOutcome>, code: Code)
    requires rest != [] && rest[0].code == 0
    requires FirstFailure(if first == 0 then o.code else first, rest, code)
    ensures FirstFailure(first, [EngineOutcome(e, 0), o] + rest[1..], code)
  {
    var trace := [EngineOutcome(e, 0), o] + rest[1..];
    if first == 0 && o.code == 0 {
      if code < 0 {
        var k :| 0 <= k < |rest| && rest[k].code == code && forall l | 0 <= l < k :: rest[l].code == 0;
        assert trace[k + 1] == rest[k];
        forall l | 0 <= l < k + 1 ensures trace[l].code == 0 {
          if l > 1 {
            assert trace[l] == rest[l - 1];
          }
        }
      }
    } else if first == 0 {
      assert trace[1].code == code;
    }
  }

  /** The result of deactivating: the first failure, of the stages or else of the sink. */
  ghost function Deactivating(c: Chain, now: uint32, w: World): Activation
    requires w.For(c)
  {
    var o := DeactivateStages(c, now, Engine(w, None), 0, 0);
    var (sink, code) := DeactivateSink(c, o.engine.world.sink);
    Activation(ResetMemory(c, o.engine.world.memory), ResetSink(c, sink), if o.code == 0 then code else o.code)
  }

  ghost function DeactivateSink(c: Chain, sink: SinkState): (SinkState, Code) {
    match c.sinkDeactivate
    case None => (sink, 0)
    case Some(deactivate) => deactivate(sink)
  }

  /** Which failure leaving returns: the first, of the stages in order and then of the sink. */
  lemma DeactivateReturns(c: Chain, now: uint32, w: World) returns (trace: seq<EngineOutcome>)
    requires w.For(c)
    ensures LeaveTrace(c, now, Engine(w, None), 0, trace)
    ensures var last := trace[|c.stages|].engine;
            var (sink, code) := DeactivateSink(c, last.world.sink);
            && FirstFailure(0, trace + [EngineOutcome(last, code)], Deactivating(c, now, w).code)
            && Deactivating(c, now, w).sink == ResetSink(c, sink)
  {
    hide DeactivateStages, StageLeaves, ResetMemory, ResetSink;
    trace := DeactivateTraced(c, now, Engine(w, None), 0, 0);
    var o := DeactivateStages(c, now, Engine(w, None), 0, 0);
    LastFailure(trace, o.code, EngineOutcome(o.engine, DeactivateSink(c, o.engine.world.sink).1));
  }

  lemma LastFailure(trace: seq<EngineOutcome>, code: Code, last: EngineOutcome)
    requires FirstFailure(0, trace, code)
    ensures FirstFailure(0, trace + [last], if code == 0 then last.code else code)
  {
    var all := trace + [last];
    if code == 0 {
      assert all[|trace|] == last;
      forall l | 0 <= l < |trace| ensures all[l].code == 0 {
        assert trace[l] in trace;
      }
    } else {
      var k :| 0 <= k < |trace| && trace[k].code == code && forall l | 0 <= l < k :: trace[l].code == 0;
      assert all[k].code == code && forall l | 0 <= l < k :: all[l].code == 0;
    }
  }

  /** `zpt_pipeline_deactivate`: whatever fails, the pipeline is left, reset and inactive. */
  method DeactivatePipeline(p: PipelineState, now: uint32, observer: Observer) returns (code: Code, result: Result)
    requires Consistent(p)
    modifies p, observer
    ensures Consistent(p) && p.validated == old(p.validated)
    ensures result.outputs <= result.dispatches <= p.chain.budget
    ensures !p.validated ==> code == EINVAL
    ensures p.validated && !old(p.active) ==> code == EALREADY
    ensures !p.validated || !old(p.active) ==> unchanged(p) && unchanged(observer) && result == Result(0, 0)
    ensures p.validated && old(p.active) ==>
              && !p.active && p.deadlines == NoDeadlines(p.chain)
              && Activation(p.memory, p.sink, code) == Deactivating(p.chain, now, old(p.Start()))
              && result == (var w := DeactivateStages(p.chain, now, Engine(old(p.Start()), None), 0, 0).engine.world;
                            Result(w.dispatches, w.outputs))
              && observer.calls == old(observer.calls) + [(p, false)]
  {
    result := Result(0, 0);
    if !p.validated {
      return EINVAL, result;
    }
    if !p.active {
      return EALREADY, result;
    }
    var operation := new Operation(p, now);
    DeactivateSound(p.chain, now, operation.Value(), 0, 0, false);
    code := DeactivateEach(operation);
    match p.chain.sinkDeactivate {
      case None =>
      case Some(deactivate) =>
        var (sink, failed) := deactivate(p.sink);
        p.sink := sink;
        if code == 0 {
          code := failed;
        }
    }
    p.active := false;
    Reset(p);
    observer.Saw(p, false);
    result := Result(operation.dispatches, operation.outputs);
  }
}
