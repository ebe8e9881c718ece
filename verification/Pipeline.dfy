/** The engine as it runs (src/core/pipeline.c): an operation object that holds at most one
    emission, over a pipeline whose stages and sink it changes in place. Every method does
    exactly what PipelineEngine says of the state it finds. */
module Pipeline {
  import opened Bytes
  import opened Errno
  import opened PipelineEngine
  import opened PipelineStates

  class PipelineState {
    const chain: Chain
    var memory: seq<Memory>
    var deadlines: seq<Option<uint32>>
    var sink: SinkState
    var validated: bool
    var active: bool

    constructor (chain: Chain, memory: seq<Memory>, sink: SinkState)
      requires |memory| == |chain.stages|
      ensures this.chain == chain && Fits() && this.memory == memory && this.sink == sink && !validated && !active
    {
      this.chain, this.memory, this.sink := chain, memory, sink;
      deadlines := seq(|chain.stages|, _ => None);
      validated, active := false, false;
    }

    ghost predicate Fits()
      reads this
    {
      |memory| == |deadlines| == |chain.stages|
    }

    /** Only stages that can flush have a deadline. */
    ghost predicate OnlyFlushable()
      reads this
    {
      Fits() && DeadlinesFlush(chain, Start())
    }

    /** What an operation starts from. */
    ghost function Start(): World
      reads this
    {
      Begin(chain, memory, deadlines, sink)
    }

    /** What an operation left behind. */
    ghost predicate LeftBy(w: World)
      reads this
    {
      memory == w.memory && deadlines == w.deadlines && sink == w.sink
    }
  }

  class Operation {
    const pipeline: PipelineState
    const now: uint32
    var remaining: nat
    var dispatches: nat
    var outputs: nat
    var held: Option<Held>
    /** The calls made so far, for the specification. */
    ghost var calls: seq<(nat, Signal)>
    ghost var mismatch: bool

    constructor (pipeline: PipelineState, now: uint32)
      requires pipeline.Fits()
      ensures this.pipeline == pipeline && this.now == now && Value() == Engine(pipeline.Start(), None)
    {
      this.pipeline, this.now := pipeline, now;
      remaining, dispatches, outputs, held := pipeline.chain.budget, 0, 0, None;
      calls, mismatch := [], false;
    }

    ghost function Value(): Engine
      reads this, pipeline
    {
      Engine(World(pipeline.memory, pipeline.deadlines, pipeline.sink, remaining, dispatches, outputs, calls, mismatch), held)
    }

    method CallSink(signal: Signal) returns (code: Code)
      modifies this, pipeline`memory, pipeline`deadlines, pipeline`sink
      ensures var o := Sink(pipeline.chain, old(Value()).world, signal);
              code == o.code && Value() == old(Value()).(world := o.world)
    {
      var c := pipeline.chain;
      if !Accepts(c.sinkAccepted, signal.kind) {
        mismatch := true;
        return EPROTOTYPE;
      }
      var (sink, result) := c.sinkEmit(pipeline.sink, signal);
      pipeline.sink := sink;
      calls := calls + [(|c.stages|, signal)];
      if result == 0 {
        outputs := outputs + 1;
      }
      return result;
    }

    method DispatchAt(i: nat, signal: Signal) returns (code: Code)
      requires Value().For(pipeline.chain) && i <= |pipeline.chain.stages|
      modifies this, pipeline`memory, pipeline`deadlines, pipeline`sink
      ensures EngineOutcome(Value(), code) == EngineDispatch(pipeline.chain, now, old(Value()), i, signal)
      decreases remaining, 0
    {
      var c := pipeline.chain;
      if remaining == 0 {
        return E2BIG;
      }
      remaining := remaining - 1;
      dispatches := dispatches + 1;
      if i == |c.stages| {
        code := CallSink(signal);
        return;
      }
      if !Accepts(c.stages[i].accepted, signal.kind) {
        mismatch := true;
        return EPROTOTYPE;
      }
      calls := calls + [(i, signal)];
      code := CallStage(i, c.stages[i].process(pipeline.memory[i], signal, now));
    }

    /** EngineDrain as a loop over the slot. */
    method Drain(result: Code) returns (code: Code)
      requires Value().For(pipeline.chain)
      modifies this, pipeline`memory, pipeline`deadlines, pipeline`sink
      ensures EngineOutcome(Value(), code) == EngineDrain(pipeline.chain, now, old(Value()), result)
      decreases remaining, 1
    {
      code := result;
      ghost var target := EngineDrain(pipeline.chain, now, Value(), result);
      while code == 0 && held.Some?
        invariant Value().For(pipeline.chain) && remaining <= old(remaining)
        invariant DrainsTo(pipeline.chain, now, Value(), code, target)
        decreases if code == 0 then remaining + 1 else 0
      {
        var next := held.value;
        held := None;
        code := DispatchAt(next.index, next.signal);
      }
      held := None;
    }

    /** A stage's emission: an earlier one is finished downstream first, then this is held. */
    method Emit(i: nat, signal: Signal) returns (code: Code)
      requires Value().For(pipeline.chain) && i < |pipeline.chain.stages|
      modifies this, pipeline`memory, pipeline`deadlines, pipeline`sink
      ensures EngineOutcome(Value(), code) == EngineEmit(pipeline.chain, now, old(Value()), i, signal)
      decreases remaining, 2
    {
      if signal.kind != pipeline.chain.stages[i].output {
        return EPROTOTYPE;
      }
      if held.Some? {
        code := Drain(0);
        if code < 0 {
          return;
        }
      }
      held := Some(Held(i + 1, signal));
      code := 0;
    }

    /** A call of stage `i`, as the stage makes it. */
    method CallStage(i: nat, script: Script) returns (code: Code)
      requires Value().For(pipeline.chain) && i < |pipeline.chain.stages|
      modifies this, pipeline`memory, pipeline`deadlines, pipeline`sink
      ensures EngineOutcome(Value(), code) == EngineRun(pipeline.chain, now, old(Value()), i, script)
      decreases remaining, 3, script
    {
      match script
      case Return(memory, result) =>
        pipeline.memory := pipeline.memory[i := memory];
        code := result;
      case Emit(signal, onFailure, rest) =>
        code := Emit(i, signal);
        if code < 0 {
          pipeline.memory := pipeline.memory[i := onFailure];
        } else {
          code := CallStage(i, rest);
        }
      case Schedule(deadline, accepted, refused) =>
        if CanFlush(pipeline.chain.stages[i]) {
          pipeline.deadlines := pipeline.deadlines[i := Some(deadline)];
          code := CallStage(i, accepted);
        } else {
          code := CallStage(i, refused);
        }
      case Cancel(rest) =>
        pipeline.deadlines := pipeline.deadlines[i := None];
        code := CallStage(i, rest);
    }
  }

  /** Draining from here comes out at `target`. */
  ghost predicate DrainsTo(c: Chain, now: uint32, e: Engine, code: Code, target: EngineOutcome)
    requires e.For(c)
  {
    target == EngineDrain(c, now, e, code)
  }

  /** What an operation reports, besides its result code. */
  datatype Result = Result(dispatches: nat, outputs: nat)

  /** An operation ended as the engine does: what it returns, the calls it made, and everything
      it left in stages and sink, whether or not it succeeded. */
  ghost predicate Ended(o: EngineOutcome, code: Code, result: Result, calls: seq<(nat, Signal)>, p: PipelineState)
    reads p
  {
    var w := o.engine.world;
    code == o.code && result == Result(w.dispatches, w.outputs) && calls == w.calls && p.LeftBy(w)
  }

  /** An operation that did what nested calls would have done: the same calls in the same
      order, the same result, and, when it succeeded, the same state left behind. */
  ghost predicate AsNested(o: Outcome, code: Code, result: Result, calls: seq<(nat, Signal)>, p: PipelineState)
    reads p
  {
    && code == o.code && result == Result(o.world.dispatches, o.world.outputs) && calls == o.world.calls
    && p.sink == o.world.sink && (code == 0 ==> p.LeftBy(o.world))
  }

  /** An operation in which a stage lost the emission it held: it failed, after the first calls
      of those nested calls make. */
  ghost predicate CutShort(o: Outcome, code: Code, calls: seq<(nat, Signal)>) {
    code < 0 && o.code < 0 && calls <= o.world.calls
  }

  /** Runs one signal through the pipeline; `calls` is every call made, in order. Unless a stage
      loses the emission it holds, it is what nested calls would have done. Whatever it returns,
      each stage is as its own calls left it. */
  method Push(p: PipelineState, signal: Signal, observedAt: uint32)
    returns (code: Code, result: Result, ghost calls: seq<(nat, Signal)>)
    requires p.Fits()
    modifies p
    ensures p.Fits() && p.validated == old(p.validated) && p.active == old(p.active)
    ensures old(p.OnlyFlushable()) ==> p.OnlyFlushable()
    ensures result.outputs <= result.dispatches <= p.chain.budget
    ensures !p.validated || !p.active || signal.kind != p.chain.inputKind ==>
              && code == (if !p.validated then EINVAL else if !p.active then EACCES else EPROTOTYPE)
              && result == Result(0, 0) && calls == [] && unchanged(p)
    ensures p.validated && p.active && signal.kind == p.chain.inputKind ==>
              var o := EnginePush(p.chain, observedAt, old(p.Start()), signal);
              && Ended(o, code, result, calls, p)
              && Leads(p.chain, observedAt, old(p.Start()), o.engine.world, 0, |p.chain.stages|)
    ensures p.validated && p.active && signal.kind == p.chain.inputKind ==>
              var nested := Dispatch(p.chain, observedAt, old(p.Start()), 0, signal);
              if PushLoses(p.chain, observedAt, old(p.Start()), signal) then CutShort(nested, code, calls)
              else AsNested(nested, code, result, calls, p)
  {
    hide PushLoses, EngineDispatch, EngineDrain, Dispatch, Leads;
    result, calls := Result(0, 0), [];
    if !p.validated {
      return EINVAL, result, calls;
    }
    if !p.active {
      return EACCES, result, calls;
    }
    if signal.kind != p.chain.inputKind {
      return EPROTOTYPE, result, calls;
    }
    ghost var w := p.Start();
    var operation := new Operation(p, observedAt);
    var first := operation.DispatchAt(0, signal);
    code := operation.Drain(first);
    result, calls := Result(operation.dispatches, operation.outputs), operation.calls;
    PushSound(p.chain, observedAt, w, signal, false);
    PushExact(p.chain, observedAt, w, signal);
    PushLeads(p.chain, observedAt, w, signal);
  }

  /** No pending deadline is reached: each is after the current time, across the clock's wrap. */
  ghost predicate NoneReached(now: uint32, deadlines: seq<Option<uint32>>, origin: uint32) {
    Near(now, deadlines, origin) && FirstDue(now, deadlines, origin, |deadlines|)
  }

  /** The stages up to one had their turn to flush: all of them, or those up to the one that
      failed. */
  ghost predicate FlushedUpTo(c: Chain, now: uint32, w: World, o: EngineOutcome, stop: nat) {
    && (if o.code < 0 then 0 < stop <= |c.stages| else stop == |c.stages|)
    && Swept(c, now, Flushing, w, o.engine.world, 0, stop)
  }

  /** Flushes every stage whose deadline is due, in pipeline order, up to a failure. */
  method FlushDue(p: PipelineState, now: uint32) returns (code: Code, result: Result, ghost calls: seq<(nat, Signal)>)
    requires p.Fits()
    modifies p
    ensures p.Fits() && p.validated == old(p.validated) && p.active == old(p.active)
    ensures old(p.OnlyFlushable()) ==> p.OnlyFlushable()
    ensures result.outputs <= result.dispatches <= p.chain.budget
    ensures !p.validated || !p.active ==>
              && code == (if !p.validated then EINVAL else EACCES)
              && result == Result(0, 0) && calls == [] && unchanged(p)
    ensures p.validated && p.active ==>
              var o := EngineFlush(p.chain, now, Engine(old(p.Start()), None), 0);
              && Ended(o, code, result, calls, p)
              && exists stop: nat :: FlushedUpTo(p.chain, now, old(p.Start()), o, stop)
    ensures p.validated && p.active ==>
              forall origin: uint32 | NoneReached(now, old(p.deadlines), origin) ::
                code == 0 && result == Result(0, 0) && calls == [] && p.LeftBy(old(p.Start()))
    ensures p.validated && p.active ==>
              var nested := Flush(p.chain, now, old(p.Start()), 0);
              if FlushLoses(p.chain, now, Engine(old(p.Start()), None), 0) then CutShort(nested, code, calls)
              else AsNested(nested, code, result, calls, p)
  {
    hide EngineFlush, FlushLoses, Flush, Swept, Near, FirstDue;
    result, calls := Result(0, 0), [];
    if !p.validated {
      return EINVAL, result, calls;
    }
    if !p.active {
      return EACCES, result, calls;
    }
    ghost var w := p.Start();
    var operation := new Operation(p, now);
    code := FlushStages(operation);
    result, calls := Result(operation.dispatches, operation.outputs), operation.calls;
    FlushSound(p.chain, now, Engine(w, None), 0, false);
    FlushExact(p.chain, now, w, 0);
    ghost var stop := FlushLeads(p.chain, now, Engine(w, None), 0);
    assert FlushedUpTo(p.chain, now, w, EngineFlush(p.chain, now, Engine(w, None), 0), stop);
    forall origin: uint32 | NoneReached(now, w.deadlines, origin)
      ensures EngineFlush(p.chain, now, Engine(w, None), 0) == EngineOutcome(Engine(w, None), 0)
    {
      FlushFirst(p.chain, now, Engine(w, None), 0, |p.chain.stages|, origin);
    }
  }

  /** The rest of a flush comes out at `target`. */
  ghost predicate FlushesTo(c: Chain, now: uint32, e: Engine, i: nat, target: EngineOutcome)
    requires e.For(c) && i <= |c.stages|
  {
    target == EngineFlush(c, now, e, i)
  }

  method FlushStages(operation: Operation) returns (code: Code)
    requires operation.Value().For(operation.pipeline.chain)
    modifies operation, operation.pipeline
    ensures operation.pipeline.validated == old(operation.pipeline.validated)
    ensures operation.pipeline.active == old(operation.pipeline.active)
    ensures EngineOutcome(operation.Value(), code)
         == EngineFlush(operation.pipeline.chain, operation.now, old(operation.Value()), 0)
  {
    hide EngineDispatch, EngineDrain, EngineRun, TimeReached;
    var p, c, now := operation.pipeline, operation.pipeline.chain, operation.now;
    ghost var target := EngineFlush(c, now, operation.Value(), 0);
    code := 0;
    var i := 0;
    while i < |c.stages|
      invariant 0 <= i <= |c.stages| && code == 0 && operation.Value().For(c)
      invariant p.validated == old(p.validated) && p.active == old(p.active)
      invariant FlushesTo(c, now, operation.Value(), i, target)
    {
      hide EngineDispatch, EngineDrain, EngineRun, TimeReached;
      if p.deadlines[i].Some? && TimeReached(now, p.deadlines[i].value) {
        p.deadlines := p.deadlines[i := None];
        var ran := operation.CallStage(i, c.stages[i].flush(p.memory[i], now));
        code := operation.Drain(ran);
        if code < 0 {
          return;
        }
      }
      i := i + 1;
    }
  }

  // ----- deadlines -----

  /** Milliseconds until a deadline; none once it is reached. */
  function Remaining(now: uint32, deadline: uint32): uint32 {
    if TimeReached(now, deadline) then 0 else Wrap32(deadline - now)
  }

  /** Across the wrap of the clock, the time left is that between the two on it, or none. */
  lemma RemainingIs(now: uint32, deadline: uint32, origin: uint32)
    requires Offset(now, origin) < 0x8000_0000 && Offset(deadline, origin) < 0x8000_0000
    ensures Remaining(now, deadline)
         == if Offset(deadline, origin) <= Offset(now, origin) then 0 else Offset(deadline, origin) - Offset(now, origin)
  {
    hide TimeReached, Offset, Wrap32;
    TimeReachedIff(now, deadline, origin);
    LaterBy(now, deadline, origin);
  }

  lemma LaterBy(now: uint32, deadline: uint32, origin: uint32)
    ensures Offset(now, origin) <= Offset(deadline, origin) ==> Wrap32(deadline - now) == Offset(deadline, origin) - Offset(now, origin)
  {
  }

  /** Stage `i` is the first with the least time left. */
  ghost predicate Soonest(now: uint32, deadlines: seq<Option<uint32>>, i: nat) {
    && i < |deadlines| && deadlines[i].Some?
    && (forall k | 0 <= k < |deadlines| && deadlines[k].Some? ::
          Remaining(now, deadlines[i].value) <= Remaining(now, deadlines[k].value))
    && (forall k | 0 <= k < i && deadlines[k].Some? ::
          Remaining(now, deadlines[i].value) < Remaining(now, deadlines[k].value))
  }

  /** The deadline of the first stage with the least time left, if the pipeline runs and a
      deadline is pending. Within 2^31 ms of uptime it is the earliest of them, or one reached. */
  method NextDeadline(p: PipelineState, now: uint32) returns (deadline: Option<uint32>)
    requires p.Fits()
    ensures deadline.Some? <==> p.validated && p.active && exists i :: 0 <= i < |p.deadlines| && p.deadlines[i].Some?
    ensures deadline.Some? ==> exists i: nat :: Soonest(now, p.deadlines, i) && deadline == p.deadlines[i]
    ensures deadline.Some? ==> forall origin: uint32 | Near(now, p.deadlines, origin) ::
              IsNext(now, p.deadlines, origin, deadline.value)
  {
    hide TimeReached, Remaining, Near, IsNext;
    deadline := None;
    if !p.validated || !p.active {
      return;
    }
    var best: uint32 := 0xffff_ffff;
    ghost var at: nat := 0;
    for i := 0 to |p.deadlines|
      invariant deadline.Some? <==> exists k :: 0 <= k < i && p.deadlines[k].Some?
      invariant deadline.Some? ==> at < i && deadline == p.deadlines[at] && best == Remaining(now, deadline.value)
      invariant deadline.Some? ==> Soonest(now, p.deadlines[..i], at)
    {
      ghost var before := p.deadlines[..i];
      assert p.deadlines[..i + 1] == before + [p.deadlines[i]];
      if p.deadlines[i].Some? {
        var delta := Remaining(now, p.deadlines[i].value);
        if deadline.None? || delta < best {
          best, deadline, at := delta, p.deadlines[i], i;
        }
      }
    }
    if deadline.Some? {
      assert p.deadlines[..|p.deadlines|] == p.deadlines;
      assert Soonest(now, p.deadlines, at);
      forall origin: uint32 | Near(now, p.deadlines, origin) ensures IsNext(now, p.deadlines, origin, deadline.value) {
        SoonestIsNext(now, p.deadlines, at, origin);
      }
    }
  }

  /** A deadline already reached or, where none is, no later than any that is pending. */
  ghost predicate IsNext(now: uint32, deadlines: seq<Option<uint32>>, origin: uint32, deadline: uint32) {
    forall k | 0 <= k < |deadlines| && deadlines[k].Some? ::
      if Offset(deadlines[k].value, origin) <= Offset(now, origin) then Offset(deadline, origin) <= Offset(now, origin)
      else Offset(deadline, origin) <= Offset(deadlines[k].value, origin)
  }

  lemma SoonestIsNext(now: uint32, deadlines: seq<Option<uint32>>, i: nat, origin: uint32)
    requires Soonest(now, deadlines, i) && Near(now, deadlines, origin)
    ensures IsNext(now, deadlines, origin, deadlines[i].value)
  {
    hide TimeReached, Remaining, Offset;
    RemainingIs(now, deadlines[i].value, origin);
    forall k | 0 <= k < |deadlines| && deadlines[k].Some?
      ensures if Offset(deadlines[k].value, origin) <= Offset(now, origin)
              then Offset(deadlines[i].value, origin) <= Offset(now, origin)
              else Offset(deadlines[i].value, origin) <= Offset(deadlines[k].value, origin)
    {
      RemainingIs(now, deadlines[k].value, origin);
    }
  }
}
