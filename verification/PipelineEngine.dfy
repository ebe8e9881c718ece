/** The pipeline engine (src/core/pipeline.c): a slot holds one emission, which is dispatched
    when its stage emits again or returns. Compared here with dispatching each emission at once:
    exactly when the two make the same calls and end the same way.

    Stages and the sink are arbitrary. A stage call is given by what it does through the
    engine's interface, step by step, and what it leaves in its own memory. */
module PipelineEngine {
  import opened Bytes
  import opened Errno

  type Memory(!new)
  type SinkState(!new)
  type Data(!new)

  /** Zero or a negative errno. */
  type Code = c: int | c <= 0

  datatype Signal = Signal(kind: nat, data: Data)

  predicate KindValid(kind: nat) {
    0 < kind < 6
  }

  /** One call of a stage: it emits, schedules or cancels its flush, and returns. When an
      emission fails the stage stops and returns the failure, with `onFailure` in its memory. */
  datatype Script =
    | Return(memory: Memory, code: Code)
    | Emit(signal: Signal, onFailure: Memory, rest: Script)
    | Schedule(deadlineMs: uint32, accepted: Script, refused: Script)
    | Cancel(rest: Script)

  datatype StageApi = StageApi(
    accepted: set<nat>,
    output: nat,
    stateful: bool,
    hasFlush: bool,
    process: (Memory, Signal, uint32) -> Script,
    flush: (Memory, uint32) -> Script,
    activate: Option<Memory -> (Memory, Code)>,
    deactivate: Option<(Memory, uint32) -> Script>,
    reset: Option<Memory -> Memory>)

  /** A validated pipeline: its stages in order and its sink. */
  datatype Chain = Chain(
    inputKind: nat,
    stages: seq<StageApi>,
    sinkAccepted: set<nat>,
    sinkEmit: (SinkState, Signal) -> (SinkState, Code),
    sinkActivate: Option<SinkState -> (SinkState, Code)>,
    sinkDeactivate: Option<SinkState -> (SinkState, Code)>,
    sinkReset: Option<SinkState -> SinkState>,
    budget: nat)

  predicate Accepts(accepted: set<nat>, kind: nat) {
    KindValid(kind) && kind in accepted
  }

  /** What an operation changes. `calls` is every stage and sink call in order, with the
      signal it was given; `mismatch` says a signal met a stage or sink that doesn't take it. */
  datatype World = World(
    memory: seq<Memory>,
    deadlines: seq<Option<uint32>>,
    sink: SinkState,
    remaining: nat,
    dispatches: nat,
    outputs: nat,
    calls: seq<(nat, Signal)>,
    mismatch: bool)
  {
    ghost predicate For(c: Chain) {
      |memory| == |deadlines| == |c.stages|
    }

    ghost function Put(i: nat, m: Memory): World
      requires i < |memory|
    {
      this.(memory := memory[i := m])
    }

    /** Another memory and deadline for one stage. */
    ghost function Set(i: nat, m: Memory, deadline: Option<uint32>): World
      requires i < |memory| && i < |deadlines|
    {
      this.(memory := memory[i := m], deadlines := deadlines[i := deadline])
    }

    ghost function PutDeadline(i: nat, deadline: Option<uint32>): World
      requires i < |deadlines|
    {
      this.(deadlines := deadlines[i := deadline])
    }
  }

  datatype Outcome = Outcome(world: World, code: Code)

  /** Charge one dispatch. */
  ghost function Charge(w: World): World
    requires w.remaining > 0
  {
    w.(remaining := w.remaining - 1, dispatches := w.dispatches + 1)
  }

  /** Hand a signal to the sink. */
  ghost function Sink(c: Chain, w: World, signal: Signal): Outcome {
    if !Accepts(c.sinkAccepted, signal.kind) then Outcome(w.(mismatch := true), EPROTOTYPE)
    else
      var (sink, code) := c.sinkEmit(w.sink, signal);
      Outcome(w.(sink := sink, calls := w.calls + [(|c.stages|, signal)],
                 outputs := w.outputs + if code == 0 then 1 else 0), code)
  }

  ghost function Called(w: World, i: nat, signal: Signal): World {
    w.(calls := w.calls + [(i, signal)])
  }

  predicate CanFlush(api: StageApi) {
    api.stateful && api.hasFlush
  }

  // ----- plain nested calls -----

  /** Dispatch to stage `i`, or to the sink after the last, every emission at once. */
  ghost function Dispatch(c: Chain, now: uint32, w: World, i: nat, signal: Signal): (o: Outcome)
    requires w.For(c) && i <= |c.stages|
    ensures o.world.For(c) && o.world.remaining <= w.remaining && w.calls <= o.world.calls
    decreases w.remaining, 0
  {
    if w.remaining == 0 then Outcome(w, E2BIG)
    else if i == |c.stages| then Sink(c, Charge(w), signal)
    else if !Accepts(c.stages[i].accepted, signal.kind) then Outcome(Charge(w).(mismatch := true), EPROTOTYPE)
    else Run(c, now, Called(Charge(w), i, signal), i, c.stages[i].process(w.memory[i], signal, now))
  }

  /** Run the rest of a call of stage `i`. */
  ghost function Run(c: Chain, now: uint32, w: World, i: nat, script: Script): (o: Outcome)
    requires w.For(c) && i < |c.stages|
    ensures o.world.For(c) && o.world.remaining <= w.remaining && w.calls <= o.world.calls
    decreases w.remaining, 1, script
  {
    match script
    case Return(memory, code) => Outcome(w.Put(i, memory), code)
    case Emit(signal, onFailure, rest) =>
      if signal.kind != c.stages[i].output then Outcome(w.Put(i, onFailure), EPROTOTYPE)
      else
        var o := Dispatch(c, now, w, i + 1, signal);
        if o.code < 0 then Outcome(o.world.Put(i, onFailure), o.code) else Run(c, now, o.world, i, rest)
    case Schedule(deadline, accepted, refused) =>
      if CanFlush(c.stages[i]) then Run(c, now, w.PutDeadline(i, Some(deadline)), i, accepted)
      else Run(c, now, w, i, refused)
    case Cancel(rest) => Run(c, now, w.PutDeadline(i, None), i, rest)
  }

  // ----- the engine, with one held emission -----

  datatype Held = Held(index: nat, signal: Signal)

  datatype Engine = Engine(world: World, held: Option<Held>) {
    ghost predicate For(c: Chain) {
      world.For(c) && (held.Some? ==> held.value.index <= |c.stages|)
    }
  }

  datatype EngineOutcome = EngineOutcome(engine: Engine, code: Code)

  ghost function EngineDispatch(c: Chain, now: uint32, e: Engine, i: nat, signal: Signal): (o: EngineOutcome)
    requires e.For(c) && i <= |c.stages|
    ensures o.engine.For(c) && o.engine.world.remaining <= e.world.remaining
    ensures o.code == 0 ==> o.engine.world.remaining < e.world.remaining
    decreases e.world.remaining, 0
  {
    if e.world.remaining == 0 then EngineOutcome(e, E2BIG)
    else
      var charged := Charge(e.world);
      if i == |c.stages| then
        var o := Sink(c, charged, signal);
        EngineOutcome(e.(world := o.world), o.code)
      else if !Accepts(c.stages[i].accepted, signal.kind) then
        EngineOutcome(e.(world := charged.(mismatch := true)), EPROTOTYPE)
      else EngineRun(c, now, e.(world := Called(charged, i, signal)), i, c.stages[i].process(charged.memory[i], signal, now))
  }

  /** After a call that returned `code`: empty the slot, again and again while stages refill it.
      A failure drops what is in it. */
  ghost function EngineDrain(c: Chain, now: uint32, e: Engine, code: Code): (o: EngineOutcome)
    requires e.For(c)
    ensures o.engine.For(c) && o.engine.held.None? && o.engine.world.remaining <= e.world.remaining
    decreases e.world.remaining, 1
  {
    if code == 0 && e.held.Some? then
      var o := EngineDispatch(c, now, e.(held := None), e.held.value.index, e.held.value.signal);
      if o.code == 0 then EngineDrain(c, now, o.engine, 0) else EngineOutcome(o.engine.(held := None), o.code)
    else EngineOutcome(e.(held := None), code)
  }

  /** Hold an emission of stage `i`; an earlier one is dispatched first. */
  ghost function EngineEmit(c: Chain, now: uint32, e: Engine, i: nat, signal: Signal): (o: EngineOutcome)
    requires e.For(c) && i < |c.stages|
    ensures o.engine.For(c) && o.engine.world.remaining <= e.world.remaining
    decreases e.world.remaining, 2
  {
    if signal.kind != c.stages[i].output then EngineOutcome(e, EPROTOTYPE)
    else
      var o := EngineDrain(c, now, e, 0);
      if o.code < 0 then o else EngineOutcome(o.engine.(held := Some(Held(i + 1, signal))), 0)
  }

  ghost function EngineRun(c: Chain, now: uint32, e: Engine, i: nat, script: Script): (o: EngineOutcome)
    requires e.For(c) && i < |c.stages|
    ensures o.engine.For(c) && o.engine.world.remaining <= e.world.remaining
    decreases e.world.remaining, 3, script
  {
    match script
    case Return(memory, code) => EngineOutcome(e.(world := e.world.Put(i, memory)), code)
    case Emit(signal, onFailure, rest) =>
      var o := EngineEmit(c, now, e, i, signal);
      if o.code < 0 then EngineOutcome(o.engine.(world := o.engine.world.Put(i, onFailure)), o.code)
      else EngineRun(c, now, o.engine, i, rest)
    case Schedule(deadline, accepted, refused) =>
      if CanFlush(c.stages[i]) then EngineRun(c, now, e.(world := e.world.PutDeadline(i, Some(deadline))), i, accepted)
      else EngineRun(c, now, e, i, refused)
    case Cancel(rest) => EngineRun(c, now, e.(world := e.world.PutDeadline(i, None)), i, rest)
  }

  // ----- a call leaves the stages before it alone -----

  /** Changing a stage before the one called changes nothing else. */
  ghost predicate Frames(o: Outcome, o': Outcome, w: World, j: nat, m: Memory, deadline: Option<uint32>) {
    && |o.world.memory| == |o.world.deadlines| == |w.memory| == |w.deadlines| && j < |w.memory|
    && o.world.memory[j] == w.memory[j] && o.world.deadlines[j] == w.deadlines[j]
    && o' == Outcome(o.world.Set(j, m, deadline), o.code)
  }

  lemma {:induction false} DispatchFrames(c: Chain, now: uint32, w: World, i: nat, signal: Signal,
                                          j: nat, m: Memory, deadline: Option<uint32>)
    requires w.For(c) && j < i <= |c.stages|
    ensures Frames(Dispatch(c, now, w, i, signal), Dispatch(c, now, w.Set(j, m, deadline), i, signal), w, j, m, deadline)
    decreases w.remaining, 0
  {
    hide Run, Accepts;
    if w.remaining > 0 && i < |c.stages| && Accepts(c.stages[i].accepted, signal.kind) {
      var script := c.stages[i].process(w.memory[i], signal, now);
      RunFrames(c, now, Called(Charge(w), i, signal), i, script, j, m, deadline);
    }
  }

  lemma {:induction false} RunFrames(c: Chain, now: uint32, w: World, i: nat, script: Script,
                                     j: nat, m: Memory, deadline: Option<uint32>)
    requires w.For(c) && j < i < |c.stages|
    ensures Frames(Run(c, now, w, i, script), Run(c, now, w.Set(j, m, deadline), i, script), w, j, m, deadline)
    decreases w.remaining, 1, script
  {
    hide Dispatch, CanFlush;
    match script
    case Return(_, _) =>
      SetPut(w, i, j, script.memory, m, deadline);
    case Emit(signal, onFailure, rest) =>
      if signal.kind != c.stages[i].output {
        SetPut(w, i, j, onFailure, m, deadline);
      } else {
        DispatchFrames(c, now, w, i + 1, signal, j, m, deadline);
        var o := Dispatch(c, now, w, i + 1, signal);
        if o.code < 0 {
          SetPut(o.world, i, j, onFailure, m, deadline);
        } else {
          RunFrames(c, now, o.world, i, rest, j, m, deadline);
        }
      }
    case Schedule(at, accepted, refused) =>
      if CanFlush(c.stages[i]) {
        SetPutDeadline(w, i, j, Some(at), m, deadline);
        RunFrames(c, now, w.PutDeadline(i, Some(at)), i, accepted, j, m, deadline);
      } else {
        RunFrames(c, now, w, i, refused, j, m, deadline);
      }
    case Cancel(rest) =>
      SetPutDeadline(w, i, j, None, m, deadline);
      RunFrames(c, now, w.PutDeadline(i, None), i, rest, j, m, deadline);
  }

  lemma SetPut(w: World, i: nat, j: nat, mine: Memory, m: Memory, deadline: Option<uint32>)
    requires j < i < |w.memory| && |w.memory| == |w.deadlines|
    ensures w.Set(j, m, deadline).Put(i, mine) == w.Put(i, mine).Set(j, m, deadline)
  {
  }

  lemma SetPutDeadline(w: World, i: nat, j: nat, mine: Option<uint32>, m: Memory, deadline: Option<uint32>)
    requires j < i < |w.memory| && |w.memory| == |w.deadlines|
    ensures w.Set(j, m, deadline).PutDeadline(i, mine) == w.PutDeadline(i, mine).Set(j, m, deadline)
  {
  }

  /** A stage may set its own memory or deadline before or after a call further down. */
  lemma PutCommutes(c: Chain, now: uint32, w: World, i: nat, signal: Signal, m: Memory, deadline: Option<uint32>)
    requires w.For(c) && i < |c.stages|
    ensures var o := Dispatch(c, now, w, i + 1, signal);
            && Dispatch(c, now, w.Put(i, m), i + 1, signal) == Outcome(o.world.Put(i, m), o.code)
            && Dispatch(c, now, w.PutDeadline(i, deadline), i + 1, signal) == Outcome(o.world.PutDeadline(i, deadline), o.code)
  {
    hide Dispatch;
    var o := Dispatch(c, now, w, i + 1, signal);
    DispatchFrames(c, now, w, i + 1, signal, i, m, w.deadlines[i]);
    assert w.Set(i, m, w.deadlines[i]) == w.Put(i, m);
    assert o.world.Set(i, m, w.deadlines[i]) == o.world.Put(i, m);
    DispatchFrames(c, now, w, i + 1, signal, i, w.memory[i], deadline);
    assert w.Set(i, w.memory[i], deadline) == w.PutDeadline(i, deadline);
    assert o.world.Set(i, w.memory[i], deadline) == o.world.PutDeadline(i, deadline);
  }

  // ----- the engine refines nested calls -----

  /** What an operation shows outside: every call in order with its signal, the sink, the
      counts and the result. A failed operation may leave other memory behind, because a stage
      hears of a failure at its next emission rather than at once. */
  ghost predicate Same(a: Outcome, b: Outcome) {
    && a.code == b.code
    && (a.code == 0 ==> a.world == b.world)
    && a.world.calls == b.world.calls && a.world.sink == b.world.sink && a.world.mismatch == b.world.mismatch
    && a.world.remaining == b.world.remaining && a.world.dispatches == b.world.dispatches
    && a.world.outputs == b.world.outputs
  }

  /** What a held emission still comes to, by nested calls. */
  ghost function Settle(c: Chain, now: uint32, e: Engine, code: Code): (o: Outcome)
    requires e.For(c)
    ensures o.world.For(c)
  {
    if code == 0 && e.held.Some? then Dispatch(c, now, e.world, e.held.value.index, e.held.value.signal)
    else Outcome(e.world, code)
  }

  /** The held emission first, then the rest of the call. */
  ghost function SettleThenRun(c: Chain, now: uint32, e: Engine, i: nat, script: Script): (o: Outcome)
    requires e.For(c) && i < |c.stages|
  {
    var o := Settle(c, now, e, 0);
    if o.code < 0 then o else Run(c, now, o.world, i, script)
  }

  /** A held emission is always the running stage's own, bound for the next one. */
  ghost predicate Own(e: Engine, i: nat) {
    e.held.Some? ==> e.held.value.index == i + 1
  }

  // ----- where a held emission is lost -----

  /** A stage loses the emission it holds when, meanwhile, it fails by itself or emits a signal
      of another kind: the engine hears of the failure before it has dispatched what is held.
      With nothing left to dispatch, a failure for the budget is what nested calls return too. */
  ghost predicate ReturnLoses(e: Engine, code: Code) {
    e.held.Some? && code < 0 && (e.world.remaining > 0 || code != E2BIG)
  }

  /** Somewhere in this dispatch a stage loses the emission it holds. */
  ghost predicate DispatchLoses(c: Chain, now: uint32, e: Engine, i: nat, signal: Signal)
    requires e.For(c) && i <= |c.stages|
    decreases e.world.remaining, 0
  {
    && e.world.remaining > 0 && i < |c.stages| && Accepts(c.stages[i].accepted, signal.kind)
    && RunLoses(c, now, e.(world := Called(Charge(e.world), i, signal)), i,
                c.stages[i].process(e.world.memory[i], signal, now))
  }

  ghost predicate DrainLoses(c: Chain, now: uint32, e: Engine, code: Code)
    requires e.For(c)
    decreases e.world.remaining, 1
  {
    && code == 0 && e.held.Some?
    && var next := e.(held := None);
       var o := EngineDispatch(c, now, next, e.held.value.index, e.held.value.signal);
       || DispatchLoses(c, now, next, e.held.value.index, e.held.value.signal)
       || (o.code == 0 && DrainLoses(c, now, o.engine, 0))
  }

  ghost predicate RunLoses(c: Chain, now: uint32, e: Engine, i: nat, script: Script)
    requires e.For(c) && i < |c.stages|
    decreases e.world.remaining, 3, script
  {
    match script
    case Return(_, code) => ReturnLoses(e, code)
    case Emit(signal, _, rest) =>
      if signal.kind != c.stages[i].output then e.held.Some?
      else
        var o := EngineDrain(c, now, e, 0);
        || DrainLoses(c, now, e, 0)
        || (o.code == 0 && RunLoses(c, now, o.engine.(held := Some(Held(i + 1, signal))), i, rest))
    case Schedule(deadline, accepted, refused) =>
      if CanFlush(c.stages[i]) then RunLoses(c, now, e.(world := e.world.PutDeadline(i, Some(deadline))), i, accepted)
      else RunLoses(c, now, e, i, refused)
    case Cancel(rest) => RunLoses(c, now, e.(world := e.world.PutDeadline(i, None)), i, rest)
  }

  /** Both failed, but nested calls went on to dispatch more, or failed for another reason. */
  ghost predicate Apart(engine: Outcome, nested: Outcome) {
    && engine.code < 0 && nested.code < 0 && nested.world.remaining <= engine.world.remaining
    && (nested.world.remaining < engine.world.remaining || nested.code != engine.code)
    && engine.world.calls <= nested.world.calls
  }

  /** The engine did what nested calls do, unless an emission was lost. */
  ghost predicate Matches(loses: bool, engine: Outcome, nested: Outcome) {
    if loses then Apart(engine, nested) else Same(engine, nested)
  }

  lemma MatchesIff(loses: bool, engine: Outcome, nested: Outcome)
    requires Matches(loses, engine, nested)
    ensures Same(engine, nested) <==> !loses
    ensures loses ==> Apart(engine, nested)
  {
  }

  /** What matches nested calls that end the same way matches those too. */
  lemma MatchesThrough(loses: bool, a: Outcome, b: Outcome, d: Outcome)
    requires Matches(loses, a, b) && Same(b, d)
    ensures Matches(loses, a, d)
  {
  }

  ghost predicate DispatchAgrees(c: Chain, now: uint32, e: Engine, i: nat, signal: Signal)
    requires e.For(c) && i <= |c.stages|
  {
    var o := EngineDispatch(c, now, e, i, signal);
    && Own(o.engine, i) && (DispatchLoses(c, now, e, i, signal) ==> o.code < 0)
    && Matches(DispatchLoses(c, now, e, i, signal), Settle(c, now, o.engine, o.code), Dispatch(c, now, e.world, i, signal))
  }

  ghost predicate DrainAgrees(c: Chain, now: uint32, e: Engine, code: Code)
    requires e.For(c)
  {
    var o := EngineDrain(c, now, e, code);
    Matches(DrainLoses(c, now, e, code), Outcome(o.engine.world, o.code), Settle(c, now, e, code))
  }

  ghost predicate RunAgrees(c: Chain, now: uint32, e: Engine, i: nat, script: Script)
    requires e.For(c) && i < |c.stages|
  {
    var o := EngineRun(c, now, e, i, script);
    && Own(o.engine, i) && (RunLoses(c, now, e, i, script) ==> o.code < 0)
    && Matches(RunLoses(c, now, e, i, script), Settle(c, now, o.engine, o.code), SettleThenRun(c, now, e, i, script))
  }

  /** One dispatch, whatever the stages do: what nested calls do, unless an emission is lost. */
  lemma {:induction false} DispatchRefines(c: Chain, now: uint32, e: Engine, i: nat, signal: Signal)
    requires e.For(c) && e.held.None? && i <= |c.stages|
    ensures DispatchAgrees(c, now, e, i, signal)
    decreases e.world.remaining, 0
  {
    hide EngineRun, Run, Accepts, Sink, RunLoses;
    if e.world.remaining > 0 && i < |c.stages| && Accepts(c.stages[i].accepted, signal.kind) {
      RunRefines(c, now, e.(world := Called(Charge(e.world), i, signal)), i,
                 c.stages[i].process(e.world.memory[i], signal, now));
    }
  }

  lemma {:induction false} DrainRefines(c: Chain, now: uint32, e: Engine, code: Code)
    requires e.For(c)
    ensures DrainAgrees(c, now, e, code)
    decreases e.world.remaining, 1
  {
    hide EngineDispatch, Dispatch, DispatchLoses;
    if code == 0 && e.held.Some? {
      DispatchRefines(c, now, e.(held := None), e.held.value.index, e.held.value.signal);
      var o := EngineDispatch(c, now, e.(held := None), e.held.value.index, e.held.value.signal);
      if o.code == 0 {
        DrainRefines(c, now, o.engine, 0);
        var drained := EngineDrain(c, now, o.engine, 0);
        MatchesThrough(DrainLoses(c, now, o.engine, 0), Outcome(drained.engine.world, drained.code),
                       Settle(c, now, o.engine, 0), Settle(c, now, e, 0));
      }
    }
  }

  lemma {:induction false} RunRefines(c: Chain, now: uint32, e: Engine, i: nat, script: Script)
    requires e.For(c) && i < |c.stages| && Own(e, i)
    ensures RunAgrees(c, now, e, i, script)
    decreases e.world.remaining, 2, script, 0
  {
    hide Same, Apart;
    match script
    case Return(memory, code) => ReturnAgrees(c, now, e, i, script);
    case Emit(signal, onFailure, rest) => EmitAgrees(c, now, e, i, script);
    case Schedule(deadline, accepted, refused) =>
      if CanFlush(c.stages[i]) {
        DeadlineAgrees(c, now, e, i, script, Some(deadline), accepted);
      } else {
        RunRefines(c, now, e, i, refused);
        RefusedAgrees(c, now, e, i, script);
      }
    case Cancel(rest) => DeadlineAgrees(c, now, e, i, script, None, rest);
  }

  /** The rest of any call of any stage, whatever it holds of its own: what nested calls do, if and
      only if no stage loses the emission it holds. */
  lemma RunExact(c: Chain, now: uint32, e: Engine, i: nat, script: Script)
    requires e.For(c) && i < |c.stages| && Own(e, i)
    ensures var o := EngineRun(c, now, e, i, script);
            && Own(o.engine, i)
            && (Same(Settle(c, now, o.engine, o.code), SettleThenRun(c, now, e, i, script)) <==> !RunLoses(c, now, e, i, script))
            && (RunLoses(c, now, e, i, script) ==>
                  Apart(Settle(c, now, o.engine, o.code), SettleThenRun(c, now, e, i, script)))
  {
    hide EngineRun, Settle, SettleThenRun, RunLoses, Same;
    RunRefines(c, now, e, i, script);
    var o := EngineRun(c, now, e, i, script);
    MatchesIff(RunLoses(c, now, e, i, script), Settle(c, now, o.engine, o.code), SettleThenRun(c, now, e, i, script));
  }

  /** What is held takes a dispatch, if one is left. */
  lemma SettleCharges(c: Chain, now: uint32, e: Engine)
    requires e.For(c) && e.held.Some?
    ensures var o := Settle(c, now, e, 0);
            if e.world.remaining == 0 then o == Outcome(e.world, E2BIG) else o.world.remaining < e.world.remaining
  {
    hide Run, Sink, Accepts;
    SinkCharges(c, e);
  }

  lemma SinkCharges(c: Chain, e: Engine)
    requires e.For(c) && e.held.Some?
    ensures e.world.remaining > 0 ==>
              Sink(c, Charge(e.world), e.held.value.signal).world.remaining == e.world.remaining - 1
  {
  }

  lemma ReturnAgrees(c: Chain, now: uint32, e: Engine, i: nat, script: Script)
    requires e.For(c) && i < |c.stages| && Own(e, i) && script.Return?
    ensures RunAgrees(c, now, e, i, script)
  {
    hide Dispatch;
    if e.held.Some? {
      PutCommutes(c, now, e.world, i, e.held.value.signal, script.memory, None);
      SettleCharges(c, now, e);
    }
  }

  lemma RefusedAgrees(c: Chain, now: uint32, e: Engine, i: nat, script: Script)
    requires e.For(c) && i < |c.stages| && script.Schedule? && !CanFlush(c.stages[i])
    requires RunAgrees(c, now, e, i, script.refused)
    ensures RunAgrees(c, now, e, i, script)
  {
    hide Dispatch, Same, Apart;
  }

  lemma {:induction false} DeadlineAgrees(c: Chain, now: uint32, e: Engine, i: nat, script: Script,
                                          deadline: Option<uint32>, rest: Script)
    requires e.For(c) && i < |c.stages| && Own(e, i)
    requires (script.Schedule? && CanFlush(c.stages[i]) && deadline == Some(script.deadlineMs) && rest == script.accepted)
             || (script.Cancel? && deadline.None? && rest == script.rest)
    ensures RunAgrees(c, now, e, i, script)
    decreases e.world.remaining, 2, rest, 1
  {
    hide Dispatch, DrainLoses;
    var e' := e.(world := e.world.PutDeadline(i, deadline));
    RunRefines(c, now, e', i, rest);
    if e.held.Some? {
      PutCommutes(c, now, e.world, i, e.held.value.signal, e.world.memory[i], deadline);
    }
  }

  lemma {:induction false} EmitAgrees(c: Chain, now: uint32, e: Engine, i: nat, script: Script)
    requires e.For(c) && i < |c.stages| && Own(e, i) && script.Emit?
    ensures RunAgrees(c, now, e, i, script)
    decreases e.world.remaining, 2, script.rest, 1
  {
    hide Dispatch, EngineDrain, DrainLoses, DrainAgrees, RunAgrees;
    if script.signal.kind != c.stages[i].output {
      WrongKindAgrees(c, now, e, i, script);
    } else {
      DrainRefines(c, now, e, 0);
      var o := EngineDrain(c, now, e, 0);
      if o.code == 0 {
        RunRefines(c, now, o.engine.(held := Some(Held(i + 1, script.signal))), i, script.rest);
        EmitGoesOn(c, now, e, i, script);
      } else {
        EmitFails(c, now, e, i, script);
      }
    }
  }

  /** What was held is out, and the stage goes on with the new emission held. */
  lemma EmitGoesOn(c: Chain, now: uint32, e: Engine, i: nat, script: Script)
    requires e.For(c) && i < |c.stages| && Own(e, i) && script.Emit? && script.signal.kind == c.stages[i].output
    requires DrainAgrees(c, now, e, 0) && EngineDrain(c, now, e, 0).code == 0
    requires RunAgrees(c, now, EngineDrain(c, now, e, 0).engine.(held := Some(Held(i + 1, script.signal))), i, script.rest)
    ensures RunAgrees(c, now, e, i, script)
  {
    hide Dispatch, EngineDrain, DrainLoses;
    var o := EngineDrain(c, now, e, 0);
    var e' := o.engine.(held := Some(Held(i + 1, script.signal)));
    assert EngineRun(c, now, e, i, script) == EngineRun(c, now, e', i, script.rest);
    assert Settle(c, now, e, 0) == Outcome(o.engine.world, 0);
    assert Same(SettleThenRun(c, now, e', i, script.rest), SettleThenRun(c, now, e, i, script));
    var ran := EngineRun(c, now, e', i, script.rest);
    MatchesThrough(RunLoses(c, now, e', i, script.rest), Settle(c, now, ran.engine, ran.code),
                   SettleThenRun(c, now, e', i, script.rest), SettleThenRun(c, now, e, i, script));
  }

  /** What was held failed downstream, and the stage stops. */
  lemma EmitFails(c: Chain, now: uint32, e: Engine, i: nat, script: Script)
    requires e.For(c) && i < |c.stages| && Own(e, i) && script.Emit? && script.signal.kind == c.stages[i].output
    requires DrainAgrees(c, now, e, 0) && EngineDrain(c, now, e, 0).code < 0
    ensures RunAgrees(c, now, e, i, script)
  {
    hide Dispatch, EngineDrain, DrainLoses, Matches, Settle;
    var o := EngineDrain(c, now, e, 0);
    var failed := o.engine.(world := o.engine.world.Put(i, script.onFailure));
    assert EngineRun(c, now, e, i, script) == EngineOutcome(failed, o.code);
    var loses, settled := DrainLoses(c, now, e, 0), Settle(c, now, e, 0);
    FailedMatches(loses, Outcome(o.engine.world, o.code), Outcome(failed.world, o.code), settled);
    FailedSettles(c, now, failed, o.code);
    assert SettleThenRun(c, now, e, i, script) == settled;
    assert RunLoses(c, now, e, i, script) == loses;
  }

  lemma FailedSettles(c: Chain, now: uint32, e: Engine, code: Code)
    requires e.For(c) && code < 0
    ensures Settle(c, now, e, code) == Outcome(e.world, code)
  {
    hide Dispatch;
  }

  /** After a failure memory does not count. */
  lemma FailedMatches(loses: bool, a: Outcome, a': Outcome, b: Outcome)
    requires Matches(loses, a, b) && a.code < 0 && a'.code == a.code && a'.world == a.world.(memory := a'.world.memory)
    ensures Matches(loses, a', b) && b.code < 0
  {
  }

  lemma WrongKindAgrees(c: Chain, now: uint32, e: Engine, i: nat, script: Script)
    requires e.For(c) && i < |c.stages| && Own(e, i) && script.Emit? && script.signal.kind != c.stages[i].output
    ensures RunAgrees(c, now, e, i, script)
  {
    hide Dispatch;
    assert EngineRun(c, now, e, i, script) == EngineOutcome(e.(world := e.world.Put(i, script.onFailure)), EPROTOTYPE);
    if e.held.Some? {
      SettleCharges(c, now, e);
    }
  }

  // ----- whole operations -----

  ghost function Begin(c: Chain, memory: seq<Memory>, deadlines: seq<Option<uint32>>, sink: SinkState): World {
    World(memory, deadlines, sink, c.budget, 0, 0, [], false)
  }

  /** In this push a stage loses the emission it holds. */
  ghost predicate PushLoses(c: Chain, now: uint32, w: World, signal: Signal)
    requires w.For(c)
  {
    var first := EngineDispatch(c, now, Engine(w, None), 0, signal);
    DispatchLoses(c, now, Engine(w, None), 0, signal) || DrainLoses(c, now, first.engine, first.code)
  }

  /** A push behaves as nested calls from the first stage on, if and only if no stage loses the
      emission it holds; whatever the stages, the sink, and the budget. */
  lemma PushExact(c: Chain, now: uint32, w: World, signal: Signal)
    requires w.For(c)
    ensures var first := EngineDispatch(c, now, Engine(w, None), 0, signal);
            var o := EngineDrain(c, now, first.engine, first.code);
            && o.engine.held.None?
            && (Same(Outcome(o.engine.world, o.code), Dispatch(c, now, w, 0, signal)) <==> !PushLoses(c, now, w, signal))
            && (PushLoses(c, now, w, signal) ==> Apart(Outcome(o.engine.world, o.code), Dispatch(c, now, w, 0, signal)))
  {
    hide Dispatch, EngineDispatch, EngineDrain, DispatchLoses, DrainLoses;
    var first := EngineDispatch(c, now, Engine(w, None), 0, signal);
    DispatchRefines(c, now, Engine(w, None), 0, signal);
    DrainRefines(c, now, first.engine, first.code);
    DrainStops(c, now, first.engine, first.code);
    if first.code == 0 {
      var o := EngineDrain(c, now, first.engine, 0);
      MatchesThrough(DrainLoses(c, now, first.engine, 0), Outcome(o.engine.world, o.code),
                     Settle(c, now, first.engine, 0), Dispatch(c, now, w, 0, signal));
    }
  }

  lemma DrainStops(c: Chain, now: uint32, e: Engine, code: Code)
    requires e.For(c)
    ensures code < 0 ==> EngineDrain(c, now, e, code) == EngineOutcome(e.(held := None), code) && !DrainLoses(c, now, e, code)
  {
    hide EngineDispatch, DispatchLoses;
  }

  predicate TimeReached(now: uint32, deadline: uint32) {
    Since(now, deadline) >= 0
  }

  ghost predicate Due(w: World, i: nat, now: uint32) {
    i < |w.deadlines| && w.deadlines[i].Some? && TimeReached(now, w.deadlines[i].value)
  }

  /** Flush the stages from `i` on whose deadline is due, by nested calls, up to a failure. */
  ghost function Flush(c: Chain, now: uint32, w: World, i: nat): (o: Outcome)
    requires w.For(c) && i <= |c.stages|
    ensures o.world.For(c)
    decreases |c.stages| - i
  {
    if i == |c.stages| then Outcome(w, 0)
    else if !Due(w, i, now) then Flush(c, now, w, i + 1)
    else
      var o := Run(c, now, w.PutDeadline(i, None), i, c.stages[i].flush(w.memory[i], now));
      if o.code < 0 then o else Flush(c, now, o.world, i + 1)
  }

  ghost function EngineFlush(c: Chain, now: uint32, e: Engine, i: nat): (o: EngineOutcome)
    requires e.For(c) && i <= |c.stages|
    ensures o.engine.For(c)
    decreases |c.stages| - i
  {
    if i == |c.stages| then EngineOutcome(e, 0)
    else if !Due(e.world, i, now) then EngineFlush(c, now, e, i + 1)
    else
      var cleared := e.(world := e.world.PutDeadline(i, None));
      var ran := EngineRun(c, now, cleared, i, c.stages[i].flush(e.world.memory[i], now));
      var o := EngineDrain(c, now, ran.engine, ran.code);
      if o.code < 0 then o else EngineFlush(c, now, o.engine, i + 1)
  }

  /** In this flush a stage loses the emission it holds. */
  ghost predicate FlushLoses(c: Chain, now: uint32, e: Engine, i: nat)
    requires e.For(c) && i <= |c.stages|
    decreases |c.stages| - i
  {
    i < |c.stages| &&
    if !Due(e.world, i, now) then FlushLoses(c, now, e, i + 1)
    else
      var cleared := e.(world := e.world.PutDeadline(i, None));
      var script := c.stages[i].flush(e.world.memory[i], now);
      var ran := EngineRun(c, now, cleared, i, script);
      var o := EngineDrain(c, now, ran.engine, ran.code);
      || RunLoses(c, now, cleared, i, script) || DrainLoses(c, now, ran.engine, ran.code)
      || (o.code == 0 && FlushLoses(c, now, o.engine, i + 1))
  }

  ghost predicate FlushAgrees(c: Chain, now: uint32, w: World, i: nat)
    requires w.For(c) && i <= |c.stages|
  {
    var o := EngineFlush(c, now, Engine(w, None), i);
    && o.engine.held.None?
    && Matches(FlushLoses(c, now, Engine(w, None), i), Outcome(o.engine.world, o.code), Flush(c, now, w, i))
  }

  /** A call of a stage that holds nothing yet, and what it leaves held. */
  lemma CallMatches(c: Chain, now: uint32, e: Engine, i: nat, script: Script)
    requires e.For(c) && i < |c.stages| && e.held.None?
    ensures var ran := EngineRun(c, now, e, i, script);
            var o := EngineDrain(c, now, ran.engine, ran.code);
            && o.engine.held.None?
            && Matches(RunLoses(c, now, e, i, script) || DrainLoses(c, now, ran.engine, ran.code),
                       Outcome(o.engine.world, o.code), Run(c, now, e.world, i, script))
  {
    hide Dispatch, Run, EngineRun, EngineDrain, RunLoses, DrainLoses;
    RunRefines(c, now, e, i, script);
    var ran := EngineRun(c, now, e, i, script);
    DrainRefines(c, now, ran.engine, ran.code);
    DrainStops(c, now, ran.engine, ran.code);
    if ran.code == 0 {
      var o := EngineDrain(c, now, ran.engine, 0);
      MatchesThrough(DrainLoses(c, now, ran.engine, 0), Outcome(o.engine.world, o.code),
                     Settle(c, now, ran.engine, 0), Run(c, now, e.world, i, script));
    }
  }

  lemma {:induction false} FlushMatches(c: Chain, now: uint32, w: World, i: nat)
    requires w.For(c) && i <= |c.stages|
    ensures FlushAgrees(c, now, w, i)
    decreases |c.stages| - i
  {
    hide Run, EngineRun, EngineDrain, TimeReached, Dispatch, RunLoses, DrainLoses;
    if i < |c.stages| {
      if !Due(w, i, now) {
        FlushMatches(c, now, w, i + 1);
      } else {
        var e := Engine(w.PutDeadline(i, None), None);
        var script := c.stages[i].flush(w.memory[i], now);
        CallMatches(c, now, e, i, script);
        var ran := EngineRun(c, now, e, i, script);
        var o := EngineDrain(c, now, ran.engine, ran.code);
        if o.code == 0 {
          FlushMatches(c, now, o.engine.world, i + 1);
        }
      }
    }
  }

  /** A flush behaves as nested calls of the stages whose deadline is due, if and only if no
      stage loses the emission it holds. */
  lemma FlushExact(c: Chain, now: uint32, w: World, i: nat)
    requires w.For(c) && i <= |c.stages|
    ensures var o := EngineFlush(c, now, Engine(w, None), i);
            && o.engine.held.None?
            && (Same(Outcome(o.engine.world, o.code), Flush(c, now, w, i)) <==> !FlushLoses(c, now, Engine(w, None), i))
            && (FlushLoses(c, now, Engine(w, None), i) ==> Apart(Outcome(o.engine.world, o.code), Flush(c, now, w, i)))
  {
    hide EngineFlush, Flush, FlushLoses;
    FlushMatches(c, now, w, i);
  }

  // ----- stages that keep the contract lose nothing -----

  /** The stage keeps its side of the contract for the rest of a call: while an emission is
      held it neither emits a signal of another kind than its output nor returns a failure of
      its own. */
  ghost predicate Honest(script: Script, api: StageApi, held: bool) {
    match script
    case Return(_, code) => held ==> code == 0
    case Emit(signal, _, rest) => if signal.kind == api.output then Honest(rest, api, true) else !held
    case Schedule(_, accepted, refused) => Honest(if CanFlush(api) then accepted else refused, api, held)
    case Cancel(rest) => Honest(rest, api, held)
  }

  ghost predicate HonestChain(c: Chain) {
    && (forall i, m, signal, now | 0 <= i < |c.stages| :: Honest(c.stages[i].process(m, signal, now), c.stages[i], false))
    && (forall i, m, now | 0 <= i < |c.stages| :: Honest(c.stages[i].flush(m, now), c.stages[i], false))
  }

  lemma HonestProcess(c: Chain, i: nat, m: Memory, signal: Signal, now: uint32)
    requires HonestChain(c) && i < |c.stages|
    ensures Honest(c.stages[i].process(m, signal, now), c.stages[i], false)
  {
    hide Honest;
  }

  lemma {:induction false} DispatchKeepsHeld(c: Chain, now: uint32, e: Engine, i: nat, signal: Signal)
    requires HonestChain(c) && e.For(c) && i <= |c.stages| && e.held.None?
    ensures !DispatchLoses(c, now, e, i, signal)
    decreases e.world.remaining, 0
  {
    hide RunLoses, HonestChain, Honest, Accepts;
    if e.world.remaining > 0 && i < |c.stages| && Accepts(c.stages[i].accepted, signal.kind) {
      var called := e.(world := Called(Charge(e.world), i, signal));
      HonestProcess(c, i, e.world.memory[i], signal, now);
      RunKeepsHeld(c, now, called, i, c.stages[i].process(e.world.memory[i], signal, now));
    }
  }

  lemma {:induction false} DrainKeepsHeld(c: Chain, now: uint32, e: Engine, code: Code)
    requires HonestChain(c) && e.For(c)
    ensures !DrainLoses(c, now, e, code)
    decreases e.world.remaining, 1
  {
    hide DispatchLoses, EngineDispatch, HonestChain;
    if code == 0 && e.held.Some? {
      var next := e.(held := None);
      DispatchKeepsHeld(c, now, next, e.held.value.index, e.held.value.signal);
      var o := EngineDispatch(c, now, next, e.held.value.index, e.held.value.signal);
      if o.code == 0 {
        DrainKeepsHeld(c, now, o.engine, 0);
      }
    }
  }

  lemma {:induction false} RunKeepsHeld(c: Chain, now: uint32, e: Engine, i: nat, script: Script)
    requires HonestChain(c) && e.For(c) && i < |c.stages| && Honest(script, c.stages[i], e.held.Some?)
    ensures !RunLoses(c, now, e, i, script)
    decreases e.world.remaining, 3, script
  {
    hide HonestChain, EngineDrain, DrainLoses;
    match script
    case Return(_, _) =>
    case Emit(signal, _, rest) =>
      if signal.kind == c.stages[i].output {
        DrainKeepsHeld(c, now, e, 0);
        var o := EngineDrain(c, now, e, 0);
        if o.code == 0 {
          RunKeepsHeld(c, now, o.engine.(held := Some(Held(i + 1, signal))), i, rest);
        }
      }
    case Schedule(deadline, accepted, refused) =>
      if CanFlush(c.stages[i]) {
        RunKeepsHeld(c, now, e.(world := e.world.PutDeadline(i, Some(deadline))), i, accepted);
      } else {
        RunKeepsHeld(c, now, e, i, refused);
      }
    case Cancel(rest) => RunKeepsHeld(c, now, e.(world := e.world.PutDeadline(i, None)), i, rest);
  }

  lemma PushKeepsHeld(c: Chain, now: uint32, w: World, signal: Signal)
    requires HonestChain(c) && w.For(c)
    ensures !PushLoses(c, now, w, signal)
  {
    hide EngineDispatch, HonestChain, DispatchLoses, DrainLoses;
    var first := EngineDispatch(c, now, Engine(w, None), 0, signal);
    DispatchKeepsHeld(c, now, Engine(w, None), 0, signal);
    DrainKeepsHeld(c, now, first.engine, first.code);
  }

  /** A push through stages that keep the contract behaves as nested calls. */
  lemma PushRefines(c: Chain, now: uint32, w: World, signal: Signal)
    requires HonestChain(c) && w.For(c)
    ensures var first := EngineDispatch(c, now, Engine(w, None), 0, signal);
            var o := EngineDrain(c, now, first.engine, first.code);
            o.engine.held.None? && Same(Outcome(o.engine.world, o.code), Dispatch(c, now, w, 0, signal))
  {
    hide Dispatch, EngineDispatch, EngineDrain, HonestChain, PushLoses;
    PushExact(c, now, w, signal);
    PushKeepsHeld(c, now, w, signal);
  }

  lemma {:induction false} FlushKeepsHeld(c: Chain, now: uint32, e: Engine, i: nat)
    requires HonestChain(c) && e.For(c) && e.held.None? && i <= |c.stages|
    ensures !FlushLoses(c, now, e, i)
    decreases |c.stages| - i
  {
    hide EngineRun, EngineDrain, RunLoses, DrainLoses, Honest, TimeReached;
    if i < |c.stages| {
      if !Due(e.world, i, now) {
        FlushKeepsHeld(c, now, e, i + 1);
      } else {
        var cleared := e.(world := e.world.PutDeadline(i, None));
        var script := c.stages[i].flush(e.world.memory[i], now);
        RunKeepsHeld(c, now, cleared, i, script);
        var ran := EngineRun(c, now, cleared, i, script);
        DrainKeepsHeld(c, now, ran.engine, ran.code);
        var o := EngineDrain(c, now, ran.engine, ran.code);
        if o.code == 0 {
          FlushKeepsHeld(c, now, o.engine, i + 1);
        }
      }
    }
  }

  /** So does a flush. */
  lemma FlushRefines(c: Chain, now: uint32, w: World, i: nat)
    requires HonestChain(c) && w.For(c) && i <= |c.stages|
    ensures var o := EngineFlush(c, now, Engine(w, None), i);
            o.engine.held.None? && Same(Outcome(o.engine.world, o.code), Flush(c, now, w, i))
  {
    hide EngineFlush, Flush, FlushLoses, HonestChain;
    FlushExact(c, now, w, i);
    FlushKeepsHeld(c, now, Engine(w, None), i);
  }

  // ----- what validation gives -----

  /** The kind of signal a stage, or the sink, is handed. */
  ghost function KindInto(c: Chain, i: nat): nat
    requires i <= |c.stages|
  {
    if i == 0 then c.inputKind else c.stages[i - 1].output
  }

  /** Each stage takes what the one before it emits, and the sink what the last one does. */
  ghost predicate Compatible(c: Chain) {
    && (forall i | 0 <= i < |c.stages| :: Accepts(c.stages[i].accepted, KindInto(c, i)))
    && Accepts(c.sinkAccepted, KindInto(c, |c.stages|))
  }

  /** Only a stage that can flush has a deadline. */
  ghost predicate DeadlinesFlush(c: Chain, w: World)
    requires w.For(c)
  {
    forall i | 0 <= i < |c.stages| && w.deadlines[i].Some? :: CanFlush(c.stages[i])
  }

  /** Kinds fit, the one of a held emission included. */
  ghost predicate Fits(c: Chain, e: Engine)
    requires e.For(c)
  {
    Compatible(c) && (e.held.Some? ==> e.held.value.signal.kind == KindInto(c, e.held.value.index))
  }

  /** The dispatches made and left add up, and only stages that can flush have deadlines. */
  ghost predicate Counted(c: Chain, w: World, w': World)
    requires w.For(c) && w'.For(c)
  {
    && w'.dispatches + w'.remaining == w.dispatches + w.remaining
    && w'.outputs - w.outputs <= w'.dispatches - w.dispatches
    && (DeadlinesFlush(c, w) ==> DeadlinesFlush(c, w'))
  }

  /** Every dispatch came to a call. */
  ghost predicate AllCalled(w: World, w': World) {
    |w'.calls| - |w.calls| == w'.dispatches - w.dispatches
  }

  /** Whatever the stages do, dispatches are counted; and where kinds fit, every dispatch is a
      call, of a stage or a sink that takes its kind, and kinds go on fitting. */
  ghost predicate Sound(c: Chain, e: Engine, e': Engine, fit: bool)
    requires e.For(c) && e'.For(c)
  {
    && Counted(c, e.world, e'.world)
    && (fit ==> Fits(c, e') && e'.world.mismatch == e.world.mismatch && AllCalled(e.world, e'.world))
  }

  lemma SoundTwice(c: Chain, a: Engine, b: Engine, d: Engine, fit: bool)
    requires a.For(c) && b.For(c) && d.For(c) && Sound(c, a, b, fit) && Sound(c, b, d, fit)
    ensures Sound(c, a, d, fit)
  {
    hide DeadlinesFlush, Fits;
  }

  /** A change of memory or deadlines, or dropping what is held. */
  lemma SoundStep(c: Chain, e: Engine, e': Engine, fit: bool)
    requires e.For(c) && e'.For(c) && (fit ==> Fits(c, e)) && (e'.held == e.held || e'.held.None?)
    requires e'.world == e.world.(memory := e'.world.memory, deadlines := e'.world.deadlines)
    requires forall i | 0 <= i < |c.stages| && e'.world.deadlines[i].Some? ::
               e.world.deadlines[i].Some? || CanFlush(c.stages[i])
    ensures Sound(c, e, e', fit)
  {
    hide CanFlush, Compatible;
  }

  lemma {:induction false} DispatchSound(c: Chain, now: uint32, e: Engine, i: nat, signal: Signal, fit: bool)
    requires e.For(c) && i <= |c.stages| && (fit ==> Fits(c, e) && signal.kind == KindInto(c, i))
    ensures Sound(c, e, EngineDispatch(c, now, e, i, signal).engine, fit)
    decreases e.world.remaining, 0
  {
    hide EngineRun, CanFlush, KindInto;
    if e.world.remaining > 0 && i < |c.stages| && Accepts(c.stages[i].accepted, signal.kind) {
      var called := e.(world := Called(Charge(e.world), i, signal));
      RunSound(c, now, called, i, c.stages[i].process(e.world.memory[i], signal, now), fit);
    }
  }

  lemma {:induction false} DrainSound(c: Chain, now: uint32, e: Engine, code: Code, fit: bool)
    requires e.For(c) && (fit ==> Fits(c, e))
    ensures Sound(c, e, EngineDrain(c, now, e, code).engine, fit)
    decreases e.world.remaining, 1
  {
    hide EngineDispatch, CanFlush, Compatible, DeadlinesFlush;
    var next := e.(held := None);
    SoundStep(c, e, next, fit);
    if code == 0 && e.held.Some? {
      DispatchSound(c, now, next, e.held.value.index, e.held.value.signal, fit);
      var o := EngineDispatch(c, now, next, e.held.value.index, e.held.value.signal);
      SoundTwice(c, e, next, o.engine, fit);
      if o.code == 0 {
        DrainSound(c, now, o.engine, 0, fit);
        SoundTwice(c, e, o.engine, EngineDrain(c, now, o.engine, 0).engine, fit);
      } else {
        SoundStep(c, o.engine, o.engine.(held := None), fit);
        SoundTwice(c, e, o.engine, o.engine.(held := None), fit);
      }
    }
  }

  lemma {:induction false} EmitSound(c: Chain, now: uint32, e: Engine, i: nat, signal: Signal, fit: bool)
    requires e.For(c) && i < |c.stages| && (fit ==> Fits(c, e))
    ensures Sound(c, e, EngineEmit(c, now, e, i, signal).engine, fit)
    decreases e.world.remaining, 2
  {
    hide EngineDrain, CanFlush, Compatible, DeadlinesFlush;
    SoundStep(c, e, e, fit);
    DrainSound(c, now, e, 0, fit);
  }

  lemma {:induction false} RunSound(c: Chain, now: uint32, e: Engine, i: nat, script: Script, fit: bool)
    requires e.For(c) && i < |c.stages| && (fit ==> Fits(c, e))
    ensures Sound(c, e, EngineRun(c, now, e, i, script).engine, fit)
    decreases e.world.remaining, 3, script, 0
  {
    hide EngineEmit, CanFlush, Fits, DeadlinesFlush, Sound;
    match script
    case Return(memory, _) => SoundStep(c, e, e.(world := e.world.Put(i, memory)), fit);
    case Emit(signal, onFailure, rest) =>
      EmitSound(c, now, e, i, signal, fit);
      var o := EngineEmit(c, now, e, i, signal);
      SoundFits(c, e, o.engine, fit);
      if o.code < 0 {
        var failed := o.engine.(world := o.engine.world.Put(i, onFailure));
        SoundStep(c, o.engine, failed, fit);
        SoundTwice(c, e, o.engine, failed, fit);
      } else {
        RunSound(c, now, o.engine, i, rest, fit);
        SoundTwice(c, e, o.engine, EngineRun(c, now, o.engine, i, rest).engine, fit);
      }
    case Schedule(deadline, accepted, refused) =>
      if CanFlush(c.stages[i]) {
        RunChanged(c, now, e, e.(world := e.world.PutDeadline(i, Some(deadline))), i, accepted, script, fit);
      } else {
        RunSound(c, now, e, i, refused, fit);
      }
    case Cancel(rest) => RunChanged(c, now, e, e.(world := e.world.PutDeadline(i, None)), i, rest, script, fit);
  }

  lemma SoundFits(c: Chain, e: Engine, e': Engine, fit: bool)
    requires e.For(c) && e'.For(c) && Sound(c, e, e', fit)
    ensures fit ==> Fits(c, e')
  {
  }

  /** A deadline set or cleared, and then the rest of the call. */
  lemma {:induction false} RunChanged(c: Chain, now: uint32, e: Engine, e': Engine, i: nat, rest: Script, script: Script, fit: bool)
    requires e.For(c) && i < |c.stages| && (fit ==> Fits(c, e))
    requires (script.Schedule? && CanFlush(c.stages[i]) && rest == script.accepted
              && e' == e.(world := e.world.PutDeadline(i, Some(script.deadlineMs))))
          || (script.Cancel? && rest == script.rest && e' == e.(world := e.world.PutDeadline(i, None)))
    ensures Sound(c, e, EngineRun(c, now, e', i, rest).engine, fit)
    decreases e.world.remaining, 3, rest, 1
  {
    hide EngineRun, CanFlush, Fits, DeadlinesFlush, Sound;
    SoundStep(c, e, e', fit);
    SoundFits(c, e, e', fit);
    RunSound(c, now, e', i, rest, fit);
    SoundTwice(c, e, e', EngineRun(c, now, e', i, rest).engine, fit);
  }

  /** A stage call and what it leaves held, from a deadline cleared on: a stage that flushes. */
  lemma CallSound(c: Chain, now: uint32, e: Engine, i: nat, script: Script, fit: bool)
    requires e.For(c) && i < |c.stages| && (fit ==> Fits(c, e))
    ensures var cleared := e.(world := e.world.PutDeadline(i, None));
            var ran := EngineRun(c, now, cleared, i, script);
            Sound(c, e, EngineDrain(c, now, ran.engine, ran.code).engine, fit)
  {
    hide EngineRun, EngineDrain, CanFlush, Fits, DeadlinesFlush, Sound;
    var cleared := e.(world := e.world.PutDeadline(i, None));
    SoundStep(c, e, cleared, fit);
    SoundFits(c, e, cleared, fit);
    RunSound(c, now, cleared, i, script, fit);
    var ran := EngineRun(c, now, cleared, i, script);
    SoundTwice(c, e, cleared, ran.engine, fit);
    SoundFits(c, e, ran.engine, fit);
    DrainSound(c, now, ran.engine, ran.code, fit);
    SoundTwice(c, e, ran.engine, EngineDrain(c, now, ran.engine, ran.code).engine, fit);
  }

  /** A flush, of any stages, from stage `i` on. */
  lemma {:induction false} FlushSound(c: Chain, now: uint32, e: Engine, i: nat, fit: bool)
    requires e.For(c) && i <= |c.stages| && (fit ==> Fits(c, e))
    ensures Sound(c, e, EngineFlush(c, now, e, i).engine, fit)
    decreases |c.stages| - i
  {
    hide EngineRun, EngineDrain, CanFlush, Fits, DeadlinesFlush, Sound;
    if i == |c.stages| {
      SoundStep(c, e, e, fit);
    } else if !Due(e.world, i, now) {
      FlushSound(c, now, e, i + 1, fit);
    } else {
      var script := c.stages[i].flush(e.world.memory[i], now);
      CallSound(c, now, e, i, script, fit);
      var ran := EngineRun(c, now, e.(world := e.world.PutDeadline(i, None)), i, script);
      var o := EngineDrain(c, now, ran.engine, ran.code);
      SoundFits(c, e, o.engine, fit);
      if o.code == 0 {
        FlushSound(c, now, o.engine, i + 1, fit);
        SoundTwice(c, e, o.engine, EngineFlush(c, now, o.engine, i + 1).engine, fit);
      }
    }
  }

  /** A push into a pipeline whose kinds fit: nothing dispatched is refused for its kind, the
      budget is what was spent and what is left, and only stages that can flush have deadlines.
      Whatever the stages do, even if they break the contract. */
  lemma PushSound(c: Chain, now: uint32, w: World, signal: Signal, fit: bool)
    requires w.For(c) && (fit ==> Compatible(c) && signal.kind == c.inputKind)
    ensures var first := EngineDispatch(c, now, Engine(w, None), 0, signal);
            var o := EngineDrain(c, now, first.engine, first.code);
            Counted(c, w, o.engine.world) && (fit ==> o.engine.world.mismatch == w.mismatch && AllCalled(w, o.engine.world))
  {
    hide EngineDispatch, EngineDrain, Compatible, DeadlinesFlush;
    var e := Engine(w, None);
    DispatchSound(c, now, e, 0, signal, fit);
    var first := EngineDispatch(c, now, e, 0, signal);
    DrainSound(c, now, first.engine, first.code, fit);
    SoundTwice(c, e, first.engine, EngineDrain(c, now, first.engine, first.code).engine, fit);
  }
}
