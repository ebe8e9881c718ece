/** What an operation leaves behind, whatever it returns (src/core/pipeline.c): each stage is as
    its own calls left it and the sink as its signals did, and when a flush is due. */
module PipelineStates {
  import opened Bytes
  import opened Errno
  import opened PipelineEngine

  // ----- what calls leave -----

  /** A stage's memory and the deadline of its flush. */
  datatype StageState = StageState(memory: Memory, deadline: Option<uint32>)

  ghost function StateOf(w: World, j: nat): StageState
    requires j < |w.memory| && j < |w.deadlines|
  {
    StageState(w.memory[j], w.deadlines[j])
  }

  /** One call can leave the stage so: it ran to its end, or an emission failed and it stopped;
      its deadline is the last one it set or cleared before that. */
  ghost predicate CallLeaves(script: Script, api: StageApi, deadline: Option<uint32>, after: StageState) {
    match script
    case Return(memory, _) => after == StageState(memory, deadline)
    case Emit(_, onFailure, rest) => after == StageState(onFailure, deadline) || CallLeaves(rest, api, deadline, after)
    case Schedule(at, accepted, refused) =>
      if CanFlush(api) then CallLeaves(accepted, api, Some(at), after) else CallLeaves(refused, api, deadline, after)
    case Cancel(rest) => CallLeaves(rest, api, None, after)
  }

  /** A call of stage `j` changes it as the call does; a call of another leaves it alone. */
  ghost predicate OneCall(api: StageApi, j: nat, now: uint32, call: (nat, Signal), before: StageState, after: StageState) {
    if call.0 == j then CallLeaves(api.process(before.memory, call.1, now), api, before.deadline, after)
    else after == before
  }

  /** These calls, one after another, can leave stage `j` so. */
  ghost predicate CallsLeave(api: StageApi, j: nat, now: uint32, calls: seq<(nat, Signal)>, before: StageState, after: StageState)
    decreases |calls|
  {
    if calls == [] then after == before
    else
      var front, last := calls[..|calls| - 1], calls[|calls| - 1];
      exists between: StageState ::
        CallsLeave(api, j, now, front, before, between) && OneCall(api, j, now, last, between, after)
  }

  /** The sink after the signals it was handed, and how many of them it took. */
  ghost function SinkAfter(c: Chain, calls: seq<(nat, Signal)>, sink: SinkState): (after: (SinkState, nat))
    decreases |calls|
  {
    if calls == [] then (sink, 0)
    else
      var (before, outputs) := SinkAfter(c, calls[..|calls| - 1], sink);
      var (at, signal) := calls[|calls| - 1];
      if at != |c.stages| then (before, outputs)
      else
        var (after, code) := c.sinkEmit(before, signal);
        (after, outputs + if code == 0 then 1 else 0)
  }

  /** Every call is of a stage from `from` on or of the sink, with a signal of a kind it takes. */
  ghost predicate CallsTaken(c: Chain, calls: seq<(nat, Signal)>, from: nat) {
    forall k | 0 <= k < |calls| ::
      && from <= calls[k].0 <= |c.stages| && 0 < calls[k].1.kind < 6
      && calls[k].1.kind in (if calls[k].0 == |c.stages| then c.sinkAccepted else c.stages[calls[k].0].accepted)
  }

  ghost predicate StageLeft(c: Chain, now: uint32, calls: seq<(nat, Signal)>, w: World, w': World, j: nat)
    requires w.For(c) && w'.For(c) && j < |c.stages|
  {
    CallsLeave(c.stages[j], j, now, calls, StateOf(w, j), StateOf(w', j))
  }

  /** From `w` to `w'` these calls were made; every stage but `skip` and the sink are as they
      left them. */
  ghost predicate CallsLead(c: Chain, now: uint32, calls: seq<(nat, Signal)>, w: World, w': World, from: nat, skip: nat) {
    && w.For(c) && w'.For(c)
    && w'.calls == w.calls + calls && CallsTaken(c, calls, from)
    && (forall j | 0 <= j < |c.stages| && j != skip :: StageLeft(c, now, calls, w, w', j))
    && SinkAfter(c, calls, w.sink).0 == w'.sink && w.outputs + SinkAfter(c, calls, w.sink).1 == w'.outputs
  }

  /** The calls made between two worlds. */
  ghost function Made(w: World, w': World): seq<(nat, Signal)> {
    if |w.calls| <= |w'.calls| then w'.calls[|w.calls|..] else []
  }

  ghost predicate Leads(c: Chain, now: uint32, w: World, w': World, from: nat, skip: nat) {
    CallsLead(c, now, Made(w, w'), w, w', from, skip)
  }

  // ----- one stretch of calls after another -----

  lemma {:induction false} CallsAfter(api: StageApi, j: nat, now: uint32, a: seq<(nat, Signal)>, b: seq<(nat, Signal)>,
                                      s: StageState, t: StageState, u: StageState)
    requires CallsLeave(api, j, now, a, s, t) && CallsLeave(api, j, now, b, t, u)
    ensures CallsLeave(api, j, now, a + b, s, u)
    decreases |b|
  {
    hide OneCall;
    if b == [] {
      assert a + b == a;
    } else {
      var between: StageState :|
        && CallsLeave(api, j, now, b[..|b| - 1], t, between) && OneCall(api, j, now, b[|b| - 1], between, u);
      CallsAfter(api, j, now, a, b[..|b| - 1], s, t, between);
      assert (a + b)[..|a + b| - 1] == a + b[..|b| - 1];
    }
  }

  lemma {:induction false} SinkAfterTwice(c: Chain, a: seq<(nat, Signal)>, b: seq<(nat, Signal)>, sink: SinkState)
    ensures var first := SinkAfter(c, a, sink);
            var later := SinkAfter(c, b, first.0);
            SinkAfter(c, a + b, sink) == (later.0, first.1 + later.1)
    decreases |b|
  {
    if b == [] {
      assert a + b == a;
    } else {
      SinkAfterTwice(c, a, b[..|b| - 1], sink);
      assert (a + b)[..|a + b| - 1] == a + b[..|b| - 1];
    }
  }

  /** Calls of other stages leave a stage alone. */
  lemma {:induction false} OthersLeave(api: StageApi, j: nat, now: uint32, calls: seq<(nat, Signal)>, s: StageState, t: StageState)
    requires forall k | 0 <= k < |calls| :: calls[k].0 != j
    ensures CallsLeave(api, j, now, calls, s, t) <==> s == t
    decreases |calls|
  {
    if calls != [] {
      var front, last := calls[..|calls| - 1], calls[|calls| - 1];
      forall between: StageState ensures CallsLeave(api, j, now, front, s, between) <==> s == between {
        OthersLeave(api, j, now, front, s, between);
      }
      assert OneCall(api, j, now, last, t, t);
    }
  }

  lemma LeadsTwice(c: Chain, now: uint32, a: World, b: World, d: World, from: nat, skip: nat)
    requires Leads(c, now, a, b, from, skip) && Leads(c, now, b, d, from, skip)
    ensures Leads(c, now, a, d, from, skip)
  {
    hide CallsLeave, SinkAfter, CallsTaken, StageLeft;
    var first, second := Made(a, b), Made(b, d);
    assert Made(a, d) == first + second;
    forall j | 0 <= j < |c.stages| && j != skip ensures StageLeft(c, now, first + second, a, d, j) {
      StageTwice(c, now, first, second, a, b, d, j);
    }
    TakenTwice(c, first, second, from);
    SinkAfterTwice(c, first, second, a.sink);
  }

  lemma StageTwice(c: Chain, now: uint32, first: seq<(nat, Signal)>, second: seq<(nat, Signal)>, a: World, b: World, d: World, j: nat)
    requires a.For(c) && b.For(c) && d.For(c) && j < |c.stages|
    requires StageLeft(c, now, first, a, b, j) && StageLeft(c, now, second, b, d, j)
    ensures StageLeft(c, now, first + second, a, d, j)
  {
    hide CallsLeave;
    CallsAfter(c.stages[j], j, now, first, second, StateOf(a, j), StateOf(b, j), StateOf(d, j));
  }

  lemma TakenTwice(c: Chain, first: seq<(nat, Signal)>, second: seq<(nat, Signal)>, from: nat)
    requires CallsTaken(c, first, from) && CallsTaken(c, second, from)
    ensures CallsTaken(c, first + second, from)
  {
  }

  /** Nothing was called, and only stage `skip` may have changed. */
  lemma NoCalls(c: Chain, now: uint32, w: World, w': World, from: nat, skip: nat)
    requires w.For(c) && w'.For(c) && w'.calls == w.calls && w'.sink == w.sink && w'.outputs == w.outputs
    requires forall j | 0 <= j < |c.stages| && j != skip :: w'.memory[j] == w.memory[j] && w'.deadlines[j] == w.deadlines[j]
    ensures Leads(c, now, w, w', from, skip)
  {
    assert Made(w, w') == [];
    assert w'.calls == w.calls + [];
  }

  /** Where no call is of a stage before `from`, those stages are as they were. */
  lemma Before(c: Chain, now: uint32, w: World, w': World, from: nat, skip: nat, j: nat)
    requires Leads(c, now, w, w', from, skip) && j < from && j < |c.stages| && j != skip
    ensures StateOf(w', j) == StateOf(w, j)
  {
    hide CallsLeave;
    assert StageLeft(c, now, Made(w, w'), w, w', j);
    OthersLeave(c.stages[j], j, now, Made(w, w'), StateOf(w, j), StateOf(w', j));
  }

  lemma Looser(c: Chain, now: uint32, w: World, w': World, from: nat, from': nat, skip: nat)
    requires Leads(c, now, w, w', from, |c.stages|) && from' <= from
    ensures Leads(c, now, w, w', from', skip)
  {
    hide StageLeft, SinkAfter;
  }

  // ----- each part of the engine -----

  lemma SinkLeads(c: Chain, now: uint32, w: World, signal: Signal)
    requires w.For(c)
    ensures Leads(c, now, w, Sink(c, w, signal).world, |c.stages|, |c.stages|)
  {
    hide CallsLeave;
    var w' := Sink(c, w, signal).world;
    if Accepts(c.sinkAccepted, signal.kind) {
      var call := [(|c.stages|, signal)];
      assert Made(w, w') == call;
      assert call[..|call| - 1] == [];
      assert SinkAfter(c, [], w.sink) == (w.sink, 0);
      forall j | 0 <= j < |c.stages| ensures StageLeft(c, now, call, w, w', j) {
        OthersLeave(c.stages[j], j, now, call, StateOf(w, j), StateOf(w', j));
      }
    } else {
      NoCalls(c, now, w, w', |c.stages|, |c.stages|);
    }
  }

  lemma OneCallLeaves(api: StageApi, j: nat, now: uint32, call: (nat, Signal), s: StageState, t: StageState)
    requires OneCall(api, j, now, call, s, t)
    ensures CallsLeave(api, j, now, [call], s, t)
  {
    assert [call][..|[call]| - 1] == [];
    assert CallsLeave(api, j, now, [], s, s);
  }

  /** A dispatch that reached stage `i`: its call, and the calls it led to. */
  lemma CalledLeads(c: Chain, now: uint32, w: World, i: nat, signal: Signal, w': World)
    requires w.For(c) && w.remaining > 0 && i < |c.stages| && Accepts(c.stages[i].accepted, signal.kind)
    requires Leads(c, now, Called(Charge(w), i, signal), w', i + 1, i)
    requires CallLeaves(c.stages[i].process(w.memory[i], signal, now), c.stages[i], w.deadlines[i], StateOf(w', i))
    ensures Leads(c, now, w, w', i, |c.stages|)
  {
    hide CallLeaves, CallsLeave;
    var called := Called(Charge(w), i, signal);
    var call, rest := (i, signal), Made(called, w');
    assert Made(w, w') == [call] + rest;
    forall j | 0 <= j < |c.stages| ensures StageLeft(c, now, [call] + rest, w, w', j) {
      var api, s, t := c.stages[j], StateOf(w, j), StateOf(w', j);
      if j == i {
        OneCallLeaves(api, j, now, call, s, t);
        OthersLeave(api, j, now, rest, t, t);
        CallsAfter(api, j, now, [call], rest, s, t, t);
      } else {
        assert StageLeft(c, now, rest, called, w', j);
        OneCallLeaves(api, j, now, call, s, s);
        CallsAfter(api, j, now, [call], rest, s, s, t);
      }
    }
    CalledSink(c, call, rest, w.sink);
  }

  lemma CalledSink(c: Chain, call: (nat, Signal), rest: seq<(nat, Signal)>, sink: SinkState)
    requires call.0 != |c.stages|
    ensures SinkAfter(c, [call] + rest, sink) == SinkAfter(c, rest, sink)
  {
    assert [call][..|[call]| - 1] == [];
    assert SinkAfter(c, [call], sink) == (sink, 0);
    SinkAfterTwice(c, [call], rest, sink);
  }

  lemma {:induction false} DispatchLeads(c: Chain, now: uint32, e: Engine, i: nat, signal: Signal)
    requires e.For(c) && e.held.None? && i <= |c.stages|
    ensures Own(EngineDispatch(c, now, e, i, signal).engine, i)
    ensures Leads(c, now, e.world, EngineDispatch(c, now, e, i, signal).engine.world, i, |c.stages|)
    decreases e.world.remaining, 0
  {
    hide EngineRun, Leads, Accepts, Sink, CallLeaves;
    if e.world.remaining == 0 {
      NoCalls(c, now, e.world, e.world, i, |c.stages|);
    } else if i == |c.stages| {
      SinkLeads(c, now, Charge(e.world), signal);
      NoCalls(c, now, e.world, Charge(e.world), i, |c.stages|);
      LeadsTwice(c, now, e.world, Charge(e.world), Sink(c, Charge(e.world), signal).world, i, |c.stages|);
    } else if !Accepts(c.stages[i].accepted, signal.kind) {
      NoCalls(c, now, e.world, Charge(e.world).(mismatch := true), i, |c.stages|);
    } else {
      var called := e.(world := Called(Charge(e.world), i, signal));
      var script := c.stages[i].process(e.world.memory[i], signal, now);
      RunLeads(c, now, called, i, script);
      CalledLeads(c, now, e.world, i, signal, EngineRun(c, now, called, i, script).engine.world);
    }
  }

  lemma {:induction false} DrainLeads(c: Chain, now: uint32, e: Engine, code: Code, from: nat)
    requires e.For(c) && (e.held.Some? ==> from <= e.held.value.index)
    ensures Leads(c, now, e.world, EngineDrain(c, now, e, code).engine.world, from, |c.stages|)
    decreases e.world.remaining, 1
  {
    hide EngineDispatch, Leads;
    if code == 0 && e.held.Some? {
      var next, at, signal := e.(held := None), e.held.value.index, e.held.value.signal;
      DispatchLeads(c, now, next, at, signal);
      var o := EngineDispatch(c, now, next, at, signal);
      Looser(c, now, e.world, o.engine.world, at, from, |c.stages|);
      if o.code == 0 {
        DrainLeads(c, now, o.engine, 0, from);
        LeadsTwice(c, now, e.world, o.engine.world, EngineDrain(c, now, o.engine, 0).engine.world, from, |c.stages|);
      }
    } else {
      NoCalls(c, now, e.world, e.world, from, |c.stages|);
    }
  }

  /** What a call of stage `i` that ended in `w'` did: to itself, and through its emissions. */
  ghost predicate CallDone(c: Chain, now: uint32, w: World, w': World, i: nat, script: Script)
    requires w.For(c) && w'.For(c) && i < |c.stages|
  {
    Leads(c, now, w, w', i + 1, i) && CallLeaves(script, c.stages[i], w.deadlines[i], StateOf(w', i))
  }

  lemma {:induction false} RunLeads(c: Chain, now: uint32, e: Engine, i: nat, script: Script)
    requires e.For(c) && i < |c.stages| && Own(e, i)
    ensures var o := EngineRun(c, now, e, i, script);
            Own(o.engine, i) && CallDone(c, now, e.world, o.engine.world, i, script)
    decreases e.world.remaining, 3, script, 0
  {
    hide EngineEmit, Leads;
    match script
    case Return(memory, _) =>
      NoCalls(c, now, e.world, e.world.Put(i, memory), i + 1, i);
    case Emit(signal, onFailure, rest) =>
      EmitLeads(c, now, e, i, signal);
      var o := EngineEmit(c, now, e, i, signal);
      if o.code < 0 {
        FailedLeads(c, now, e.world, o.engine.world, i, onFailure);
      } else {
        RunLeads(c, now, o.engine, i, rest);
        LeadsTwice(c, now, e.world, o.engine.world, EngineRun(c, now, o.engine, i, rest).engine.world, i + 1, i);
      }
    case Schedule(at, accepted, refused) =>
      if CanFlush(c.stages[i]) {
        DeadlineLeads(c, now, e, i, Some(at), accepted);
      } else {
        RunLeads(c, now, e, i, refused);
      }
    case Cancel(rest) => DeadlineLeads(c, now, e, i, None, rest);
  }

  lemma FailedLeads(c: Chain, now: uint32, w: World, w': World, i: nat, onFailure: Memory)
    requires w.For(c) && w'.For(c) && i < |c.stages|
    requires Leads(c, now, w, w', i + 1, i)
    ensures Leads(c, now, w, w'.Put(i, onFailure), i + 1, i)
  {
    hide Leads;
    NoCalls(c, now, w', w'.Put(i, onFailure), i + 1, i);
    LeadsTwice(c, now, w, w', w'.Put(i, onFailure), i + 1, i);
  }

  /** An emission leaves the emitting stage itself alone. */
  lemma {:induction false} EmitLeads(c: Chain, now: uint32, e: Engine, i: nat, signal: Signal)
    requires e.For(c) && i < |c.stages| && Own(e, i)
    ensures var o := EngineEmit(c, now, e, i, signal);
            && Own(o.engine, i) && Leads(c, now, e.world, o.engine.world, i + 1, i)
            && StateOf(o.engine.world, i) == StateOf(e.world, i)
    decreases e.world.remaining, 2
  {
    hide EngineDrain, Leads;
    if signal.kind != c.stages[i].output {
      NoCalls(c, now, e.world, e.world, i + 1, i);
    } else {
      DrainLeads(c, now, e, 0, i + 1);
      var w' := EngineDrain(c, now, e, 0).engine.world;
      Before(c, now, e.world, w', i + 1, |c.stages|, i);
      Looser(c, now, e.world, w', i + 1, i + 1, i);
    }
  }

  lemma {:induction false} DeadlineLeads(c: Chain, now: uint32, e: Engine, i: nat, deadline: Option<uint32>, rest: Script)
    requires e.For(c) && i < |c.stages| && Own(e, i)
    ensures var o := EngineRun(c, now, e.(world := e.world.PutDeadline(i, deadline)), i, rest);
            && Own(o.engine, i) && Leads(c, now, e.world, o.engine.world, i + 1, i)
            && CallLeaves(rest, c.stages[i], deadline, StateOf(o.engine.world, i))
    decreases e.world.remaining, 3, rest, 1
  {
    hide EngineRun, Leads, CallLeaves;
    var e' := e.(world := e.world.PutDeadline(i, deadline));
    RunLeads(c, now, e', i, rest);
    NoCalls(c, now, e.world, e'.world, i + 1, i);
    LeadsTwice(c, now, e.world, e'.world, EngineRun(c, now, e', i, rest).engine.world, i + 1, i);
  }

  // ----- a push -----

  /** A push: the signal goes to the first stage, and what that leaves held is drained. */
  ghost function EnginePush(c: Chain, now: uint32, w: World, signal: Signal): (o: EngineOutcome)
    requires w.For(c)
    ensures o.engine.For(c)
  {
    var first := EngineDispatch(c, now, Engine(w, None), 0, signal);
    EngineDrain(c, now, first.engine, first.code)
  }

  /** Whatever a push returns, each stage is as the calls made left it, and the sink as the
      signals it was handed did; a stage that was not called is as it was. */
  lemma PushLeads(c: Chain, now: uint32, w: World, signal: Signal)
    requires w.For(c)
    ensures Leads(c, now, w, EnginePush(c, now, w, signal).engine.world, 0, |c.stages|)
  {
    hide EngineDispatch, EngineDrain, Leads;
    var first := EngineDispatch(c, now, Engine(w, None), 0, signal);
    DispatchLeads(c, now, Engine(w, None), 0, signal);
    DrainLeads(c, now, first.engine, first.code, 0);
    LeadsTwice(c, now, w, first.engine.world, EngineDrain(c, now, first.engine, first.code).engine.world, 0, |c.stages|);
  }

  /** A stage with no call among those made keeps its memory and its deadline. */
  lemma UncalledKeeps(c: Chain, now: uint32, w: World, w': World, j: nat)
    requires Leads(c, now, w, w', 0, |c.stages|) && j < |c.stages|
    requires forall k | |w.calls| <= k < |w'.calls| :: w'.calls[k].0 != j
    ensures w'.memory[j] == w.memory[j] && w'.deadlines[j] == w.deadlines[j]
  {
    hide CallsLeave;
    assert StageLeft(c, now, Made(w, w'), w, w', j);
    OthersLeave(c.stages[j], j, now, Made(w, w'), StateOf(w, j), StateOf(w', j));
  }

  // ----- every stage in turn -----

  /** Why each stage in turn is called: its flush is due, or the pipeline is left. */
  datatype Sweep = Flushing | Leaving

  /** A stage's own turn: a stage whose deadline is reached loses it and is flushed; one that is
      left loses its deadline, and is told where it asks to be. */
  ghost predicate OwnTurn(sweep: Sweep, api: StageApi, now: uint32, before: StageState, after: StageState) {
    match sweep
    case Flushing =>
      if before.deadline.Some? && TimeReached(now, before.deadline.value)
      then CallLeaves(api.flush(before.memory, now), api, None, after)
      else after == before
    case Leaving =>
      match api.deactivate
      case Some(deactivate) => CallLeaves(deactivate(before.memory, now), api, None, after)
      case None => after == before.(deadline := None)
  }

  /** Stage `j`: the calls made to it and then, if it is one of those from `i` up to `stop`, its
      own turn. */
  ghost predicate StageSwept(c: Chain, now: uint32, sweep: Sweep, calls: seq<(nat, Signal)>, w: World, w': World, j: nat,
                             i: nat, stop: nat)
    requires w.For(c) && w'.For(c) && j < |c.stages|
  {
    exists between: StageState ::
      && CallsLeave(c.stages[j], j, now, calls, StateOf(w, j), between)
      && if i <= j < stop then OwnTurn(sweep, c.stages[j], now, between, StateOf(w', j)) else between == StateOf(w', j)
  }

  /** From `w` to `w'` the stages from `i` up to `stop` had their turn, and the calls made went
      to the stages behind them. */
  ghost predicate Swept(c: Chain, now: uint32, sweep: Sweep, w: World, w': World, i: nat, stop: nat) {
    var calls := Made(w, w');
    && w.For(c) && w'.For(c)
    && w'.calls == w.calls + calls && CallsTaken(c, calls, i + 1)
    && (forall j | 0 <= j < |c.stages| :: StageSwept(c, now, sweep, calls, w, w', j, i, stop))
    && SinkAfter(c, calls, w.sink).0 == w'.sink && w.outputs + SinkAfter(c, calls, w.sink).1 == w'.outputs
  }

  lemma SweptNone(c: Chain, now: uint32, sweep: Sweep, w: World, i: nat)
    requires w.For(c)
    ensures Swept(c, now, sweep, w, w, i, i)
  {
    assert Made(w, w) == [];
    assert w.calls == w.calls + [];
    forall j | 0 <= j < |c.stages| ensures StageSwept(c, now, sweep, [], w, w, j, i, i) {
      assert CallsLeave(c.stages[j], j, now, [], StateOf(w, j), StateOf(w, j));
    }
  }

  /** One stage's turn, with the calls it made, and then the turns of those behind it. */
  ghost predicate TurnTaken(c: Chain, now: uint32, sweep: Sweep, w: World, w': World, i: nat)
    requires w.For(c) && w'.For(c) && i < |c.stages|
  {
    Leads(c, now, w, w', i + 1, i) && OwnTurn(sweep, c.stages[i], now, StateOf(w, i), StateOf(w', i))
  }

  lemma SweptOne(c: Chain, now: uint32, sweep: Sweep, w: World, w1: World, w': World, i: nat, stop: nat)
    requires w.For(c) && w1.For(c) && w'.For(c) && i < |c.stages| && i < stop
    requires TurnTaken(c, now, sweep, w, w1, i) && Swept(c, now, sweep, w1, w', i + 1, stop)
    ensures Swept(c, now, sweep, w, w', i, stop)
  {
    hide CallsLeave, OwnTurn, StageSwept, CallsTaken, SinkAfter;
    var first, second := Made(w, w1), Made(w1, w');
    assert Made(w, w') == first + second;
    TakenFrom(c, second, i + 2, i + 1);
    TakenTwice(c, first, second, i + 1);
    forall j | 0 <= j < |c.stages| ensures StageSwept(c, now, sweep, first + second, w, w', j, i, stop) {
      if j == i {
        OwnSwept(c, now, sweep, first, second, w, w1, w', i, stop);
      } else {
        assert StageLeft(c, now, first, w, w1, j);
        OtherSwept(c, now, sweep, first, second, w, w1, w', j, i, stop);
      }
    }
    SinkAfterTwice(c, first, second, w.sink);
  }

  lemma TakenFrom(c: Chain, calls: seq<(nat, Signal)>, from: nat, from': nat)
    requires CallsTaken(c, calls, from) && from' <= from
    ensures CallsTaken(c, calls, from')
  {
  }

  lemma OwnSwept(c: Chain, now: uint32, sweep: Sweep, first: seq<(nat, Signal)>, second: seq<(nat, Signal)>,
                 w: World, w1: World, w': World, i: nat, stop: nat)
    requires w.For(c) && w1.For(c) && w'.For(c) && i < |c.stages| && i < stop
    requires CallsTaken(c, first, i + 1) && CallsTaken(c, second, i + 1)
    requires OwnTurn(sweep, c.stages[i], now, StateOf(w, i), StateOf(w1, i))
    requires StageSwept(c, now, sweep, second, w1, w', i, i + 1, stop)
    ensures StageSwept(c, now, sweep, first + second, w, w', i, i, stop)
  {
    hide CallsLeave, OwnTurn;
    TakenTwice(c, first, second, i + 1);
    OthersLeave(c.stages[i], i, now, second, StateOf(w1, i), StateOf(w', i));
    OthersLeave(c.stages[i], i, now, first + second, StateOf(w, i), StateOf(w, i));
  }

  lemma OtherSwept(c: Chain, now: uint32, sweep: Sweep, first: seq<(nat, Signal)>, second: seq<(nat, Signal)>,
                   w: World, w1: World, w': World, j: nat, i: nat, stop: nat)
    requires w.For(c) && w1.For(c) && w'.For(c) && j < |c.stages|
    requires StageLeft(c, now, first, w, w1, j) && StageSwept(c, now, sweep, second, w1, w', j, i + 1, stop) && j != i
    ensures StageSwept(c, now, sweep, first + second, w, w', j, i, stop)
  {
    hide CallsLeave, OwnTurn;
    var between: StageState :|
      && CallsLeave(c.stages[j], j, now, second, StateOf(w1, j), between)
      && if i < j < stop then OwnTurn(sweep, c.stages[j], now, between, StateOf(w', j)) else between == StateOf(w', j);
    CallsAfter(c.stages[j], j, now, first, second, StateOf(w, j), StateOf(w1, j), between);
  }

  /** A stage called with its deadline cleared, and what that leaves held. */
  lemma TurnLeads(c: Chain, now: uint32, e: Engine, i: nat, script: Script)
    requires e.For(c) && i < |c.stages| && e.held.None?
    ensures var cleared := e.(world := e.world.PutDeadline(i, None));
            var ran := EngineRun(c, now, cleared, i, script);
            var w' := EngineDrain(c, now, ran.engine, ran.code).engine.world;
            Leads(c, now, e.world, w', i + 1, i) && CallLeaves(script, c.stages[i], None, StateOf(w', i))
  {
    hide EngineRun, EngineDrain, Leads, CallLeaves;
    DeadlineLeads(c, now, e, i, None, script);
    var ran := EngineRun(c, now, e.(world := e.world.PutDeadline(i, None)), i, script);
    var w' := EngineDrain(c, now, ran.engine, ran.code).engine.world;
    DrainLeads(c, now, ran.engine, ran.code, i + 1);
    Before(c, now, ran.engine.world, w', i + 1, |c.stages|, i);
    Looser(c, now, ran.engine.world, w', i + 1, i + 1, i);
    LeadsTwice(c, now, e.world, ran.engine.world, w', i + 1, i);
  }

  // ----- a flush -----

  /** Whatever a flush returns, the stages had their turn up to the one that failed: each is as
      the calls made to it and then its own flush, if that was due, left it. */
  lemma {:induction false} FlushLeads(c: Chain, now: uint32, e: Engine, i: nat) returns (stop: nat)
    requires e.For(c) && e.held.None? && i <= |c.stages|
    ensures var o := EngineFlush(c, now, e, i);
            && i <= stop <= |c.stages| && (if o.code < 0 then i < stop else stop == |c.stages|)
            && Swept(c, now, Flushing, e.world, o.engine.world, i, stop)
    decreases |c.stages| - i
  {
    hide EngineRun, EngineDrain, Leads, Swept, CallLeaves, TimeReached;
    if i == |c.stages| {
      stop := i;
      SweptNone(c, now, Flushing, e.world, i);
    } else if !Due(e.world, i, now) {
      stop := FlushLeads(c, now, e, i + 1);
      NoCalls(c, now, e.world, e.world, i + 1, i);
      SweptOne(c, now, Flushing, e.world, e.world, EngineFlush(c, now, e, i + 1).engine.world, i, stop);
    } else {
      var script := c.stages[i].flush(e.world.memory[i], now);
      TurnLeads(c, now, e, i, script);
      var ran := EngineRun(c, now, e.(world := e.world.PutDeadline(i, None)), i, script);
      var o := EngineDrain(c, now, ran.engine, ran.code);
      if o.code < 0 {
        stop := i + 1;
        SweptNone(c, now, Flushing, o.engine.world, i + 1);
        SweptOne(c, now, Flushing, e.world, o.engine.world, o.engine.world, i, stop);
      } else {
        stop := FlushLeads(c, now, o.engine, i + 1);
        SweptOne(c, now, Flushing, e.world, o.engine.world, EngineFlush(c, now, o.engine, i + 1).engine.world, i, stop);
      }
    }
  }

  // ----- when a flush is due -----

  /** The current time and every pending deadline lie within 2^31 ms of uptime, from `origin` on. */
  ghost predicate Near(now: uint32, deadlines: seq<Option<uint32>>, origin: uint32) {
    && Offset(now, origin) < 0x8000_0000
    && forall i | 0 <= i < |deadlines| && deadlines[i].Some? :: Offset(deadlines[i].value, origin) < 0x8000_0000
  }

  /** A deadline is reached when it is not after the current time, across the wrap of the clock. */
  lemma TimeReachedIff(now: uint32, deadline: uint32, origin: uint32)
    requires Offset(now, origin) < 0x8000_0000 && Offset(deadline, origin) < 0x8000_0000
    ensures TimeReached(now, deadline) <==> Offset(deadline, origin) <= Offset(now, origin)
  {
    hide Offset, Since;
    SinceIsDifference(now, deadline, origin);
  }

  /** Stage `i` is the first whose deadline is not after the current time; there is none when
      `i` is the number of stages. */
  ghost predicate FirstDue(now: uint32, deadlines: seq<Option<uint32>>, origin: uint32, i: nat) {
    && i <= |deadlines|
    && (forall k | 0 <= k < i && deadlines[k].Some? :: Offset(now, origin) < Offset(deadlines[k].value, origin))
    && (i < |deadlines| ==> deadlines[i].Some? && Offset(deadlines[i].value, origin) <= Offset(now, origin))
  }

  /** A flush passes over the stages whose deadline is still to come. The first whose deadline is
      not after the current time loses it and is flushed, and the flush goes on behind it unless
      that fails; with no such stage nothing happens. */
  lemma {:induction false} FlushFirst(c: Chain, now: uint32, e: Engine, from: nat, i: nat, origin: uint32)
    requires e.For(c) && from <= i <= |c.stages| && Near(now, e.world.deadlines, origin)
    requires FirstDue(now, e.world.deadlines, origin, i)
    ensures i == |c.stages| ==> EngineFlush(c, now, e, from) == EngineOutcome(e, 0)
    ensures i < |c.stages| ==>
              var cleared := e.(world := e.world.PutDeadline(i, None));
              var ran := EngineRun(c, now, cleared, i, c.stages[i].flush(e.world.memory[i], now));
              var o := EngineDrain(c, now, ran.engine, ran.code);
              EngineFlush(c, now, e, from) == if o.code < 0 then o else EngineFlush(c, now, o.engine, i + 1)
    decreases i - from
  {
    hide EngineRun, EngineDrain, TimeReached, Offset;
    if from < |c.stages| && e.world.deadlines[from].Some? {
      TimeReachedIff(now, e.world.deadlines[from].value, origin);
    }
    if from < i {
      FlushFirst(c, now, e, from + 1, i, origin);
    }
  }
}
