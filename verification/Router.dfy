/** A router: several pipelines for one kind of input, at most one of them active
    (src/core/router.c). Stages and sinks may fail to activate or deactivate at any time. */
module Router {
  import opened Bytes
  import opened Errno
  import opened PipelineEngine
  import opened PipelineStates
  import opened Pipeline
  import opened PipelineLifecycle

  type Seen = seq<(PipelineState, bool)>

  /** Every entry is followed by the leaving of the same pipeline before another entry. */
  ghost predicate Alternates(calls: Seen) {
    forall k | 0 <= k < |calls| :: Follows(calls, k)
  }

  ghost predicate Follows(calls: Seen, k: nat)
    requires k < |calls|
  {
    if calls[k].1 then k == 0 || !calls[k - 1].1
    else k > 0 && calls[k - 1] == (calls[k].0, true)
  }

  lemma FollowsStill(calls: Seen, more: (PipelineState, bool))
    requires Alternates(calls) && Follows(calls + [more], |calls|)
    ensures Alternates(calls + [more])
  {
    forall k | 0 <= k < |calls| ensures Follows(calls + [more], k) {
      assert Follows(calls, k);
    }
  }

  /** The pipeline entered last and not left. */
  ghost function Entered(calls: Seen): Option<PipelineState> {
    if calls != [] && calls[|calls| - 1].1 then Some(calls[|calls| - 1].0) else None
  }

  /** A pipeline's own view: it was entered and not left since. */
  ghost predicate ActiveIn(calls: Seen, p: PipelineState) {
    calls != [] &&
    if calls[|calls| - 1].0 == p then calls[|calls| - 1].1 else ActiveIn(calls[..|calls| - 1], p)
  }

  /** In a log whose entries and leavings alternate, at most one pipeline is active at a time:
      the one entered last. */
  lemma {:induction false} OneActive(calls: Seen, p: PipelineState)
    requires Alternates(calls)
    ensures ActiveIn(calls, p) <==> Entered(calls) == Some(p)
    decreases |calls|
  {
    if calls != [] {
      var before := calls[..|calls| - 1];
      assert Follows(calls, |calls| - 1);
      forall k | 0 <= k < |before| ensures Follows(before, k) {
        assert Follows(calls, k);
      }
      OneActive(before, p);
    }
  }

  lemma Enters(calls: Seen, p: PipelineState)
    requires Alternates(calls) && Entered(calls) == None
    ensures Alternates(calls + [(p, true)]) && Entered(calls + [(p, true)]) == Some(p)
  {
    FollowsStill(calls, (p, true));
  }

  lemma Leaves(calls: Seen, p: PipelineState)
    requires Alternates(calls) && Entered(calls) == Some(p)
    ensures Alternates(calls + [(p, false)]) && Entered(calls + [(p, false)]) == None
  {
    FollowsStill(calls, (p, false));
  }

  class Router {
    const inputKind: nat
    const pipelines: seq<PipelineState>
    const defaultIndex: nat
    const observer: Observer
    var activeIndex: Option<nat>
    var active: bool

    /** What validation established, and the pipelines' own invariants. */
    ghost predicate Ready()
      reads this, pipelines
    {
      && defaultIndex < |pipelines|
      && (forall i, j | 0 <= i < j < |pipelines| :: pipelines[i] != pipelines[j])
      && (forall i | 0 <= i < |pipelines| :: Consistent(pipelines[i]) && pipelines[i].validated)
    }

    /** Exactly this pipeline is active, the one entered last, or none is. */
    ghost predicate Only(index: Option<nat>)
      reads this, pipelines, observer
    {
      && Ready() && (index.Some? ==> index.value < |pipelines|)
      && (forall i | 0 <= i < |pipelines| :: pipelines[i].active <==> index == Some(i))
      && Alternates(observer.calls)
      && Entered(observer.calls) == (match index { case Some(i) => Some(pipelines[i]) case None => None })
    }

    /** At most one pipeline is active: the one the index names, the one entered last. */
    ghost predicate Valid()
      reads this, pipelines, observer
    {
      Only(activeIndex) && (activeIndex.Some? ==> active)
    }

    constructor (inputKind: nat, pipelines: seq<PipelineState>, defaultIndex: nat, observer: Observer)
      requires defaultIndex < |pipelines| && observer.calls == []
      requires forall i, j | 0 <= i < j < |pipelines| :: pipelines[i] != pipelines[j]
      requires forall i | 0 <= i < |pipelines| :: Consistent(pipelines[i]) && pipelines[i].validated && !pipelines[i].active
      ensures Valid() && !active && activeIndex == None && this.observer == observer
      ensures this.pipelines == pipelines && this.defaultIndex == defaultIndex && this.inputKind == inputKind
    {
      this.inputKind, this.pipelines, this.defaultIndex, this.observer := inputKind, pipelines, defaultIndex, observer;
      activeIndex, active := None, false;
    }

    method Enter(i: nat) returns (code: Code)
      requires Only(None) && i < |pipelines|
      modifies pipelines, observer
      ensures Only(if code == 0 then Some(i) else None)
      ensures code == old(Activating(pipelines[i])).code
      ensures observer.calls == (if code == 0 then old(observer.calls) + [(pipelines[i], true)] else old(observer.calls))
      ensures forall k | 0 <= k < |pipelines| && k != i :: unchanged(pipelines[k])
    {
      hide Alternates, Entered, PipelineLifecycle.Activate;
      Enters(observer.calls, pipelines[i]);
      code := ActivatePipeline(pipelines[i], observer);
    }

    method Leave(i: nat, now: uint32) returns (code: Code, result: Result)
      requires i < |pipelines| && Only(Some(i))
      modifies pipelines, observer
      ensures Only(None)
      ensures Activation(pipelines[i].memory, pipelines[i].sink, code) == Deactivating(pipelines[i].chain, now, old(pipelines[i].Start()))
      ensures observer.calls == old(observer.calls) + [(pipelines[i], false)]
      ensures forall k | 0 <= k < |pipelines| && k != i :: unchanged(pipelines[k])
    {
      hide Alternates, Entered, Deactivating;
      Leaves(observer.calls, pipelines[i]);
      code, result := DeactivatePipeline(pipelines[i], now, observer);
    }

    /** `zpt_router_activate`: the default pipeline, or nothing. */
    method Activate() returns (code: Code)
      requires Valid()
      modifies this, pipelines, observer
      ensures Valid()
      ensures old(active) ==> code == EALREADY && activeIndex == old(activeIndex) && active && observer.calls == old(observer.calls)
      ensures !old(active) ==>
                && code == old(Activating(pipelines[defaultIndex])).code && active == (code == 0)
                && activeIndex == (if code == 0 then Some(defaultIndex) else None)
                && observer.calls == if active then old(observer.calls) + [(pipelines[defaultIndex], true)] else old(observer.calls)
    {
      if active {
        return EALREADY;
      }
      code := Enter(defaultIndex);
      if code < 0 {
        return;
      }
      activeIndex := Some(defaultIndex);
      active := true;
    }

    /** `zpt_router_select`: leave the active pipeline, then enter another. When that fails the
        one left is entered again; when even that fails, none is active. */
    method Select(index: nat, now: uint32) returns (code: Code, result: Result)
      requires Valid()
      modifies this, pipelines, observer
      ensures Valid() && active == old(active)
      ensures index >= |pipelines| ==> code == EINVAL
      ensures index < |pipelines| && !active ==> code == EACCES
      ensures index < |pipelines| && active && old(activeIndex) == Some(index) ==> code == 0
      ensures index >= |pipelines| || !active || old(activeIndex) == Some(index) ==>
                activeIndex == old(activeIndex) && observer.calls == old(observer.calls)
      ensures index < |pipelines| && active && old(activeIndex) != Some(index) ==>
                Selected(old(activeIndex), activeIndex, index, old(observer.calls), observer.calls, code,
                         old(Leaving(now)), old(Activating(pipelines[index])).code, old(Restoring(now)))
    {
      result := Result(0, 0);
      if index >= |pipelines| {
        return EINVAL, result;
      }
      if !active {
        return EACCES, result;
      }
      if activeIndex == Some(index) {
        return 0, result;
      }
      code, result := Switch(index, now);
    }

    method Switch(index: nat, now: uint32) returns (code: Code, result: Result)
      requires Valid() && active && index < |pipelines| && activeIndex != Some(index)
      modifies this`activeIndex, pipelines, observer
      ensures Valid()
      ensures Selected(old(activeIndex), activeIndex, index, old(observer.calls), observer.calls, code,
                       old(Leaving(now)), old(Activating(pipelines[index])).code, old(Restoring(now)))
    {
      hide Alternates, Entered, ActiveIn, Follows, Consistent, PipelineLifecycle.Activate, Deactivating, Switched;
      result := Result(0, 0);
      var first: Code := 0;
      var previous := activeIndex;
      if previous.Some? {
        first, result := Leave(previous.value, now);
      } else {
        assert observer.calls + Left(previous) == observer.calls;
      }
      var failed, entered := EnterOrRestore(index, previous);
      activeIndex := entered;
      code := if failed < 0 then failed else first;
    }

    /** Enters a pipeline, or else the one that was just left, or else none. */
    method EnterOrRestore(index: nat, previous: Option<nat>) returns (code: Code, activated: Option<nat>)
      requires Only(None) && index < |pipelines| && (previous.Some? ==> previous.value < |pipelines| && previous.value != index)
      modifies pipelines, observer
      ensures Only(activated) && (code < 0 <==> old(Activating(pipelines[index])).code < 0)
      ensures Switched(previous, activated, index, old(observer.calls), observer.calls, code, old(Activating(pipelines[index])).code,
                       if previous.Some? then old(Activating(pipelines[previous.value])).code else 0)
    {
      hide Alternates, Entered, PipelineLifecycle.Activate;
      code := Enter(index);
      if code == 0 {
        return code, Some(index);
      }
      activated := None;
      if previous.Some? {
        var restored := Enter(previous.value);
        if restored < 0 {
          return restored, None;
        }
        activated := previous;
      }
    }

    /** Entering succeeds; or the pipeline left is restored; or that fails too and none is active. */
    ghost predicate Switched(was: Option<nat>, now: Option<nat>, index: nat, left: Seen, after: Seen, code: Code,
                             entering: Code, restoring: Code)
      requires index < |pipelines| && (was.Some? ==> was.value < |pipelines|)
    {
      if entering == 0 then
        now == Some(index) && code == 0 && after == left + [(pipelines[index], true)]
      else if was.None? then
        now == None && code == entering && after == left
      else if restoring == 0 then
        now == was && code == entering && after == left + [(pipelines[was.value], true)]
      else
        now == None && code == restoring && after == left
    }

    /** How leaving the active pipeline would go. */
    ghost function Leaving(now: uint32): Code
      reads this, pipelines
      requires Ready() && (activeIndex.Some? ==> activeIndex.value < |pipelines|)
    {
      match activeIndex
      case Some(i) => Deactivating(pipelines[i].chain, now, pipelines[i].Start()).code
      case None => 0
    }

    /** How entering it again afterwards would go. */
    ghost function Restoring(now: uint32): Code
      reads this, pipelines
      requires Ready() && (activeIndex.Some? ==> activeIndex.value < |pipelines|)
    {
      match activeIndex
      case Some(i) =>
        var left := Deactivating(pipelines[i].chain, now, pipelines[i].Start());
        PipelineLifecycle.Activate(pipelines[i].chain, left.memory, left.sink).code
      case None => 0
    }

    /** One switch: the active pipeline is left, and then entering the other one succeeds,
        whatever leaving returned, or not. */
    ghost predicate Selected(was: Option<nat>, now: Option<nat>, index: nat, before: Seen, after: Seen, code: Code,
                             leaving: Code, entering: Code, restoring: Code)
      requires index < |pipelines| && (was.Some? ==> was.value < |pipelines|)
    {
      && Switched(was, now, index, before + Left(was), after, if entering == 0 then 0 else code, entering, restoring)
      && (entering == 0 ==> code == leaving)
    }

    ghost function Left(was: Option<nat>): Seen
      requires was.Some? ==> was.value < |pipelines|
    {
      match was
      case Some(i) => [(pipelines[i], false)]
      case None => []
    }

    /** `zpt_router_deactivate`. */
    method Deactivate(now: uint32) returns (code: Code, result: Result)
      requires Valid()
      modifies this, pipelines, observer
      ensures Valid() && !active && activeIndex == None
      ensures !old(active) ==> code == EALREADY && observer.calls == old(observer.calls)
      ensures old(active) ==> code == old(Leaving(now))
      ensures old(active) ==>
                observer.calls == old(observer.calls) + Left(old(activeIndex))
    {
      result := Result(0, 0);
      if !active {
        return EALREADY, result;
      }
      code := 0;
      if activeIndex.Some? {
        code, result := Leave(activeIndex.value, now);
      }
      activeIndex := None;
      active := false;
    }

    /** `zpt_router_push`: to the active pipeline. */
    method RoutePush(signal: Signal, observedAt: uint32) returns (code: Code, result: Result, ghost calls: seq<(nat, Signal)>)
      requires Valid()
      modifies pipelines
      ensures Valid() && activeIndex == old(activeIndex)
      ensures signal.kind != inputKind || activeIndex.None? ==>
                code == (if signal.kind != inputKind then EPROTOTYPE else EACCES) && calls == [] && result == Result(0, 0)
      ensures signal.kind == inputKind && activeIndex.Some? ==>
                var p := pipelines[activeIndex.value];
                signal.kind == p.chain.inputKind ==>
                  && Ended(EnginePush(p.chain, observedAt, old(p.Start()), signal), code, result, calls, p)
                  && (!PushLoses(p.chain, observedAt, old(p.Start()), signal) ==>
                        AsNested(Dispatch(p.chain, observedAt, old(p.Start()), 0, signal), code, result, calls, p))
      ensures forall k | 0 <= k < |pipelines| && activeIndex != Some(k) :: unchanged(pipelines[k])
    {
      hide Ended, EnginePush, PushLoses, Dispatch, AsNested, Leads;
      result, calls := Result(0, 0), [];
      if signal.kind != inputKind {
        return EPROTOTYPE, result, calls;
      }
      if activeIndex.None? {
        return EACCES, result, calls;
      }
      code, result, calls := Push(pipelines[activeIndex.value], signal, observedAt);
    }

    /** `zpt_router_flush`: of the active pipeline. */
    method RouteFlush(now: uint32) returns (code: Code, result: Result, ghost calls: seq<(nat, Signal)>)
      requires Valid()
      modifies pipelines
      ensures Valid() && activeIndex == old(activeIndex)
      ensures activeIndex.None? ==> code == EACCES && calls == [] && result == Result(0, 0)
      ensures activeIndex.Some? ==>
                var p := pipelines[activeIndex.value];
                && Ended(EngineFlush(p.chain, now, Engine(old(p.Start()), None), 0), code, result, calls, p)
                && (!FlushLoses(p.chain, now, Engine(old(p.Start()), None), 0) ==>
                      AsNested(Flush(p.chain, now, old(p.Start()), 0), code, result, calls, p))
      ensures forall k | 0 <= k < |pipelines| && activeIndex != Some(k) :: unchanged(pipelines[k])
    {
      hide Ended, EngineFlush, FlushLoses, Flush, AsNested, FlushedUpTo;
      result, calls := Result(0, 0), [];
      if activeIndex.None? {
        return EACCES, result, calls;
      }
      code, result, calls := FlushDue(pipelines[activeIndex.value], now);
    }
  }
}
