/** What a pipeline or a router must look like before it runs (src/core/pipeline.c,
    src/core/router.c): every stage takes what the one before it emits, and a stage and a sink
    belong to one pipeline each. Stage memory does not have to: see the end of the module. */
module PipelineValidation {
  import opened Bytes
  import opened Errno
  import opened PipelineEngine

  /** `struct zpt_stage_api`; an absent string is a null pointer. */
  datatype Api = Api(strategyId: Option<string>, accepted: set<nat>, output: nat, stateful: bool, hasProcess: bool, hasFlush: bool)

  datatype SinkApi = SinkApi(typeId: Option<string>, accepted: set<nat>, hasEmit: bool)

  predicate Named(id: Option<string>) {
    id.Some? && id.value != ""
  }

  /** `struct zpt_stage`; `state` is the address of its memory. */
  class Stage {
    const stableId: Option<string>
    const api: Option<Api>
    const state: Option<nat>
    var owner: Pipeline?
    var deadline: Option<uint32>

    constructor (stableId: Option<string>, api: Option<Api>, state: Option<nat>)
      ensures owner == null && deadline == None && this.stableId == stableId && this.api == api && this.state == state
    {
      this.stableId, this.api, this.state := stableId, api, state;
      owner, deadline := null, None;
    }
  }

  class Sink {
    const stableId: Option<string>
    const api: Option<SinkApi>
    var owner: Pipeline?

    constructor (stableId: Option<string>, api: Option<SinkApi>)
      ensures owner == null && this.stableId == stableId && this.api == api
    {
      this.stableId, this.api, owner := stableId, api, null;
    }
  }

  class Pipeline {
    const stableId: Option<string>
    const inputKind: nat
    const stages: seq<Stage?>
    const sink: Sink?
    const budget: nat
    var validated: bool
    var active: bool

    constructor (stableId: Option<string>, inputKind: nat, stages: seq<Stage?>, sink: Sink?, budget: nat)
      ensures !validated && !active && this.stages == stages && this.sink == sink
      ensures this.stableId == stableId && this.inputKind == inputKind && this.budget == budget
    {
      this.stableId, this.inputKind, this.stages, this.sink, this.budget := stableId, inputKind, stages, sink, budget;
      validated, active := false, false;
    }

    // ----- what is required -----

    predicate IdentityFits() {
      Named(stableId) && KindValid(inputKind) && budget > 0
    }

    predicate SinkComplete() {
      && sink != null && sink.stableId.Some? && sink.api.Some?
      && Named(sink.api.value.typeId) && sink.api.value.hasEmit
    }

    predicate StageComplete(i: nat)
      requires i < |stages|
    {
      && stages[i] != null && Named(stages[i].stableId) && stages[i].api.Some?
      && (stages[i].api.value.stateful ==> stages[i].state.Some?)
      && var api := stages[i].api.value;
         Named(api.strategyId) && api.hasProcess && KindValid(api.output)
    }

    function ApiAt(i: nat): Api
      requires i < |stages| && StageComplete(i)
    {
      stages[i].api.value
    }

    function IdAt(i: nat): Option<string>
      requires i < |stages| && StageComplete(i)
    {
      stages[i].stableId
    }

    function StateAt(i: nat): Option<nat>
      requires i < |stages| && StageComplete(i)
    {
      stages[i].state
    }

    /** The kind stage `i`, or the sink, is handed. */
    ghost function KindAt(i: nat): nat
      requires i <= |stages| && forall k | 0 <= k < i :: StageComplete(k)
    {
      if i == 0 then inputKind else ApiAt(i - 1).output
    }

    /** Two stages with different names; the later one shares no memory if it is stateful. */
    ghost predicate Apart(j: nat, i: nat)
      requires j < i < |stages| && StageComplete(j) && StageComplete(i)
    {
      && IdAt(j) != IdAt(i)
      && (ApiAt(i).stateful ==> StateAt(j) != StateAt(i))
    }

    /** The first `n` stages are complete, fit together, and are apart. */
    ghost predicate StagesFit(n: nat)
      requires n <= |stages|
    {
      && (forall i | 0 <= i < n :: StageComplete(i))
      && (forall i | 0 <= i < n :: Accepts(ApiAt(i).accepted, KindAt(i)))
      && (forall j, i | 0 <= j < i < n :: Apart(j, i))
    }

    ghost predicate WellFormed() {
      && IdentityFits() && SinkComplete() && StagesFit(|stages|)
      && Accepts(sink.api.value.accepted, KindAt(|stages|))
      && forall i | 0 <= i < |stages| :: IdAt(i) != sink.stableId
    }

    /** No other pipeline owns the first `n` stages. */
    ghost predicate Free(n: nat)
      reads stages
      requires n <= |stages|
    {
      forall i | 0 <= i < n :: stages[i] != null && (stages[i].owner == null || stages[i].owner == this)
    }

    ghost predicate SinkFree()
      reads sink
    {
      sink != null && (sink.owner == null || sink.owner == this)
    }

    // ----- the codes of a refusal -----

    /** The first earlier stage in conflict decides: the same name, or else the same memory. */
    ghost predicate ConflictCode(index: nat, ret: Code)
      requires index < |stages| && forall k | 0 <= k <= index :: StageComplete(k)
    {
      exists j | 0 <= j < index :: !Apart(j, index) && (forall k | 0 <= k < j :: Apart(k, index))
        && ret == if IdAt(j) == IdAt(index) then EEXIST else EBUSY
    }

    ghost predicate LinkCode(index: nat, ret: Code)
      reads stages
      requires index < |stages| && StagesFit(index)
    {
      if !StageComplete(index) || !Accepts(ApiAt(index).accepted, KindAt(index)) then ret == EINVAL
      else if stages[index].owner != null && stages[index].owner != this then ret == EBUSY
      else ConflictCode(index, ret)
    }

    ghost predicate RefusedAt(index: nat)
      reads stages
      requires index < |stages|
    {
      StagesFit(index) && Free(index) && !(StagesFit(index + 1) && Free(index + 1))
    }

    /** The first check that fails decides. */
    ghost predicate StructureCode(ret: Code)
      reads stages, sink
    {
      if !IdentityFits() || !SinkComplete() then ret == EINVAL
      else if !SinkFree() then ret == EBUSY
      else if StagesFit(|stages|) && Free(|stages|) then
        ret == if Accepts(sink.api.value.accepted, KindAt(|stages|)) then EEXIST else EPROTOTYPE
      else
        exists index | 0 <= index < |stages| :: RefusedAt(index) && LinkCode(index, ret)
    }

    // ----- the checks -----

    method ValidateIdentity() returns (ret: Code)
      ensures ret == if IdentityFits() then 0 else EINVAL
    {
      if !Named(stableId) || !KindValid(inputKind) || budget == 0 {
        return EINVAL;
      }
      return 0;
    }

    method ValidateSink() returns (ret: Code)
      ensures ret == if !SinkComplete() then EINVAL else if !SinkFree() then EBUSY else 0
    {
      if sink == null || sink.stableId.None? || sink.api.None? || !Named(sink.api.value.typeId) || !sink.api.value.hasEmit {
        return EINVAL;
      }
      if sink.owner != null && sink.owner != this {
        return EBUSY;
      }
      return 0;
    }

    method FindStageLinkConflict(index: nat) returns (ret: Code)
      requires index < |stages| && forall k | 0 <= k <= index :: StageComplete(k)
      ensures ret == 0 <==> forall j | 0 <= j < index :: Apart(j, index)
      ensures ret != 0 ==> ConflictCode(index, ret)
    {
      for previous := 0 to index
        invariant forall j | 0 <= j < previous :: Apart(j, index)
      {
        if IdAt(previous) == IdAt(index) {
          assert !Apart(previous, index);
          return EEXIST;
        }
        if ApiAt(index).stateful && StateAt(previous) == StateAt(index) {
          assert !Apart(previous, index);
          return EBUSY;
        }
      }
      return 0;
    }

    method ValidateStageLink(index: nat, currentKind: nat) returns (ret: Code)
      requires index < |stages| && StagesFit(index) && Free(index) && currentKind == KindAt(index)
      ensures ret == 0 <==> StagesFit(index + 1) && Free(index + 1)
      ensures ret != 0 ==> LinkCode(index, ret)
    {
      assert StagesFit(index + 1) ==> StageComplete(index) && Accepts(ApiAt(index).accepted, KindAt(index));
      var stage := stages[index];
      if stage == null || !Named(stage.stableId) || stage.api.None? {
        return EINVAL;
      }
      var api := stage.api.value;
      if !Named(api.strategyId) || !api.hasProcess || !KindValid(api.output) || !Accepts(api.accepted, currentKind) {
        return EINVAL;
      }
      if api.stateful && stage.state.None? {
        return EINVAL;
      }
      if stage.owner != null && stage.owner != this {
        return EBUSY;
      }
      ret := FindStageLinkConflict(index);
    }

    method ValidateStructure() returns (ret: Code)
      ensures ret == 0 <==> WellFormed() && Free(|stages|) && SinkFree()
      ensures ret != 0 ==> StructureCode(ret)
    {
      ret := ValidateIdentity();
      if ret < 0 {
        return;
      }
      ret := ValidateSink();
      if ret < 0 {
        return;
      }
      var currentKind := inputKind;
      for index := 0 to |stages|
        invariant StagesFit(index) && Free(index) && currentKind == KindAt(index)
      {
        ret := ValidateStageLink(index, currentKind);
        if ret < 0 {
          return;
        }
        currentKind := ApiAt(index).output;
      }
      if !Accepts(sink.api.value.accepted, currentKind) {
        return EPROTOTYPE;
      }
      for index := 0 to |stages|
        invariant forall k | 0 <= k < index :: IdAt(k) != sink.stableId
      {
        if IdAt(index) == sink.stableId {
          return EEXIST;
        }
      }
      ret := 0;
    }

    /** What validating establishes and keeps. */
    ghost predicate Owns()
      reads this, stages, sink
    {
      validated ==>
        && WellFormed() && sink.owner == this
        && forall i | 0 <= i < |stages| :: OwnedAt(i)
    }

    ghost predicate OwnedAt(i: nat)
      reads stages
      requires i < |stages| && StageComplete(i)
    {
      stages[i].owner == this
    }

    /** `zpt_pipeline_validate`: accepts exactly the well-formed pipelines whose parts are free,
        and changes nothing otherwise; what other pipelines own stays theirs. */
    method Validate() returns (ret: Code)
      requires Owns()
      modifies this`validated, this`active, stages, sink
      ensures Owns()
      ensures old(validated) ==> ret == EALREADY
      ensures !old(validated) ==> (ret == 0 <==> WellFormed() && old(Free(|stages|)) && old(SinkFree()))
      ensures !old(validated) ==> validated == (ret == 0) && (ret != 0 ==> old(StructureCode(ret)))
      ensures ret == 0 ==> !active && forall i | 0 <= i < |stages| :: stages[i] != null && stages[i].deadline == None
      ensures ret != 0 ==> unchanged(this) && (sink != null ==> unchanged(sink))
      ensures ret != 0 ==> forall i | 0 <= i < |stages| && stages[i] != null :: unchanged(stages[i])
      ensures forall q: Pipeline | old(allocated(q)) && q != this && old(q.Owns()) :: q.Owns()
    {
      if validated {
        return EALREADY;
      }
      ret := ValidateStructure();
      if ret < 0 {
        return;
      }
      Take();
    }

    /** Take the parts of a pipeline found to be well formed. */
    method Take()
      requires WellFormed() && Free(|stages|) && SinkFree()
      modifies this`validated, this`active, stages, sink
      ensures Owns() && validated && !active
      ensures forall i | 0 <= i < |stages| :: stages[i] != null && stages[i].deadline == None
      ensures forall q: Pipeline | old(allocated(q)) && q != this && old(q.Owns()) :: q.Owns()
    {
      hide KindAt, Accepts, Apart;
      TakeStages();
      sink.owner := this;
      validated := true;
      active := false;
      forall q: Pipeline | old(allocated(q)) && q != this && old(q.Owns()) ensures q.Owns() {
        if q.validated {
          forall i | 0 <= i < |q.stages| ensures q.OwnedAt(i) {
            assert q.StageComplete(i);
            var part: Stage := q.stages[i];
            assert old(allocated(part)) && old(part.owner) == q by {
              assert old(q.OwnedAt(i));
            }
          }
        }
      }
    }

    method TakeStages()
      requires Free(|stages|) && forall i | 0 <= i < |stages| :: StageComplete(i)
      modifies stages
      ensures forall i | 0 <= i < |stages| :: OwnedAt(i) && stages[i].deadline == None
      ensures forall part: Stage | old(allocated(part)) && old(part.owner) != null && old(part.owner) != this ::
                part.owner == old(part.owner)
    {
      for index := 0 to |stages|
        invariant forall k | 0 <= k < index :: OwnedAt(k) && stages[k].deadline == None
        invariant forall part: Stage | old(allocated(part)) && old(part.owner) != null && old(part.owner) != this ::
                    part.owner == old(part.owner)
      {
        assert StageComplete(index);
        stages[index].owner := this;
        stages[index].deadline := None;
      }
    }
  }

  // ----- routers -----

  class RouterDescription {
    const stableId: Option<string>
    const inputKind: nat
    const pipelines: seq<Pipeline?>
    const defaultIndex: nat
    var validated: bool

    constructor (stableId: Option<string>, inputKind: nat, pipelines: seq<Pipeline?>, defaultIndex: nat)
      ensures !validated && this.pipelines == pipelines && this.defaultIndex == defaultIndex && this.inputKind == inputKind
    {
      this.stableId, this.inputKind, this.pipelines, this.defaultIndex := stableId, inputKind, pipelines, defaultIndex;
      validated := false;
    }

    predicate PipelineFits(i: nat)
      requires i < |pipelines|
    {
      pipelines[i] != null && Named(pipelines[i].stableId) && pipelines[i].inputKind == inputKind
    }

    ghost predicate Differ(j: nat, i: nat)
      requires j < i < |pipelines| && PipelineFits(j) && PipelineFits(i)
    {
      pipelines[j].stableId != pipelines[i].stableId
    }

    /** The first `n` pipelines take the router's input and have names of their own. */
    ghost predicate PipelinesFit(n: nat)
      requires n <= |pipelines|
    {
      && (forall i | 0 <= i < n :: PipelineFits(i))
      && (forall j, i | 0 <= j < i < n :: Differ(j, i))
    }

    ghost predicate WellFormed() {
      && Named(stableId) && KindValid(inputKind) && defaultIndex < |pipelines| && PipelinesFit(|pipelines|)
    }

    ghost predicate Fresh(n: nat)
      reads pipelines
      requires n <= |pipelines|
    {
      forall i | 0 <= i < n :: pipelines[i] != null && !pipelines[i].validated
    }

    ghost predicate PipelineCode(index: nat, ret: Code)
      reads pipelines
      requires index < |pipelines|
    {
      ret == if !PipelineFits(index) then EINVAL else if pipelines[index].validated then EBUSY else EEXIST
    }

    ghost predicate RefusedAt(index: nat)
      reads pipelines
      requires index < |pipelines|
    {
      PipelinesFit(index) && Fresh(index) && !(PipelinesFit(index + 1) && Fresh(index + 1))
    }

    /** The first pipeline refused decides. */
    ghost predicate StructureCode(ret: Code)
      reads pipelines
    {
      if !(Named(stableId) && KindValid(inputKind) && defaultIndex < |pipelines|) then ret == EINVAL
      else
        exists index | 0 <= index < |pipelines| :: RefusedAt(index) && PipelineCode(index, ret)
    }

    method ValidateRouterPipeline(index: nat) returns (ret: Code)
      requires index < |pipelines| && PipelinesFit(index) && Fresh(index)
      ensures ret == 0 <==> PipelinesFit(index + 1) && Fresh(index + 1)
      ensures ret != 0 ==> PipelineCode(index, ret)
    {
      assert PipelinesFit(index + 1) ==> PipelineFits(index);
      var pipeline := pipelines[index];
      if pipeline == null || !Named(pipeline.stableId) || pipeline.inputKind != inputKind {
        return EINVAL;
      }
      if pipeline.validated {
        return EBUSY;
      }
      for previous := 0 to index
        invariant forall j | 0 <= j < previous :: Differ(j, index)
      {
        assert PipelineFits(previous);
        if pipelines[previous].stableId == pipeline.stableId {
          assert !Differ(previous, index);
          return EEXIST;
        }
      }
      return 0;
    }

    method ValidateStructure() returns (ret: Code)
      ensures ret == 0 <==> WellFormed() && Fresh(|pipelines|)
      ensures ret != 0 ==> StructureCode(ret)
    {
      if !Named(stableId) || !KindValid(inputKind) || |pipelines| == 0 || defaultIndex >= |pipelines| {
        return EINVAL;
      }
      for index := 0 to |pipelines|
        invariant PipelinesFit(index) && Fresh(index)
      {
        ret := ValidateRouterPipeline(index);
        if ret < 0 {
          return;
        }
      }
      ret := 0;
    }

    /** `parts` holds everything validation may take. */
    ghost predicate Within(parts: set<object>) {
      forall i | 0 <= i < |pipelines| && pipelines[i] != null :: Covers(parts, pipelines[i])
    }

    /** `zpt_router_validate`: nothing changes unless the router is well formed and its pipelines
        are new; then they are validated one after the other, and those before one that fails
        stay validated. */
    method Validate(ghost parts: set<object>) returns (ret: Code, count: nat)
      requires Within(parts) && this !in parts
      requires forall i | 0 <= i < |pipelines| && pipelines[i] != null :: pipelines[i].Owns()
      modifies this, parts
      ensures forall i | 0 <= i < |pipelines| && pipelines[i] != null :: pipelines[i].Owns()
      ensures old(validated) ==> ret == EALREADY && validated && forall o <- parts :: unchanged(o)
      ensures !old(validated) ==> validated == (ret == 0)
      ensures !old(validated) && !(WellFormed() && old(Fresh(|pipelines|))) ==>
                ret != 0 && old(StructureCode(ret)) && forall o <- parts :: unchanged(o)
      ensures !old(validated) && WellFormed() && old(Fresh(|pipelines|)) ==>
                && count <= |pipelines| && (ret == 0 <==> count == |pipelines|)
                && (ret != 0 ==> pipelines[count] != null && pipelines[count].StructureCode(ret))
                && forall i | 0 <= i < |pipelines| :: PipelineFits(i) && (pipelines[i].validated <==> i < count)
    {
      count := 0;
      if validated {
        return EALREADY, 0;
      }
      ret := ValidateStructure();
      if ret < 0 {
        return;
      }
      assert forall i | 0 <= i < |pipelines| :: PipelineFits(i);
      forall j, i | 0 <= j < i < |pipelines| ensures pipelines[j] != pipelines[i] {
        assert Differ(j, i);
      }
      ret, count := ValidateEach(parts);
      validated := ret == 0;
    }

    /** Validate the pipelines one after the other, up to one that fails. */
    method ValidateEach(ghost parts: set<object>) returns (ret: Code, count: nat)
      requires Within(parts) && this !in parts
      requires forall i | 0 <= i < |pipelines| :: pipelines[i] != null && pipelines[i].Owns() && !pipelines[i].validated
      requires forall j, i | 0 <= j < i < |pipelines| :: pipelines[j] != pipelines[i]
      modifies parts
      ensures count <= |pipelines| && (ret == 0 <==> count == |pipelines|)
      ensures ret != 0 ==> pipelines[count] != null && pipelines[count].StructureCode(ret)
      ensures forall i | 0 <= i < |pipelines| :: pipelines[i] != null && pipelines[i].Owns()
      ensures forall i | 0 <= i < |pipelines| :: pipelines[i] != null && (pipelines[i].validated <==> i < count)
    {
      count := 0;
      ret := 0;
      while count < |pipelines|
        invariant count <= |pipelines| && ret == 0
        invariant forall i | 0 <= i < |pipelines| :: pipelines[i] != null && pipelines[i].Owns()
        invariant forall i | 0 <= i < |pipelines| :: pipelines[i] != null && (pipelines[i].validated <==> i < count)
      {
        assert Covers(parts, pipelines[count]);
        ret := pipelines[count].Validate();
        if ret < 0 {
          return;
        }
        count := count + 1;
      }
    }
  }

  ghost predicate Covers(parts: set<object>, p: Pipeline) {
    && p in parts && (p.sink != null ==> p.sink in parts)
    && forall i | 0 <= i < |p.stages| && p.stages[i] != null :: p.stages[i] in parts
  }

  // ----- what it is for -----

  /** Stages of a well-formed pipeline are different objects, and two of them share memory only
      if the later is stateless; two stateful ones never do. */
  lemma StagesDistinct(p: Pipeline, j: nat, i: nat)
    requires p.WellFormed() && j < i < |p.stages|
    ensures p.stages[j] != p.stages[i]
    ensures p.StateAt(j) == p.StateAt(i) ==> !p.ApiAt(i).stateful
  {
    assert p.StageComplete(i) && p.StageComplete(j) && p.Apart(j, i);
  }

  /** Validated pipelines share no stage and no sink. */
  lemma OwnedOnce(p: Pipeline, q: Pipeline)
    requires p.validated && q.validated && p.Owns() && q.Owns() && p != q
    ensures p.sink != q.sink
    ensures forall i, j | 0 <= i < |p.stages| && 0 <= j < |q.stages| :: p.stages[i] != q.stages[j]
  {
    forall i, j | 0 <= i < |p.stages| && 0 <= j < |q.stages| ensures p.stages[i] != q.stages[j] {
      assert p.OwnedAt(i) && q.OwnedAt(j);
    }
  }

  /** `c` is what the engine runs for `p`. */
  ghost predicate Describes(p: Pipeline, c: Chain)
    requires p.WellFormed()
  {
    && c.inputKind == p.inputKind && c.budget == p.budget && |c.stages| == |p.stages|
    && c.sinkAccepted == p.sink.api.value.accepted
    && forall i | 0 <= i < |p.stages| ::
         var api := p.ApiAt(i);
         && c.stages[i].accepted == api.accepted && c.stages[i].output == api.output
         && c.stages[i].stateful == api.stateful && c.stages[i].hasFlush == api.hasFlush
  }

  /** No signal is ever refused for its kind in a well-formed pipeline: nothing a push dispatches
      meets a stage or sink that doesn't take it, and its budget is what was spent and what is
      left, whatever the stages do. */
  lemma WellFormedIsSound(p: Pipeline, c: Chain, now: uint32, w: World, signal: Signal)
    requires p.WellFormed() && Describes(p, c) && w.For(c) && signal.kind == p.inputKind
    requires w.remaining == c.budget && w.dispatches == 0 && w.outputs == 0 && !w.mismatch
    ensures Compatible(c)
    ensures var first := EngineDispatch(c, now, Engine(w, None), 0, signal);
            var o := EngineDrain(c, now, first.engine, first.code);
            && !o.engine.world.mismatch && AllCalled(w, o.engine.world)
            && o.engine.world.dispatches + o.engine.world.remaining == p.budget
  {
    hide EngineDispatch, EngineDrain;
    WellFormedCompatible(p, c);
    PushSound(c, now, w, signal, true);
  }

  lemma WellFormedCompatible(p: Pipeline, c: Chain)
    requires p.WellFormed() && Describes(p, c)
    ensures Compatible(c) && c.budget > 0
  {
    forall i | 0 <= i < |c.stages| ensures Accepts(c.stages[i].accepted, KindInto(c, i)) {
      assert p.StageComplete(i) && (i > 0 ==> p.StageComplete(i - 1));
      assert Accepts(p.ApiAt(i).accepted, p.KindAt(i));
    }
    assert |c.stages| > 0 ==> p.StageComplete(|c.stages| - 1);
  }

  // ----- stage memory -----

  /** A stateful stage of `p` keeps its state at `address`. */
  ghost predicate Keeps(p: Pipeline, address: nat)
    requires p.WellFormed()
  {
    exists i | 0 <= i < |p.stages| :: p.ApiAt(i).stateful && p.StateAt(i) == Some(address)
  }

  /** A stage of `p`, stateful or not, is given `address`. */
  ghost predicate Names(p: Pipeline, address: nat)
    requires p.WellFormed()
  {
    exists i | 0 <= i < |p.stages| :: p.StateAt(i) == Some(address)
  }

  ghost predicate Stateful(p: Pipeline, i: nat)
    requires p.WellFormed() && i < |p.stages|
  {
    p.ApiAt(i).stateful
  }

  /** Stage `i` of `p` and stage `j` of `q` are given the same memory. */
  ghost predicate SameMemory(p: Pipeline, i: nat, q: Pipeline, j: nat)
    requires p.WellFormed() && q.WellFormed() && i < |p.stages| && j < |q.stages|
  {
    p.StateAt(i) == q.StateAt(j)
  }

  /** Across well-formed pipelines, the state of a stateful stage belongs to one pipeline if and
      only if no stage of another is given its address; validation checks neither. */
  lemma MemoryOwnedIff(pipelines: seq<Pipeline>)
    requires forall p <- pipelines :: p.WellFormed()
    ensures (forall p, q, address: nat | p in pipelines && q in pipelines && Keeps(p, address) && Names(q, address) :: p == q)
       <==> (forall p, q | p in pipelines && q in pipelines && p != q :: Separate(p, q))
  {
    forall p, q | p in pipelines && q in pipelines
      ensures Separate(p, q) <==> forall address: nat :: !(Keeps(p, address) && Names(q, address))
    {
      SeparateIff(p, q);
    }
  }

  /** No stage of `q` is given the memory of a stateful stage of `p`: a comparison of two lists of
      addresses, which could be made before the pipelines are validated. */
  ghost predicate Separate(p: Pipeline, q: Pipeline)
    requires p.WellFormed() && q.WellFormed()
  {
    forall i, j | 0 <= i < |p.stages| && 0 <= j < |q.stages| :: !(Stateful(p, i) && SameMemory(p, i, q, j))
  }

  lemma SeparateIff(p: Pipeline, q: Pipeline)
    requires p.WellFormed() && q.WellFormed()
    ensures Separate(p, q) <==> forall address: nat :: !(Keeps(p, address) && Names(q, address))
  {
    if i, j :| 0 <= i < |p.stages| && 0 <= j < |q.stages| && Stateful(p, i) && SameMemory(p, i, q, j) {
      assert p.StageComplete(i);
      var address := p.StateAt(i).value;
      assert Keeps(p, address) && Names(q, address);
    }
    if address: nat :| Keeps(p, address) && Names(q, address) {
      var i :| 0 <= i < |p.stages| && p.ApiAt(i).stateful && p.StateAt(i) == Some(address);
      var j :| 0 <= j < |q.stages| && q.StateAt(j) == Some(address);
      assert Stateful(p, i) && SameMemory(p, i, q, j);
    }
  }

  /** Within one, a stateful stage shares its memory exactly with later stateless stages. */
  lemma SharedWithin(p: Pipeline, j: nat, i: nat)
    requires p.WellFormed() && j < i < |p.stages|
    ensures (p.ApiAt(j).stateful || p.ApiAt(i).stateful) && SameMemory(p, j, p, i)
       <==> p.ApiAt(j).stateful && !p.ApiAt(i).stateful && SameMemory(p, j, p, i)
  {
    StagesDistinct(p, j, i);
  }

  /** A stage that takes and emits the first kind. */
  method NewStage(id: string, stateful: bool, address: nat) returns (stage: Stage)
    requires id != ""
    ensures fresh(stage) && stage.owner == null && stage.stableId == Some(id) && stage.state == Some(address)
    ensures stage.api == Some(Api(Some("stage"), {1}, 1, stateful, true, false))
  {
    stage := new Stage(Some(id), Some(Api(Some("stage"), {1}, 1, stateful, true, false)), Some(address));
  }

  method NewSink(id: string) returns (sink: Sink)
    ensures fresh(sink) && sink.owner == null && sink.stableId == Some(id)
    ensures sink.api == Some(SinkApi(Some("sink"), {1}, true))
  {
    sink := new Sink(Some(id), Some(SinkApi(Some("sink"), {1}, true)));
  }

  /** A pipeline of one stateful stage, none of whose parts is owned. */
  method NewPipeline(id: string, stageId: string, sinkId: string, address: nat) returns (p: Pipeline)
    requires id != "" && stageId != "" && stageId != sinkId
    ensures fresh(p) && fresh(p.stages) && p.sink != null && fresh(p.sink) && !p.validated
    ensures p.WellFormed() && p.Free(|p.stages|) && p.SinkFree() && Keeps(p, address)
  {
    var stage := NewStage(stageId, true, address);
    var sink := NewSink(sinkId);
    p := new Pipeline(Some(id), 1, [stage], sink, 1);
    assert p.StageComplete(0);
  }

  /** Two pipelines whose stateful stages keep their states in the same memory: both are
      validated. */
  method SharedAcross(address: nat) returns (p: Pipeline, q: Pipeline, first: Code, second: Code)
    ensures p != q && first == 0 && second == 0 && p.validated && q.validated && p.Owns() && q.Owns()
    ensures p.WellFormed() && q.WellFormed() && Keeps(p, address) && Keeps(q, address)
  {
    hide Pipeline.WellFormed, Keeps;
    p := NewPipeline("p", "a", "s", address);
    first := p.Validate();
    q := NewPipeline("q", "b", "t", address);
    second := q.Validate();
  }

  /** A pipeline whose second, stateless stage is given the memory of the first. */
  method NewSharing(address: nat) returns (p: Pipeline)
    ensures fresh(p) && fresh(p.stages) && p.sink != null && fresh(p.sink) && !p.validated
    ensures p.WellFormed() && p.Free(|p.stages|) && p.SinkFree() && SharesInOne(p)
  {
    var a := NewStage("a", true, address);
    var b := NewStage("b", false, address);
    var sink := NewSink("s");
    p := new Pipeline(Some("p"), 1, [a, b], sink, 1);
    assert p.StageComplete(0) && p.StageComplete(1);
  }

  ghost predicate SharesInOne(p: Pipeline)
    requires p.WellFormed()
  {
    |p.stages| == 2 && Stateful(p, 0) && !Stateful(p, 1) && SameMemory(p, 0, p, 1)
  }

  /** A stateless stage given the memory of an earlier stateful one: the pipeline is validated. */
  method SharedInOne(address: nat) returns (p: Pipeline, ret: Code)
    ensures ret == 0 && p.validated && p.Owns() && p.WellFormed() && SharesInOne(p)
  {
    hide Pipeline.WellFormed, SharesInOne;
    p := NewSharing(address);
    ret := p.Validate();
  }
}
