/** The tuning service: batches of values set on a target, or all of it reset, as a whole
    (src/service/tuning.c, src/stage/stage_tuning.c). Whether the routers can be locked, and
    how unlocking goes, is up to the platform. */
module Tuning {
  import opened Bytes
  import opened Errno
  import opened StageTuning

  datatype Value = Value(id: uint8, value: int32)

  /** How the platform's apply goes: both negative errnos or zero. */
  datatype Apply = Apply(lock: int, unlock: int)

  /** The code of the first apply that failed, or zero. */
  ghost function FirstFailure(applies: seq<Apply>): (code: int)
    ensures code <= 0
    decreases |applies|
  {
    if applies == [] then 0
    else
      var before, last := FirstFailure(applies[..|applies| - 1]), applies[|applies| - 1];
      var code := if last.lock < 0 then last.lock else last.unlock;
      if before != 0 then before else if code < 0 then code else 0
  }

  /** How one target's apply goes: the lock's failure, or else what unlocking returns. */
  function CodeOf(apply: Apply): int {
    if apply.lock < 0 then apply.lock else apply.unlock
  }

  /** It is the code of the first that failed, and zero exactly when none did. */
  lemma {:induction false} FirstFailureIs(applies: seq<Apply>)
    ensures FirstFailure(applies) == 0 <==> forall a <- applies :: CodeOf(a) >= 0
    ensures FirstFailure(applies) < 0 ==>
              exists k :: 0 <= k < |applies| && CodeOf(applies[k]) == FirstFailure(applies)
                          && forall l | 0 <= l < k :: CodeOf(applies[l]) >= 0
    decreases |applies|
  {
    if applies != [] {
      var n := |applies| - 1;
      var before := applies[..n];
      FirstFailureIs(before);
      assert forall a <- before :: a in applies;
      assert applies == before + [applies[n]];
      if FirstFailure(before) < 0 {
        var k :| 0 <= k < n && CodeOf(before[k]) == FirstFailure(before) && forall l | 0 <= l < k :: CodeOf(before[l]) >= 0;
        assert CodeOf(applies[k]) == FirstFailure(applies);
      } else if CodeOf(applies[n]) < 0 {
        forall l | 0 <= l < n ensures CodeOf(applies[l]) >= 0 {
          assert before[l] in before;
        }
      }
    }
  }

  lemma NoFailure()
    ensures FirstFailure([]) == 0
  {
  }

  lemma NextFailure(applies: seq<Apply>, i: nat)
    requires i < |applies|
    ensures var before, code := FirstFailure(applies[..i]), if applies[i].lock < 0 then applies[i].lock else applies[i].unlock;
            FirstFailure(applies[..i + 1]) == if before != 0 then before else if code < 0 then code else 0
  {
    assert applies[..i + 1][..i] == applies[..i];
  }

  // ----- batches -----

  /** The service's verdict on value `i` of a batch. */
  ghost function Verdict(kind: StageKind, values: seq<Value>, i: nat): int
    requires i < |values|
  {
    if values[i].id >= |Table(kind)| then ENOENT
    else if !Table(kind)[values[i].id].Takes(values[i].value) then ERANGE
    else if exists j | 0 <= j < i :: values[j].id == values[i].id then EEXIST
    else 0
  }

  ghost predicate Accepted(kind: StageKind, values: seq<Value>) {
    forall i | 0 <= i < |values| :: Verdict(kind, values, i) == 0
  }

  method ValidateValueUpdate(kind: StageKind, values: seq<Value>, index: nat) returns (ret: int)
    requires index < |values|
    ensures ret == Verdict(kind, values, index)
  {
    var value := values[index];
    var table := Table(kind);
    if value.id >= |table| {
      return ENOENT;
    }
    if !table[value.id].Takes(value.value) {
      return ERANGE;
    }
    for j := 0 to index
      invariant forall k | 0 <= k < j :: values[k].id != value.id
    {
      if values[j].id == value.id {
        return EEXIST;
      }
    }
    ret := 0;
  }

  /** `ret` is the verdict on the first value refused, and `failed` its parameter. */
  ghost predicate Refused(kind: StageKind, values: seq<Value>, ret: int, failed: uint8) {
    ret < 0 && exists i | 0 <= i < |values| ::
      ret == Verdict(kind, values, i) && failed == values[i].id && Accepted(kind, values[..i])
  }

  /** The first value refused, if any. */
  method ValidateBatch(kind: StageKind, values: seq<Value>) returns (ret: int, failed: uint8)
    requires values != []
    ensures ret == 0 <==> Accepted(kind, values)
    ensures ret != 0 ==> Refused(kind, values, ret, failed)
  {
    ret, failed := 0, 0xff;
    for i := 0 to |values|
      invariant ret == 0 && forall k | 0 <= k < i :: Verdict(kind, values, k) == 0
    {
      failed := values[i].id;
      ret := ValidateValueUpdate(kind, values, i);
      if ret < 0 {
        forall k | 0 <= k < i ensures Verdict(kind, values[..i], k) == 0 {
          assert Verdict(kind, values, k) == 0;
        }
        return;
      }
    }
  }

  /** A config with all values of a batch put. */
  ghost function PutAll(c: Config, values: seq<Value>): (put: Config)
    requires c.Shaped()
    ensures put.Shaped() && put.kind == c.kind && put.rest == c.rest
    decreases |values|
  {
    if values == [] then c
    else
      var before := PutAll(c, values[..|values| - 1]);
      match Put(before, values[|values| - 1].id, values[|values| - 1].value)
      case Some(put) => put
      case None => before
  }

  lemma AcceptedPrefix(kind: StageKind, values: seq<Value>, n: nat)
    requires Accepted(kind, values) && n <= |values|
    ensures Accepted(kind, values[..n])
  {
    forall i | 0 <= i < n ensures Verdict(kind, values[..n], i) == 0 {
      assert Verdict(kind, values, i) == 0;
    }
  }

  ghost predicate Named(values: seq<Value>, id: uint8) {
    exists v <- values :: v.id == id
  }

  /** What a batch does: its parameters read back as its values, the others as before. */
  lemma {:induction false} BatchGets(c: Config, values: seq<Value>)
    requires c.Shaped() && Accepted(c.kind, values)
    ensures var put := PutAll(c, values);
            && (forall v <- values :: Get(put, v.id) == Some(v.value))
            && (forall id: uint8 | !Named(values, id) :: Get(put, id) == Get(c, id))
    decreases |values|
  {
    hide Table, Encode, Decode, Storable, Put, Get;
    if values != [] {
      var n := |values| - 1;
      var before, last := values[..n], values[n];
      AcceptedPrefix(c.kind, values, n);
      BatchGets(c, before);
      LastIsNew(c.kind, values);
      forall id: uint8 ensures Get(PutAll(c, values), id) == if id == last.id then Some(last.value) else Get(PutAll(c, before), id) {
        PutGet(PutAll(c, before), last.id, last.value, id);
      }
      assert forall v <- values :: v in before || v == last;
      assert forall v <- before :: v in values;
      assert last in values;
    }
  }

  lemma LastIsNew(kind: StageKind, values: seq<Value>)
    requires values != [] && Accepted(kind, values)
    ensures var last := values[|values| - 1];
            && last.id < |Table(kind)| && Table(kind)[last.id].Takes(last.value)
            && forall v <- values[..|values| - 1] :: v.id != last.id
  {
    assert Verdict(kind, values, |values| - 1) == 0;
  }

  /** A batch keeps every parameter in its range. */
  lemma BatchInRange(c: Config, values: seq<Value>)
    requires c.Shaped() && InRange(c) && Accepted(c.kind, values)
    ensures InRange(PutAll(c, values))
  {
    hide Table, Get;
    BatchGets(c, values);
    var put := PutAll(c, values);
    forall id: uint8 | id < |Table(c.kind)| ensures Table(c.kind)[id].Takes(Get(put, id).value) {
      if Named(values, id) {
        var i :| 0 <= i < |values| && values[i].id == id;
        assert values[i] in values && Verdict(c.kind, values, i) == 0;
      }
    }
  }

  // ----- reset -----

  /** A config with the first `n` parameters put back to their compiled values. */
  ghost function PutBack(c: Config, compiled: Config, n: nat): (put: Config)
    requires c.Shaped() && compiled.Shaped() && n <= |Table(c.kind)| && compiled.kind == c.kind
    ensures put.Shaped() && put.kind == c.kind && put.rest == c.rest
    decreases n
  {
    if n == 0 then c
    else Put(PutBack(c, compiled, n - 1), n - 1, Get(compiled, n - 1).value).value
  }

  lemma {:induction false} PutBackGets(c: Config, compiled: Config, n: nat, id: uint8)
    requires c.Shaped() && Valid(compiled) && n <= |Table(c.kind)| && compiled.kind == c.kind
    ensures Get(PutBack(c, compiled, n), id) == if id < n then Get(compiled, id) else Get(c, id)
    decreases n
  {
    hide Table, Get, Put;
    if n > 0 {
      PutBackGets(c, compiled, n - 1, id);
      PutGet(PutBack(c, compiled, n - 1), n - 1, Get(compiled, n - 1).value, id);
    }
  }

  /** The rules across parameters are about their values. */
  lemma CoherentByValues(a: Config, b: Config)
    requires a.Shaped() && b.Shaped() && a.kind == b.kind
    requires forall id: uint8 | id < |Table(a.kind)| :: Get(a, id) == Get(b, id)
    ensures Coherent(a) == Coherent(b)
  {
    if a.kind == Intent {
      assert Get(a, 0) == Get(b, 0) && Get(a, 1) == Get(b, 1);
    } else if a.kind == Acceleration {
      forall p: nat | p < POINTS ensures a.fields[p] == b.fields[p] {
        assert Get(a, p) == Get(b, p);
      }
    }
  }

  lemma InRangeByValues(a: Config, b: Config)
    requires a.Shaped() && b.Shaped() && a.kind == b.kind && InRange(b)
    requires forall id: uint8 | id < |Table(a.kind)| :: Get(a, id) == Get(b, id)
    ensures InRange(a)
  {
    hide Table, Get, Parameter.Takes;
  }

  lemma ResetValid(c: Config, compiled: Config)
    requires c.Shaped() && Valid(compiled) && compiled.kind == c.kind
    ensures var reset := PutBack(c, compiled, |Table(c.kind)|);
            Valid(reset) && forall id: uint8 | id < |Table(c.kind)| :: Get(reset, id) == Get(compiled, id)
  {
    hide Table, Get, Coherent, PutBack, InRange;
    var reset := PutBack(c, compiled, |Table(c.kind)|);
    forall id: uint8 ensures id < |Table(c.kind)| ==> Get(reset, id) == Get(compiled, id) {
      PutBackGets(c, compiled, |Table(c.kind)|, id);
    }
    CoherentByValues(reset, compiled);
    InRangeByValues(reset, compiled);
  }

  // ----- targets -----

  /** A stage's tuning target and its binding. */
  class Target {
    const compiled: Config
    var current: Config

    /** What every operation keeps. */
    ghost predicate Tuned()
      reads this
    {
      Valid(compiled) && Valid(current) && current.kind == compiled.kind
    }

    constructor (compiled: Config)
      requires Valid(compiled)
      ensures Tuned() && current == compiled && this.compiled == compiled
    {
      this.compiled, current := compiled, compiled;
    }

    /** The routers are locked, the candidate replaces the config, the routers are unlocked. */
    method ApplyBetweenFrames(candidate: Config, apply: Apply) returns (ret: int)
      modifies this
      ensures current == (if apply.lock < 0 then old(current) else candidate)
      ensures ret == if apply.lock < 0 then apply.lock else apply.unlock
    {
      if apply.lock < 0 {
        return apply.lock;
      }
      current := candidate;
      ret := apply.unlock;
    }

    /** A candidate with the whole batch put, checked against the rules across parameters. */
    method Prepare(values: seq<Value>) returns (ret: int, candidate: Config, failed: uint8)
      requires Tuned() && Accepted(current.kind, values)
      ensures candidate == PutAll(current, values)
      ensures ret == if Coherent(candidate) then 0 else EINVAL
      ensures ret != 0 ==> Blamed(candidate, failed)
    {
      candidate := current;
      for i := 0 to |values|
        invariant candidate == PutAll(current, values[..i])
      {
        assert values[..i + 1][..i] == values[..i];
        assert Verdict(current.kind, values, i) == 0;
        candidate := Put(candidate, values[i].id, values[i].value).value;
      }
      assert values[..|values|] == values;
      ret, failed := Validate(candidate);
    }

    /** The binding's `set_many`, on a batch the service accepted. */
    method Set(values: seq<Value>, apply: Apply) returns (ret: int, failed: uint8)
      requires Tuned() && Accepted(current.kind, values)
      modifies this
      ensures Tuned()
      ensures if !Coherent(PutAll(old(current), values)) then
                current == old(current) && ret == EINVAL && Blamed(PutAll(old(current), values), failed)
              else if apply.lock < 0 then current == old(current) && ret == apply.lock
              else current == PutAll(old(current), values) && ret == apply.unlock
    {
      failed := 0xff;
      var candidate;
      ret, candidate, failed := Prepare(values);
      if ret < 0 {
        return;
      }
      BatchInRange(current, values);
      BatchGets(current, values);
      ret := ApplyBetweenFrames(candidate, apply);
    }

    /** The binding's `reset`. */
    method Reset(apply: Apply) returns (ret: int)
      requires Tuned()
      modifies this
      ensures Tuned()
      ensures current == if apply.lock < 0 then old(current) else PutBack(old(current), compiled, |Table(compiled.kind)|)
      ensures ret == if apply.lock < 0 then apply.lock else apply.unlock
    {
      var candidate := current;
      assert compiled.Shaped() && current.Shaped();
      var n := |Table(compiled.kind)|;
      for i := 0 to n
        invariant candidate == PutBack(current, compiled, i)
      {
        candidate := Put(candidate, i, Get(compiled, i).value).value;
      }
      ResetValid(current, compiled);
      ret := ApplyBetweenFrames(candidate, apply);
    }
  }

  // ----- the service -----

  class Service {
    const targets: seq<Target>

    ghost predicate AllTuned()
      reads targets
    {
      && |targets| <= 0x100
      && (forall i | 0 <= i < |targets| :: targets[i].Tuned())
      && (forall i, j | 0 <= i < j < |targets| :: targets[i] != targets[j])
    }

    constructor (targets: seq<Target>)
      requires |targets| <= 0x100 && forall i | 0 <= i < |targets| :: targets[i].Tuned()
      requires forall i, j | 0 <= i < j < |targets| :: targets[i] != targets[j]
      ensures AllTuned() && this.targets == targets
    {
      this.targets := targets;
    }

    /** `zpt_tuning_get`. */
    method GetValue(target: uint8, id: uint8, compiled: bool) returns (ret: int, value: int32)
      requires AllTuned()
      ensures ret == if target >= |targets| then ENODEV else if id >= |Table(targets[target].compiled.kind)| then ENOENT else 0
      ensures ret == 0 ==> Some(value) == Get(if compiled then targets[target].compiled else targets[target].current, id)
      ensures ret == 0 ==> Table(targets[target].compiled.kind)[id].Takes(value)
    {
      value := 0;
      if target >= |targets| {
        return ENODEV, 0;
      }
      assert targets[target].Tuned();
      var got := Get(if compiled then targets[target].compiled else targets[target].current, id);
      if got.None? {
        return ENOENT, 0;
      }
      return 0, got.value;
    }

    /** `zpt_tuning_set_many`: all of a batch, or nothing. */
    method SetMany(target: uint8, values: seq<Value>, apply: Apply) returns (ret: int, failed: uint8)
      requires AllTuned()
      modifies targets
      ensures AllTuned()
      ensures forall i | 0 <= i < |targets| && i != target :: targets[i].current == old(targets[i].current)
      ensures target >= |targets| ==> ret == ENODEV
      ensures target < |targets| ==>
                SetOutcome(old(targets[target].current), targets[target].current, values, apply, ret, failed)
    {
      hide Target.Tuned, PutAll, Coherent, Accepted, Refused, Blamed;
      failed := 0xff;
      if target >= |targets| {
        return ENODEV, failed;
      }
      TunedKind(targets[target]);
      if values == [] {
        return EINVAL, failed;
      }
      ret, failed := ValidateBatch(targets[target].current.kind, values);
      if ret < 0 {
        return;
      }
      ret, failed := targets[target].Set(values, apply);
    }

    lemma TunedKind(t: Target)
      requires t.Tuned()
      ensures t.current.Shaped()
    {
    }

    /** `zpt_tuning_set`. */
    method SetValue(target: uint8, id: uint8, value: int32, apply: Apply) returns (ret: int)
      requires AllTuned()
      modifies targets
      ensures AllTuned()
      ensures forall i | 0 <= i < |targets| && i != target :: targets[i].current == old(targets[i].current)
      ensures target < |targets| ==> exists failed ::
                SetOutcome(old(targets[target].current), targets[target].current, [Value(id, value)], apply, ret, failed)
    {
      var failed;
      ret, failed := SetMany(target, [Value(id, value)], apply);
    }

    /** `zpt_tuning_reset`. */
    method Reset(target: uint8, apply: Apply) returns (ret: int)
      requires AllTuned()
      modifies targets
      ensures AllTuned()
      ensures forall i | 0 <= i < |targets| && i != target :: targets[i].current == old(targets[i].current)
      ensures target >= |targets| ==> ret == ENODEV
      ensures target < |targets| && apply.lock < 0 ==> ret == apply.lock && targets[target].current == old(targets[target].current)
      ensures target < |targets| && apply.lock >= 0 ==> ret == apply.unlock && AsCompiled(targets[target])
    {
      if target >= |targets| {
        return ENODEV;
      }
      ghost var was := targets[target].current;
      ret := targets[target].Reset(apply);
      ResetValid(was, targets[target].compiled);
    }

    /** The configs in force, target by target. */
    ghost function Currents(): seq<Config>
      reads targets
    {
      seq(|targets|, k requires 0 <= k < |targets| reads targets => targets[k].current)
    }

    /** The first `n` targets are reset where their apply could lock, and the others are as they
        were. */
    ghost predicate ResetUpTo(was: seq<Config>, applies: seq<Apply>, n: nat)
      reads targets
      requires |was| == |applies| == |targets|
    {
      forall k | 0 <= k < |targets| ::
        if k < n && applies[k].lock >= 0 then AsCompiled(targets[k]) else targets[k].current == was[k]
    }

    /** `zpt_tuning_reset_all`: every target is tried; the first failure is returned. */
    method ResetAll(applies: seq<Apply>) returns (result: int)
      requires AllTuned() && |applies| == |targets|
      modifies targets
      ensures AllTuned() && ResetUpTo(old(Currents()), applies, |targets|)
      ensures result == FirstFailure(applies)
    {
      hide AsCompiled, Target.Tuned, FirstFailure, ResetUpTo, Currents;
      ghost var was := Currents();
      NoneReset(applies);
      NoFailure();
      result := 0;
      for i := 0 to |targets|
        invariant AllTuned() && ResetUpTo(was, applies, i) && result == FirstFailure(applies[..i])
      {
        hide AsCompiled, Target.Tuned, FirstFailure, ResetUpTo;
        NextFailure(applies, i);
        var ret := ResetNext(was, applies, i);
        if ret < 0 && result == 0 {
          result := ret;
        }
      }
      assert applies[..|applies|] == applies;
    }

    lemma NoneReset(applies: seq<Apply>)
      requires |applies| == |targets|
      ensures |Currents()| == |targets| && ResetUpTo(Currents(), applies, 0) && applies[..0] == []
    {
    }

    method ResetNext(ghost was: seq<Config>, applies: seq<Apply>, i: nat) returns (ret: int)
      requires AllTuned() && |was| == |applies| == |targets| && i < |targets| && ResetUpTo(was, applies, i)
      modifies targets
      ensures AllTuned() && ResetUpTo(was, applies, i + 1)
      ensures ret == if applies[i].lock < 0 then applies[i].lock else applies[i].unlock
    {
      hide Target.Tuned, Table, Get;
      ret := Reset(i, applies[i]);
    }
  }

  /** Every parameter reads as it was compiled. */
  ghost predicate AsCompiled(t: Target)
    reads t
  {
    t.Tuned() && forall id: uint8 | id < |Table(t.compiled.kind)| :: Get(t.current, id) == Get(t.compiled, id)
  }

  /** A batch set: with nothing changed, refused for its first bad value, or because the rules
      across parameters would not hold of the outcome, or the routers could not be locked;
      otherwise applied whole. */
  ghost predicate SetOutcome(was: Config, now: Config, values: seq<Value>, apply: Apply, ret: int, failed: uint8) {
    was.Shaped() &&
    if values == [] then now == was && ret == EINVAL
    else if !Accepted(was.kind, values) then now == was && Refused(was.kind, values, ret, failed)
    else if !Coherent(PutAll(was, values)) then now == was && ret == EINVAL && Blamed(PutAll(was, values), failed)
    else if apply.lock < 0 then now == was && ret == apply.lock
    else now == PutAll(was, values) && ret == apply.unlock
  }

  /** What a caller sees of a batch: applied, its parameters read as its values and the others
      as before; otherwise all as before. */
  lemma SetManyAtomic(was: Config, now: Config, values: seq<Value>, apply: Apply, ret: int, failed: uint8)
    requires Valid(was) && SetOutcome(was, now, values, apply, ret, failed)
    ensures Valid(now) && now.kind == was.kind && now.rest == was.rest
    ensures now == was || forall v <- values :: Get(now, v.id) == Some(v.value)
    ensures forall id: uint8 | !Named(values, id) :: Get(now, id) == Get(was, id)
    ensures ret == 0 ==> forall v <- values :: Get(now, v.id) == Some(v.value)
  {
    hide PutAll, Get, Coherent, Accepted;
    if now != was || ret == 0 {
      BatchGets(was, values);
      BatchInRange(was, values);
    }
  }
}
