/** The hash of a pipeline's settings, computed by firmware over its stages
    (src/observer/capture.c, src/service/telemetry.c) and by the tuner over a profile
    (web/protocol.js). */
module SettingsHash {
  import opened Bytes

  type Id = seq<uint8>

  datatype Setting = Setting(key: seq<uint8>, value: int32)

  /** A tuning target, or its part of a profile. */
  datatype Target = Target(stableId: Id, settings: seq<Setting>)

  const FNV_OFFSET: uint32 := 2166136261
  const FNV_PRIME: uint32 := 16777619

  // ----- one setting -----

  function Bits(a: uint8): bv8 {
    a as bv8
  }

  function Number(b: bv8): uint8 {
    b as int
  }

  function XorByte(a: uint8, b: uint8): uint8 {
    Number(Bits(a) ^ Bits(b))
  }

  function WithLow(hash: uint32, low: uint8): uint32 {
    hash / 0x100 * 0x100 + low
  }

  /** The exclusive or with a byte leaves the upper bits alone. */
  function Xor(hash: uint32, byte: uint8): uint32 {
    WithLow(hash, XorByte(hash % 0x100, byte))
  }

  /** One byte of FNV-1a in 32-bit arithmetic. */
  function Step(hash: uint32, byte: uint8): uint32 {
    Wrap32(Xor(hash, byte) * FNV_PRIME)
  }

  /** The same in JavaScript: a signed exclusive or, `Math.imul`, `>>> 0`. */
  function ScriptStep(hash: uint32, byte: uint8): uint32 {
    Wrap32(Signed(Wrap32(Signed(Xor(hash, byte)) * FNV_PRIME)))
  }

  function Fnv(hash: uint32, bytes: seq<uint8>): uint32
    decreases |bytes|
  {
    if bytes == [] then hash else Step(Fnv(hash, bytes[..|bytes| - 1]), bytes[|bytes| - 1])
  }

  /** The bytes of a setting: stage id, NUL, key, NUL, value. */
  function SettingBytes(stableId: Id, s: Setting): seq<uint8> {
    stableId + [0] + s.key + [0] + Le32(Unsigned(s.value))
  }

  function Term(stableId: Id, s: Setting): uint32 {
    Fnv(FNV_OFFSET, SettingBytes(stableId, s))
  }

  lemma WrapSigned(u: uint32)
    ensures Wrap32(Signed(u)) == u
  {
  }

  /** A multiple of 2^32 more or less makes no difference. */
  lemma WrapShift(a: int, k: int)
    ensures Wrap32(a + 0x1_0000_0000 * k) == Wrap32(a)
  {
  }

  lemma StepsAgree(hash: uint32, byte: uint8)
    ensures ScriptStep(hash, byte) == Step(hash, byte)
  {
    hide Xor, Wrap32;
    var x: int, p: int := Xor(hash, byte), FNV_PRIME;
    WrapSigned(Wrap32(Signed(x) * p));
    if x >= 0x8000_0000 {
      assert Signed(x) * p == x * p + 0x1_0000_0000 * -p;
      WrapShift(x * p, -p);
    }
  }

  lemma {:induction false} FnvMore(hash: uint32, a: seq<uint8>, b: seq<uint8>)
    ensures Fnv(hash, a + b) == Fnv(Fnv(hash, a), b)
    decreases |b|
  {
    hide Step;
    if b == [] {
      assert a + b == a;
    } else {
      assert (a + b)[..|a + b| - 1] == a + b[..|b| - 1];
      FnvMore(hash, a, b[..|b| - 1]);
    }
  }

  /** `zpt_capture_settings_hash_add`. */
  method HashAdd(hash: uint32, stableId: Id, s: Setting) returns (sum: uint32)
    ensures sum == Wrap32(hash + Term(stableId, s))
  {
    hide Step, Fnv, Term, Wrap32, Le32;
    var fnv := FnvOf(FNV_OFFSET, stableId);
    fnv := Step(fnv, 0);
    fnv := FnvOf(fnv, s.key);
    fnv := Step(fnv, 0);
    fnv := FnvOf(fnv, Le32(Unsigned(s.value)));
    SettingFolds(stableId, s);
    sum := Wrap32(hash + fnv);
  }

  method FnvOf(start: uint32, bytes: seq<uint8>) returns (fnv: uint32)
    ensures fnv == Fnv(start, bytes)
  {
    fnv := start;
    for i := 0 to |bytes|
      invariant fnv == Fnv(start, bytes[..i])
    {
      assert bytes[..i + 1][..i] == bytes[..i];
      fnv := Step(fnv, bytes[i]);
    }
    assert bytes[..|bytes|] == bytes;
  }

  lemma SettingFolds(stableId: Id, s: Setting)
    ensures Term(stableId, s)
         == Fnv(Step(Fnv(Step(Fnv(FNV_OFFSET, stableId), 0), s.key), 0), Le32(Unsigned(s.value)))
  {
    hide Step;
    FnvMore(FNV_OFFSET, stableId + [0] + s.key + [0], Le32(Unsigned(s.value)));
    FnvMore(FNV_OFFSET, stableId + [0] + s.key, [0]);
    FnvMore(FNV_OFFSET, stableId + [0], s.key);
    FnvMore(FNV_OFFSET, stableId, [0]);
    OneByte(Fnv(FNV_OFFSET, stableId));
    OneByte(Fnv(FNV_OFFSET, stableId + [0] + s.key));
  }

  lemma OneByte(hash: uint32)
    ensures Fnv(hash, [0]) == Step(hash, 0)
  {
    assert [0][..0] == [];
  }

  // ----- what differs in one byte hashes apart -----

  lemma BitsOfNumber(b: bv8)
    ensures Bits(Number(b)) == b
  {
  }

  lemma NextNumber(b: bv8)
    requires b != 0xff
    ensures Number(b + 1) == Number(b) + 1
  {
  }

  /** Every byte is the number of some bits. */
  lemma {:induction false} BitsOf(a: uint8) returns (b: bv8)
    ensures Number(b) == a
    decreases a
  {
    if a == 0 {
      b := 0;
    } else {
      var before := BitsOf(a - 1);
      NextNumber(before);
      b := before + 1;
    }
  }

  lemma NumberOfBits(a: uint8)
    ensures Number(Bits(a)) == a
  {
    hide Bits, Number;
    var b := BitsOf(a);
    BitsOfNumber(b);
  }

  lemma XorCancels(a: bv8, b: bv8, c: bv8)
    requires a ^ b == c ^ b || b ^ a == b ^ c
    ensures a == c
  {
  }

  lemma XorByteApart(a: uint8, a': uint8, b: uint8)
    ensures XorByte(a, b) == XorByte(a', b) ==> a == a'
    ensures XorByte(b, a) == XorByte(b, a') ==> a == a'
  {
    hide Bits, Number;
    var x, x', y := Bits(a), Bits(a'), Bits(b);
    BitsOfNumber(x ^ y);
    BitsOfNumber(x' ^ y);
    BitsOfNumber(y ^ x);
    BitsOfNumber(y ^ x');
    NumberOfBits(a);
    NumberOfBits(a');
    if x ^ y == x' ^ y || y ^ x == y ^ x' {
      XorCancels(x, y, x');
    }
  }

  lemma XorApart(hash: uint32, hash': uint32, x: uint8, y: uint8)
    ensures Xor(hash, x) == Xor(hash', x) ==> hash == hash'
    ensures Xor(hash, x) == Xor(hash, y) ==> x == y
  {
    hide XorByte, WithLow;
    XorByteApart(hash % 0x100, hash' % 0x100, x);
    XorByteApart(x, y, hash % 0x100);
    LowByte(hash, XorByte(hash % 0x100, x));
    LowByte(hash, XorByte(hash % 0x100, y));
    LowByte(hash', XorByte(hash' % 0x100, x));
  }

  lemma LowByte(hash: uint32, low: uint8)
    ensures WithLow(hash, low) % 0x100 == low && WithLow(hash, low) / 0x100 == hash / 0x100
    ensures hash == hash / 0x100 * 0x100 + hash % 0x100
  {
  }

  // The inverse of the prime modulo 2^32.
  const FNV_INVERSE: uint32 := 899433627

  /** The prime is odd, so multiplying by it loses nothing. */
  lemma TimesPrime(x: uint32)
    ensures Wrap32(Wrap32(x * FNV_PRIME) * FNV_INVERSE) == x
  {
    var product: int := x * FNV_PRIME;
    var q := product / 0x1_0000_0000;
    assert Wrap32(product) == product - 0x1_0000_0000 * q;
    assert product * FNV_INVERSE == x + 0x1_0000_0000 * (x * 3513497);
    assert Wrap32(product) * FNV_INVERSE == x + 0x1_0000_0000 * (x * 3513497 - q * FNV_INVERSE);
    WrapShift(x, x * 3513497 - q * FNV_INVERSE);
  }

  /** A step can be undone, so from different hashes the same byte leads to different ones; and
      so do different bytes from the same hash. */
  lemma StepApart(hash: uint32, hash': uint32, x: uint8, y: uint8)
    ensures Step(hash, x) == Step(hash', x) ==> hash == hash'
    ensures Step(hash, x) == Step(hash, y) ==> x == y
  {
    hide Xor, Wrap32;
    TimesPrime(Xor(hash, x));
    TimesPrime(Xor(hash', x));
    TimesPrime(Xor(hash, y));
    XorApart(hash, hash', x, y);
  }

  lemma {:induction false} FnvApart(hash: uint32, hash': uint32, bytes: seq<uint8>)
    requires Fnv(hash, bytes) == Fnv(hash', bytes)
    ensures hash == hash'
    decreases |bytes|
  {
    hide Step;
    if bytes != [] {
      var front, last := bytes[..|bytes| - 1], bytes[|bytes| - 1];
      StepApart(Fnv(hash, front), Fnv(hash', front), last, last);
      FnvApart(hash, hash', front);
    }
  }

  /** Bytes that differ in exactly one place hash apart. */
  lemma OneByteApart(hash: uint32, a: seq<uint8>, x: uint8, y: uint8, b: seq<uint8>)
    ensures Fnv(hash, a + [x] + b) == Fnv(hash, a + [y] + b) <==> x == y
  {
    hide Step, Fnv;
    FnvMore(hash, a + [x], b);
    FnvMore(hash, a + [y], b);
    FnvStep(hash, a, x);
    FnvStep(hash, a, y);
    if Fnv(hash, a + [x] + b) == Fnv(hash, a + [y] + b) {
      FnvApart(Step(Fnv(hash, a), x), Step(Fnv(hash, a), y), b);
      StepApart(Fnv(hash, a), Fnv(hash, a), x, y);
    }
  }

  lemma FnvStep(hash: uint32, a: seq<uint8>, x: uint8)
    ensures Fnv(hash, a + [x]) == Step(Fnv(hash, a), x)
  {
    assert (a + [x])[..|a|] == a;
  }

  /** A setting whose bytes differ from another's in exactly one place adds another term. */
  lemma TermsApart(stableId: Id, s: Setting, stableId': Id, s': Setting, k: nat)
    requires |SettingBytes(stableId, s)| == |SettingBytes(stableId', s')| && k < |SettingBytes(stableId, s)|
    requires forall i | 0 <= i < |SettingBytes(stableId, s)| ::
               SettingBytes(stableId, s)[i] == SettingBytes(stableId', s')[i] <==> i != k
    ensures Term(stableId, s) != Term(stableId', s')
  {
    hide Fnv, SettingBytes;
    var bytes, bytes' := SettingBytes(stableId, s), SettingBytes(stableId', s');
    assert bytes == bytes[..k] + [bytes[k]] + bytes[k + 1..];
    assert bytes' == bytes[..k] + [bytes'[k]] + bytes[k + 1..];
    OneByteApart(FNV_OFFSET, bytes[..k], bytes[k], bytes'[k], bytes[k + 1..]);
  }

  // ----- sums, in whole numbers -----

  ghost function Settings(stableId: Id, settings: seq<Setting>): nat
    decreases |settings|
  {
    if settings == [] then 0
    else Settings(stableId, settings[..|settings| - 1]) + Term(stableId, settings[|settings| - 1])
  }

  /** The targets that belong to one stage. */
  ghost function Row(stage: Id, targets: seq<Target>): nat
    decreases |targets|
  {
    if targets == [] then 0
    else
      var last := targets[|targets| - 1];
      Row(stage, targets[..|targets| - 1]) + if last.stableId == stage then Settings(stage, last.settings) else 0
  }

  /** Stage by stage, as firmware adds. */
  ghost function ByStage(stages: seq<Id>, targets: seq<Target>): nat
    decreases |stages|
  {
    if stages == [] then 0 else ByStage(stages[..|stages| - 1], targets) + Row(stages[|stages| - 1], targets)
  }

  /** Target by target, as the tuner adds. */
  ghost function ByTarget(stages: seq<Id>, targets: seq<Target>): nat
    decreases |targets|
  {
    if targets == [] then 0
    else
      var last := targets[|targets| - 1];
      ByTarget(stages, targets[..|targets| - 1]) + if last.stableId in stages then Settings(last.stableId, last.settings) else 0
  }

  ghost predicate Distinct(ids: seq<Id>) {
    forall i, j | 0 <= i < j < |ids| :: ids[i] != ids[j]
  }

  ghost predicate DistinctTargets(targets: seq<Target>) {
    forall i, j | 0 <= i < j < |targets| :: targets[i].stableId != targets[j].stableId
  }

  lemma {:induction false} NoStages(targets: seq<Target>)
    ensures ByTarget([], targets) == 0
    decreases |targets|
  {
    if targets != [] {
      NoStages(targets[..|targets| - 1]);
    }
  }

  lemma {:induction false} OneStageMore(stages: seq<Id>, stage: Id, targets: seq<Target>)
    requires stage !in stages
    ensures ByTarget(stages + [stage], targets) == ByTarget(stages, targets) + Row(stage, targets)
    decreases |targets|
  {
    hide Settings;
    if targets != [] {
      OneStageMore(stages, stage, targets[..|targets| - 1]);
    }
  }

  /** Both orders of adding give the same sum. */
  lemma {:induction false} OrdersAgree(stages: seq<Id>, targets: seq<Target>)
    requires Distinct(stages)
    ensures ByStage(stages, targets) == ByTarget(stages, targets)
    decreases |stages|
  {
    if stages == [] {
      NoStages(targets);
    } else {
      var before, last := stages[..|stages| - 1], stages[|stages| - 1];
      OrdersAgree(before, targets);
      OneStageMore(before, last, targets);
      assert before + [last] == stages;
    }
  }

  // ----- order does not matter -----

  lemma {:induction false} SettingsWithout(stableId: Id, settings: seq<Setting>, k: nat)
    requires k < |settings|
    ensures Settings(stableId, settings) == Settings(stableId, settings[..k] + settings[k + 1..]) + Term(stableId, settings[k])
    decreases |settings|
  {
    hide Term;
    var n := |settings| - 1;
    var without := settings[..k] + settings[k + 1..];
    if k == n {
      assert without == settings[..n];
    } else {
      var before := settings[..n];
      SettingsWithout(stableId, before, k);
      assert without[..|without| - 1] == before[..k] + before[k + 1..];
      assert without[|without| - 1] == settings[n];
    }
  }

  /** A target's settings add up the same in any order. */
  lemma {:induction false} SettingsPermute(stableId: Id, a: seq<Setting>, b: seq<Setting>)
    requires multiset(a) == multiset(b)
    ensures Settings(stableId, a) == Settings(stableId, b)
    decreases |a|
  {
    hide Term;
    SameLength(a, b);
    if a != [] {
      var k := FindLast(a, b);
      SettingsPermute(stableId, a[..|a| - 1], b[..k] + b[k + 1..]);
      SettingsWithout(stableId, b, k);
    }
  }

  lemma SameLength(a: seq<Setting>, b: seq<Setting>)
    requires multiset(a) == multiset(b)
    ensures |a| == |b|
  {
    assert |multiset(a)| == |a| && |multiset(b)| == |b|;
  }

  lemma MultisetOf(before: seq<Setting>, s: Setting, after: seq<Setting>)
    ensures multiset(before + [s] + after) == multiset(before + after) + multiset{s}
  {
  }

  lemma Cancel(x: multiset<Setting>, y: multiset<Setting>, s: Setting)
    requires x + multiset{s} == y + multiset{s}
    ensures x == y
  {
    assert x == x + multiset{s} - multiset{s};
    assert y == y + multiset{s} - multiset{s};
  }

  lemma FindLast(a: seq<Setting>, b: seq<Setting>) returns (k: nat)
    requires multiset(a) == multiset(b) && a != []
    ensures k < |b| && b[k] == a[|a| - 1]
    ensures multiset(a[..|a| - 1]) == multiset(b[..k] + b[k + 1..])
  {
    var last := a[|a| - 1];
    assert last in multiset(a);
    k :| 0 <= k < |b| && b[k] == last;
    assert a == a[..|a| - 1] + [last];
    assert b == b[..k] + [last] + b[k + 1..];
    MultisetOf(b[..k], last, b[k + 1..]);
    MultisetOf(a[..|a| - 1], last, []);
    assert a[..|a| - 1] + [last] + [] == a && a[..|a| - 1] + [] == a[..|a| - 1];
    Cancel(multiset(a[..|a| - 1]), multiset(b[..k] + b[k + 1..]), last);
  }

  /** The same settings for each stage: in both lists under any order, or in neither. */
  ghost predicate SameSettings(stages: seq<Id>, a: seq<Target>, b: seq<Target>) {
    forall stage <- stages ::
      && ((exists t <- a :: t.stableId == stage) <==> (exists t <- b :: t.stableId == stage))
      && forall t, u | t in a && u in b && t.stableId == stage == u.stableId :: multiset(t.settings) == multiset(u.settings)
  }

  lemma {:induction false} RowOfNone(stage: Id, targets: seq<Target>)
    requires forall t <- targets :: t.stableId != stage
    ensures Row(stage, targets) == 0
    decreases |targets|
  {
    if targets != [] {
      assert forall t <- targets[..|targets| - 1] :: t in targets;
      assert targets[|targets| - 1] in targets;
      RowOfNone(stage, targets[..|targets| - 1]);
    }
  }

  lemma {:induction false} RowOfOne(stage: Id, targets: seq<Target>, k: nat)
    requires k < |targets| && targets[k].stableId == stage && DistinctTargets(targets)
    ensures Row(stage, targets) == Settings(stage, targets[k].settings)
    decreases |targets|
  {
    var n := |targets| - 1;
    if k == n {
      forall t | t in targets[..n] ensures t.stableId != stage {
        var i :| 0 <= i < n && targets[..n][i] == t;
        assert targets[i] == t;
      }
      RowOfNone(stage, targets[..n]);
    } else {
      RowOfOne(stage, targets[..n], k);
    }
  }

  lemma RowsAgree(stage: Id, a: seq<Target>, b: seq<Target>)
    requires DistinctTargets(a) && DistinctTargets(b) && SameSettings([stage], a, b)
    ensures Row(stage, a) == Row(stage, b)
  {
    assert stage in [stage];
    if t :| t in a && t.stableId == stage {
      var u :| u in b && u.stableId == stage;
      var i :| 0 <= i < |a| && a[i] == t;
      var j :| 0 <= j < |b| && b[j] == u;
      RowOfOne(stage, a, i);
      RowOfOne(stage, b, j);
      SettingsPermute(stage, t.settings, u.settings);
    } else {
      RowOfNone(stage, a);
      RowOfNone(stage, b);
    }
  }

  lemma {:induction false} StagesAgree(stages: seq<Id>, a: seq<Target>, b: seq<Target>)
    requires DistinctTargets(a) && DistinctTargets(b) && SameSettings(stages, a, b)
    ensures ByStage(stages, a) == ByStage(stages, b)
    decreases |stages|
  {
    hide Row;
    if stages != [] {
      var before, last := stages[..|stages| - 1], stages[|stages| - 1];
      assert last in stages && forall s <- before :: s in stages;
      StagesAgree(before, a, b);
      RowsAgree(last, a, b);
    }
  }

  // ----- both sides -----

  /** Firmware: the sum over the pipeline's stages of every parameter of their targets. */
  method FirmwareHash(stages: seq<Id>, targets: seq<Target>) returns (hash: uint32)
    ensures hash == Wrap32(ByStage(stages, targets))
  {
    hash := 0;
    for i := 0 to |stages|
      invariant Stands(hash, ByStage(stages[..i], targets))
    {
      hide Row, Wrap32;
      hash := AddStage(hash, stages[i], targets, ByStage(stages[..i], targets));
      assert stages[..i + 1][..i] == stages[..i];
    }
    assert stages[..|stages|] == stages;
  }

  /** The targets of one stage. */
  method AddStage(start: uint32, stage: Id, targets: seq<Target>, ghost before: nat) returns (hash: uint32)
    requires Stands(start, before)
    ensures Stands(hash, before + Row(stage, targets))
  {
    hide Settings, Stands;
    hash := start;
    for id := 0 to |targets|
      invariant Stands(hash, before + Row(stage, targets[..id]))
    {
      hide Settings, Stands;
      assert targets[..id + 1][..id] == targets[..id];
      if targets[id].stableId == stage {
        hash := AddSettings(hash, stage, targets[id].settings, before + Row(stage, targets[..id]));
      }
    }
    assert targets[..|targets|] == targets;
  }

  /** The hash so far stands for `total`. */
  ghost predicate Stands(hash: uint32, total: nat) {
    hash == Wrap32(total)
  }

  /** The hash of what came before and a target's first `p` settings. */
  ghost predicate Added(hash: uint32, before: nat, stableId: Id, settings: seq<Setting>, p: nat)
    requires p <= |settings|
  {
    Stands(hash, before + Settings(stableId, settings[..p]))
  }

  lemma NextAdded(hash: uint32, before: nat, stableId: Id, settings: seq<Setting>, p: nat)
    requires p < |settings| && Added(hash, before, stableId, settings, p)
    ensures Added(Wrap32(hash + Term(stableId, settings[p])), before, stableId, settings, p + 1)
  {
    hide Term, Wrap32;
    assert settings[..p + 1][..p] == settings[..p];
    WrapAdd(before + Settings(stableId, settings[..p]), Term(stableId, settings[p]));
  }

  lemma AllAdded(hash: uint32, before: nat, stableId: Id, settings: seq<Setting>)
    ensures Added(hash, before, stableId, settings, |settings|) <==> Stands(hash, before + Settings(stableId, settings))
    ensures Added(hash, before, stableId, settings, 0) <==> Stands(hash, before)
  {
    hide Term, Wrap32;
    assert settings[..|settings|] == settings;
  }

  method AddSettings(start: uint32, stableId: Id, settings: seq<Setting>, ghost before: nat) returns (hash: uint32)
    requires Stands(start, before)
    ensures Stands(hash, before + Settings(stableId, settings))
  {
    hide Term, Settings, Added, Fnv;
    hash := start;
    AllAdded(hash, before, stableId, settings);
    for p := 0 to |settings|
      invariant Added(hash, before, stableId, settings, p)
    {
      hide Term, Settings, Added, Fnv;
      NextAdded(hash, before, stableId, settings, p);
      hash := HashAdd(hash, stableId, settings[p]);
    }
    AllAdded(hash, before, stableId, settings);
  }

  lemma WrapAdd(a: nat, b: nat)
    ensures Wrap32(Wrap32(a) + b) == Wrap32(a + b)
  {
  }

  /** The tuner: the sum over a profile's targets whose stage is one of the pipeline's. */
  method TunerHash(profile: seq<Target>, stageIds: seq<Id>) returns (hash: uint32)
    ensures hash == Wrap32(ByTarget(stageIds, profile))
  {
    hide Settings, Stands;
    hash := 0;
    StandsFor(hash, 0);
    for i := 0 to |profile|
      invariant Stands(hash, ByTarget(stageIds, profile[..i]))
    {
      hide Settings, Stands, Wrap32;
      assert profile[..i + 1][..i] == profile[..i];
      if profile[i].stableId in stageIds {
        hash := ScriptSettings(hash, profile[i].stableId, profile[i].settings, ByTarget(stageIds, profile[..i]));
      }
    }
    assert profile[..|profile|] == profile;
    StandsFor(hash, ByTarget(stageIds, profile));
  }

  lemma StandsFor(hash: uint32, total: nat)
    ensures Stands(hash, total) <==> hash == Wrap32(total)
    ensures Stands(0, 0)
  {
  }

  method ScriptSettings(start: uint32, stableId: Id, settings: seq<Setting>, ghost before: nat) returns (hash: uint32)
    requires Stands(start, before)
    ensures Stands(hash, before + Settings(stableId, settings))
  {
    hide Term, Settings, Added, Fnv;
    hash := start;
    AllAdded(hash, before, stableId, settings);
    for p := 0 to |settings|
      invariant Added(hash, before, stableId, settings, p)
    {
      hide Term, Settings, Added, Fnv;
      NextAdded(hash, before, stableId, settings, p);
      var fnv := ScriptTerm(stableId, settings[p]);
      hash := Wrap32(hash + fnv);
    }
    AllAdded(hash, before, stableId, settings);
  }

  method ScriptTerm(stableId: Id, s: Setting) returns (fnv: uint32)
    ensures fnv == Term(stableId, s)
  {
    hide Fnv, Le32;
    fnv := ScriptFnv(SettingBytes(stableId, s));
  }

  method ScriptFnv(bytes: seq<uint8>) returns (fnv: uint32)
    ensures fnv == Fnv(FNV_OFFSET, bytes)
  {
    fnv := FNV_OFFSET;
    for i := 0 to |bytes|
      invariant fnv == Fnv(FNV_OFFSET, bytes[..i])
    {
      assert bytes[..i + 1][..i] == bytes[..i];
      StepsAgree(fnv, bytes[i]);
      fnv := ScriptStep(fnv, bytes[i]);
    }
    assert bytes[..|bytes|] == bytes;
  }

  /** A device and a profile with the same settings for a pipeline's stages have the same hash,
      whatever the order of stages, targets, and settings, and whatever else they hold. */
  lemma HashesAgree(stages: seq<Id>, targets: seq<Target>, profile: seq<Target>, stageIds: seq<Id>)
    requires Distinct(stages) && Distinct(stageIds) && forall id :: id in stages <==> id in stageIds
    requires DistinctTargets(targets) && DistinctTargets(profile) && SameSettings(stages, targets, profile)
    ensures Wrap32(ByStage(stages, targets)) == Wrap32(ByTarget(stageIds, profile))
  {
    StagesAgree(stages, targets, profile);
    OrdersAgree(stages, profile);
    SameFilter(stages, stageIds, profile);
  }

  lemma {:induction false} SameFilter(a: seq<Id>, b: seq<Id>, targets: seq<Target>)
    requires forall id :: id in a <==> id in b
    ensures ByTarget(a, targets) == ByTarget(b, targets)
    decreases |targets|
  {
    if targets != [] {
      SameFilter(a, b, targets[..|targets| - 1]);
    }
  }
}
