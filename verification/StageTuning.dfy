/** The tunable parameters of each stage, their fixed-point fields, and the configs prepared
    from them (src/stage/stage_tuning.c). */
module StageTuning {
  import opened Bytes
  import opened Errno

  // ----- fixed point -----

  const FIXED_ONE: int := 0x1_0000

  /** C division, toward zero. */
  function Quotient(a: int, b: int): int
    requires b > 0
  {
    if a >= 0 then a / b else -((-a) / b)
  }

  function MicrometersToFixed(value: int32): int {
    Quotient(value * FIXED_ONE + 500, 1000)
  }

  function PerMeterToFixed(value: int32): int {
    Quotient(value * FIXED_ONE, 1000)
  }

  /** Micrometres, or units per metre, of a fixed-point field: rounded, then saturated. */
  function FromFixed(field: int): int32 {
    var scaled := field * 1000;
    var rounded := if scaled >= 0 then Quotient(scaled + FIXED_ONE / 2, FIXED_ONE) else Quotient(scaled - FIXED_ONE / 2, FIXED_ONE);
    if rounded > 0x7fff_ffff then 0x7fff_ffff else if rounded < -0x8000_0000 then -0x8000_0000 else rounded
  }

  lemma QuotientIs(a: int, q: int)
    requires a >= 0 && q * FIXED_ONE <= a < q * FIXED_ONE + FIXED_ONE
    ensures Quotient(a, FIXED_ONE) == q
  {
  }

  /** A field within 1.5 of the exact fixed-point value reads back exactly. */
  lemma ReadsBack(value: int32, field: int)
    requires -1500 < field * 1000 - value * FIXED_ONE < 1500
    requires value == 0 ==> field == 0
    ensures FromFixed(field) == value
  {
    var scaled, v: int := field * 1000, value;
    if scaled >= 0 {
      QuotientIs(scaled + FIXED_ONE / 2, v);
    } else {
      QuotientIs(-(scaled - FIXED_ONE / 2), -v);
    }
  }

  /** Micrometres survive the conversion to fixed point and back, all of them. */
  lemma MicrometersExact(value: int32)
    ensures FromFixed(MicrometersToFixed(value)) == value
  {
    ReadsBack(value, MicrometersToFixed(value));
  }

  lemma PerMeterExact(value: int32)
    ensures FromFixed(PerMeterToFixed(value)) == value
  {
    ReadsBack(value, PerMeterToFixed(value));
  }

  /** Micrometres are rounded to the nearest fixed-point number, and units per metre down to the
      next; a fixed-point number reads as the nearest integer, as far as 32 bits reach. */
  lemma FixedNearest(value: int32, field: int)
    ensures value >= 0 ==> -500 <= value * FIXED_ONE - MicrometersToFixed(value) * 1000 <= 500
    ensures value >= 0 ==> 0 <= value * FIXED_ONE - PerMeterToFixed(value) * 1000 < 1000
    ensures -0x8000_0000 < FromFixed(field) < 0x7fff_ffff ==>
              -FIXED_ONE / 2 <= field * 1000 - FromFixed(field) * FIXED_ONE <= FIXED_ONE / 2
    ensures FromFixed(field) == 0x7fff_ffff ==> field * 1000 >= 0x7fff_ffff * FIXED_ONE - FIXED_ONE / 2
    ensures FromFixed(field) == -0x8000_0000 ==> field * 1000 <= -0x8000_0000 * FIXED_ONE + FIXED_ONE / 2
  {
  }

  // ----- parameters -----

  datatype StageKind = Gate | Transfer | Scroll | Text | Intent | Constraint | Acceleration | Coalescer

  /** How a field holds its parameter: a flag, a 16-bit integer, or fixed point. */
  datatype Unit = Flag | Count | Micrometers | PerMeter

  /** `struct zpt_tuning_parameter`; its id is its place in the stage's table. */
  datatype Parameter = Parameter(unit: Unit, minimum: int32, maximum: int32, step: int32) {
    /** The ranges the service checks. */
    predicate Takes(value: int32) {
      && minimum <= value <= maximum
      && (step > 1 ==> (value - minimum) % step == 0)
      && (unit == Flag ==> value == 0 || value == 1)
    }
  }

  const POINTS: nat := 8
  const MAX_SPEED: int32 := 10000
  const MAX_PERCENT: int32 := 1000
  const MAX_TIME_CONSTANT: int32 := 200

  const ENGAGE_RATIO: nat := 0
  const RELEASE_RATIO: nat := 1
  const PERCENT_FIRST: nat := POINTS

  function Ms(minimum: int32, maximum: int32): Parameter {
    Parameter(Count, minimum, maximum, 1)
  }

  /** The curve's speeds, and then its percents. */
  function CurveTable(): (table: seq<Parameter>)
    ensures |table| == 2 * POINTS
    ensures forall p <- table :: p.unit == Count && 0 <= p.minimum <= p.maximum < 0x1_0000
  {
    seq(POINTS, _ => Parameter(Count, 0, MAX_SPEED, 1)) + seq(POINTS, _ => Parameter(Count, 1, MAX_PERCENT, 1))
  }

  function Table(kind: StageKind): (table: seq<Parameter>)
    ensures forall p <- table :: 0 <= p.minimum <= p.maximum < 0x1_0000 * 2
    ensures forall p <- table :: (p.unit == Count ==> p.maximum < 0x1_0000) && (p.unit == Flag ==> p.minimum == 0 && p.maximum == 1)
    ensures 0 < |table| < 0x100
  {
    match kind
    case Gate =>
      [Parameter(Flag, 0, 1, 1), Parameter(Micrometers, 1, 20000, 1), Parameter(Count, 0, 100, 1), Ms(1, 5000), Ms(1, 5000)]
    case Transfer => [Parameter(Count, 0, 1000, 1), Parameter(Count, 1, 1000, 1)]
    case Scroll => [Parameter(PerMeter, 1, 100000, 1), Ms(1, 1000)]
    case Text => [Parameter(Micrometers, 1, 50000, 1), Parameter(Micrometers, 1, 50000, 1), Ms(1, 5000)]
    case Intent =>
      [Parameter(Count, 100, 1000, 1), Parameter(Count, 100, 1000, 1), Parameter(Micrometers, 1, 20000, 1), Ms(1, 2000), Ms(0, 5000)]
    case Constraint => [Parameter(Flag, 0, 1, 1), Ms(0, 5000), Ms(0, 1000)]
    case Acceleration => CurveTable() + [Ms(1, MAX_TIME_CONSTANT), Ms(1, MAX_TIME_CONSTANT)]
    case Coalescer => [Ms(0, 1000), Ms(0, 1000)]
  }

  // ----- configs -----

  /** A stage's config: its tunable fields in the order of their parameters, and the rest. */
  datatype Config = Config(kind: StageKind, fields: seq<int>, rest: nat) {
    /** Every field is there and holds what its type can. */
    ghost predicate Shaped() {
      && |fields| == |Table(kind)|
      && forall id | 0 <= id < |fields| :: Storable(Table(kind)[id].unit, fields[id])
    }
  }

  ghost predicate Storable(unit: Unit, field: int) {
    (unit == Flag ==> field == 0 || field == 1) && (unit == Count ==> 0 <= field < 0x1_0000)
  }

  function Encode(unit: Unit, value: int32): int {
    match unit
    case Flag => if value != 0 then 1 else 0
    case Count => value % 0x1_0000
    case Micrometers => MicrometersToFixed(value)
    case PerMeter => PerMeterToFixed(value)
  }

  function Decode(unit: Unit, field: int): int32
    requires Storable(unit, field)
  {
    match unit
    case Flag => field
    case Count => field
    case _ => FromFixed(field)
  }

  /** What a parameter takes, its field gives back. */
  lemma ParameterExact(p: Parameter, value: int32)
    requires p.Takes(value) && (p.unit == Count ==> p.minimum >= 0 && p.maximum < 0x1_0000)
    ensures Storable(p.unit, Encode(p.unit, value)) && Decode(p.unit, Encode(p.unit, value)) == value
  {
    hide MicrometersToFixed, PerMeterToFixed, FromFixed;
    MicrometersExact(value);
    PerMeterExact(value);
  }

  /** The ops' `get`: none for an unknown parameter. */
  function Get(c: Config, id: uint8): (value: Option<int32>)
    requires c.Shaped()
    ensures value.Some? <==> id < |Table(c.kind)|
  {
    if id < |Table(c.kind)| then Some(Decode(Table(c.kind)[id].unit, c.fields[id])) else None
  }

  /** The ops' `put`. */
  function Put(c: Config, id: uint8, value: int32): (r: Option<Config>)
    requires c.Shaped()
    ensures r.Some? <==> id < |Table(c.kind)|
    ensures r.Some? ==> r.value.Shaped() && r.value.kind == c.kind && r.value.rest == c.rest
  {
    EncodeStorable(if id < |Table(c.kind)| then Table(c.kind)[id].unit else Flag, value);
    if id < |Table(c.kind)| then Some(c.(fields := c.fields[id := Encode(Table(c.kind)[id].unit, value)])) else None
  }

  lemma EncodeStorable(unit: Unit, value: int32)
    ensures Storable(unit, Encode(unit, value))
  {
  }

  /** A stored value is read back, and no other parameter changes. */
  lemma PutGet(c: Config, id: uint8, value: int32, other: uint8)
    requires c.Shaped() && id < |Table(c.kind)| && Table(c.kind)[id].Takes(value)
    ensures var put := Put(c, id, value).value;
            put.Shaped() && Get(put, other) == if other == id then Some(value) else Get(c, other)
  {
    hide MicrometersToFixed, PerMeterToFixed, FromFixed, Table;
    assert Table(c.kind)[id] in Table(c.kind);
    ParameterExact(Table(c.kind)[id], value);
  }

  /** All parameters are in their ranges. */
  ghost predicate InRange(c: Config)
    requires c.Shaped()
  {
    forall id: uint8 | id < |Table(c.kind)| :: Table(c.kind)[id].Takes(Get(c, id).value)
  }

  /** What holds across parameters: the curve's speeds increase, and the release ratio is at
      most the engage ratio. */
  ghost predicate Coherent(c: Config)
    requires c.Shaped()
  {
    match c.kind
    case Intent => c.fields[RELEASE_RATIO] <= c.fields[ENGAGE_RATIO]
    case Acceleration => forall p | 1 <= p < POINTS :: c.fields[p - 1] < c.fields[p]
    case _ => true
  }

  ghost predicate Valid(c: Config) {
    c.Shaped() && InRange(c) && Coherent(c)
  }

  /** The parameter that breaks a rule: the release ratio, or the first speed that does not
      exceed the one before it. */
  ghost predicate Blamed(c: Config, failed: uint8)
    requires c.Shaped()
  {
    match c.kind
    case Intent => failed == RELEASE_RATIO && c.fields[RELEASE_RATIO] > c.fields[ENGAGE_RATIO]
    case Acceleration =>
      && 0 < failed < POINTS && c.fields[failed - 1] >= c.fields[failed]
      && forall p | 1 <= p < failed :: c.fields[p - 1] < c.fields[p]
    case _ => false
  }

  /** The rules across a config's parameters. */
  method Validate(c: Config) returns (ret: int, failed: uint8)
    requires c.Shaped()
    ensures ret == if Coherent(c) then 0 else EINVAL
    ensures ret != 0 ==> Blamed(c, failed)
  {
    failed := 0xff;
    match c.kind {
      case Intent =>
        if c.fields[RELEASE_RATIO] > c.fields[ENGAGE_RATIO] {
          return EINVAL, RELEASE_RATIO;
        }
      case Acceleration =>
        for point := 1 to POINTS
          invariant forall p | 1 <= p < point :: c.fields[p - 1] < c.fields[p]
        {
          if c.fields[point] <= c.fields[point - 1] {
            return EINVAL, point;
          }
        }
      case _ =>
    }
    ret := 0;
  }
}
