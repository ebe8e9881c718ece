/** Machine integers and little-endian byte layout shared by firmware and host code. */
module Bytes {
  type uint8 = x: int | 0 <= x < 0x100
  type uint16 = x: int | 0 <= x < 0x1_0000
  type uint32 = x: int | 0 <= x < 0x1_0000_0000
  type int32 = x: int | -0x8000_0000 <= x < 0x8000_0000

  datatype Option<+T> = None | Some(value: T)

  /** The C cast from a signed to an unsigned 32-bit integer. */
  function Unsigned(x: int32): (u: uint32) {
    if x < 0 then x + 0x1_0000_0000 else x
  }

  /** The C cast from an unsigned to a signed 32-bit integer; JavaScript's `| 0`. */
  function Signed(u: uint32): (x: int32)
    ensures Unsigned(x) == u
  {
    if u < 0x8000_0000 then u else u - 0x1_0000_0000
  }

  /** Reduction of any integer to 32 unsigned bits; JavaScript's `>>> 0`. */
  function Wrap32(x: int): uint32 {
    x % 0x1_0000_0000
  }

  // ----- the 32-bit clock -----

  /** How far a time lies after `origin`. */
  function Offset(t: uint32, origin: uint32): uint32 {
    Wrap32(t - origin)
  }

  /** How far `a` is after `b`: `(int32_t)(a - b)` in C, `(a - b) | 0` in JavaScript. */
  function Since(a: uint32, b: uint32): int32 {
    Signed(Offset(a, b))
  }

  /** Which is the time between them, across the wrap of the clock, for times within 2^31 of an
      origin. */
  lemma SinceIsDifference(a: uint32, b: uint32, origin: uint32)
    requires Offset(a, origin) < 0x8000_0000 && Offset(b, origin) < 0x8000_0000
    ensures Since(a, b) == Offset(a, origin) - Offset(b, origin)
    ensures Since(a, b) >= 0 ==> Offset(a, b) == Since(a, b)
  {
    hide Offset;
    OffsetIs(a, origin);
    OffsetIs(b, origin);
    OffsetIs(a, b);
  }

  lemma OffsetIs(t: uint32, origin: uint32)
    ensures Offset(t, origin) == if t >= origin then t - origin else t - origin + 0x1_0000_0000
  {
  }

  // ----- little-endian layout -----

  function Le16(v: uint16): (b: seq<uint8>)
    ensures |b| == 2
  {
    [v % 0x100, v / 0x100]
  }

  function Le32(v: uint32): (b: seq<uint8>)
    ensures |b| == 4
  {
    [v % 0x100, v / 0x100 % 0x100, v / 0x100 / 0x100 % 0x100, v / 0x100 / 0x100 / 0x100]
  }

  function GetLe16(b: seq<uint8>, at: nat): uint16
    requires at + 2 <= |b|
  {
    var low: int, high: int := b[at], b[at + 1];
    low + 0x100 * high
  }

  function GetLe32(b: seq<uint8>, at: nat): uint32
    requires at + 4 <= |b|
  {
    var b0: int, b1: int, b2: int, b3: int := b[at], b[at + 1], b[at + 2], b[at + 3];
    b0 + 0x100 * (b1 + 0x100 * (b2 + 0x100 * b3))
  }

  lemma AppendAssociates(a: seq<uint8>, b: seq<uint8>, c: seq<uint8>)
    ensures a + b + c == a + (b + c)
  {
  }

  /** `code` stands in `payload` at `at`. */
  ghost predicate Holds(payload: seq<uint8>, at: nat, code: seq<uint8>) {
    at + |code| <= |payload| && payload[at..at + |code|] == code
  }

  /** The bytes from `from` on are as they were. */
  ghost predicate SameFrom(before: seq<uint8>, after: seq<uint8>, from: nat) {
    |after| == |before| && forall k | from <= k < |before| :: after[k] == before[k]
  }

  lemma HoldsAt(payload: seq<uint8>, at: nat, code: seq<uint8>, k: nat)
    requires Holds(payload, at, code) && k < |code|
    ensures payload[at + k] == code[k]
  {
    assert payload[at..at + |code|][k] == code[k];
  }

  /** A concatenation stands where its parts stand one after the other. */
  lemma HoldsParts(payload: seq<uint8>, at: nat, a: seq<uint8>, b: seq<uint8>)
    requires Holds(payload, at, a + b)
    ensures Holds(payload, at, a) && Holds(payload, at + |a|, b)
  {
    assert payload[at..at + |a|] == payload[at..at + |a + b|][..|a|] == (a + b)[..|a|] == a;
    assert payload[at + |a|..at + |a| + |b|] == payload[at..at + |a + b|][|a|..] == (a + b)[|a|..] == b;
  }

  lemma Le16Holds(payload: seq<uint8>, at: nat, v: uint16)
    requires Holds(payload, at, Le16(v))
    ensures GetLe16(payload, at) == v
  {
    forall k: nat | k < 2 ensures payload[at + k] == Le16(v)[k] { HoldsAt(payload, at, Le16(v), k); }
  }

  lemma Le32Value(v: uint32)
    ensures GetLe32(Le32(v), 0) == v
  {
  }

  lemma Le32Holds(payload: seq<uint8>, at: nat, v: uint32)
    requires Holds(payload, at, Le32(v))
    ensures GetLe32(payload, at) == v
  {
    var code := Le32(v);
    HoldsAt(payload, at, code, 0);
    HoldsAt(payload, at, code, 1);
    HoldsAt(payload, at, code, 2);
    HoldsAt(payload, at, code, 3);
    Le32Value(v);
  }
}
