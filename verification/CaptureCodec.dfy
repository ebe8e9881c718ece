/** How firmware encodes one capture record (src/observer/capture.c): whole records,
    frames as zigzag/varint deltas from the previous frame, and the length of a stored
    record read back from its own bytes. */
module CaptureCodec {
  import opened Bytes

  // Record kinds on the wire, and the marker that stands for dropped records in the ring.
  const FRAME := 1
  const SOURCE := 2
  const KEYPRESS := 3
  const ENTERED := 4
  const LEFT := 5
  const SETTINGS_CHANGED := 6
  const FLUSH := 7
  const GAP_MARKER := 0x7f
  const DELTA_FRAME := 0x80
  const DELTA_FLAGS := 4

  // Span modes of a delta frame, the two low bits of its kind.
  const SPAN_PREVIOUS := 0
  const SPAN_ELAPSED := 1
  const SPAN_ELAPSED_PLUS := 2
  const SPAN_ABSOLUTE := 3

  const RECORD_MAX_SIZE: nat := 20
  const BATCH_HEADER_SIZE: nat := 5

  /** One input frame. The fields are plain integers because a host decoder computes them
      from whatever bytes arrive; Fits says they have the widths firmware gives them. */
  datatype Frame = Frame(flags: int, timeMs: int, timeUs: int, x: int, y: int, spanUs: int) {
    predicate Fits() {
      && 0 <= flags < 0x100 && 0 <= timeMs < 0x1_0000_0000 && 0 <= timeUs < 1000
      && -0x8000_0000 <= x < 0x8000_0000 && -0x8000_0000 <= y < 0x8000_0000
      && 0 <= spanUs < 0x1_0000_0000
    }

    /** Microseconds of uptime. */
    function Us(): int {
      timeMs * 1000 + timeUs
    }
  }

  datatype Record =
    | FrameRecord(frame: Frame)
    | Source(link: uint8, sourceId: uint16, cpi: uint16)
    | Keypress(timeMs: uint32)
    | Entered(settingsHash: uint32)
    | Left
    | SettingsChanged
    | Flush(timeMs: uint32)
  {
    /** The widths of struct zpt_capture_record; a frame's microseconds are 0 to 999. */
    predicate Fits() {
      FrameRecord? ==> frame.Fits()
    }
  }

  /** What deltas are made from, out of an earlier frame. */
  datatype Base = Base(us: int, spanUs: int, flags: int) {
    predicate Fits() {
      0 <= us < 0x1_0000_0000 * 1000 && 0 <= spanUs < 0x1_0000_0000 && 0 <= flags < 0x100
    }
  }

  function BaseOf(f: Frame): (b: Base)
    ensures f.Fits() ==> b.Fits()
  {
    Base(f.Us(), f.spanUs, f.flags)
  }

  // ----- varints -----

  /** Small magnitudes of either sign as small naturals, the sign in the lowest bit. */
  function Zigzag(v: int32): (z: uint32)
    ensures Unzigzag(z) == v
  {
    if v >= 0 then 2 * v else -2 * v - 1
  }

  function Unzigzag(z: int): int {
    if z % 2 == 0 then z / 2 else -((z + 1) / 2)
  }

  /** Seven bits a byte, low bits first, the top bit set on every byte but the last. */
  function Varint(v: uint32): (b: seq<uint8>)
    ensures 1 <= |b| <= 5
    ensures v < 0x1000_0000 ==> |b| <= 4
    ensures v < 0x20_0000 ==> |b| <= 3
    ensures v < 0x4000 ==> |b| <= 2
    ensures v < 0x80 ==> |b| == 1
    decreases v
  {
    if v < 0x80 then [v] else [v % 0x80 + 0x80] + Varint(v / 0x80)
  }

  method PutVarint(out: array<uint8>, at: nat, value: uint32) returns (length: nat)
    requires at + 5 <= out.Length
    modifies out
    ensures length == |Varint(value)|
    ensures out[..at + length] == old(out[..at]) + Varint(value)
    ensures SameFrom(old(out[..]), out[..], at + length)
  {
    var rest := value;
    length := 0;
    while rest >= 0x80
      invariant length + |Varint(rest)| == |Varint(value)|
      invariant out[..at + length] + Varint(rest) == old(out[..at]) + Varint(value)
      invariant SameFrom(old(out[..]), out[..], at + length)
      decreases rest
    {
      ghost var was, done := rest, out[..at + length];
      out[at + length] := rest % 0x80 + 0x80;
      length := length + 1;
      rest := rest / 0x80;
      assert out[..at + length] == done + [was % 0x80 + 0x80];
      assert done + Varint(was) == out[..at + length] + Varint(rest);
    }
    ghost var done := out[..at + length];
    out[at + length] := rest;
    length := length + 1;
    assert out[..at + length] == done + Varint(rest);
  }

  // ----- whole records -----

  /** A record's whole form: its kind, then its fields at fixed places. */
  function EncodeFull(r: Record): (b: seq<uint8>)
    requires r.Fits()
    ensures 1 <= |b| <= RECORD_MAX_SIZE
  {
    match r
    case FrameRecord(f) =>
      [FRAME, f.flags] + Le32(f.timeMs) + Le16(f.timeUs) + Le32(Unsigned(f.x)) + Le32(Unsigned(f.y)) + Le32(f.spanUs)
    case Source(link, sourceId, cpi) => [SOURCE, link] + Le16(sourceId) + Le16(cpi)
    case Keypress(timeMs) => [KEYPRESS] + Le32(timeMs)
    case Entered(hash) => [ENTERED] + Le32(hash)
    case Left => [LEFT]
    case SettingsChanged => [SETTINGS_CHANGED]
    case Flush(timeMs) => [FLUSH] + Le32(timeMs)
  }

  method PutLe16(out: array<uint8>, at: nat, value: uint16)
    requires at + 2 <= out.Length
    modifies out
    ensures out[..at + 2] == old(out[..at]) + Le16(value)
  {
    out[at] := value % 0x100;
    out[at + 1] := value / 0x100;
  }

  method PutLe32(out: array<uint8>, at: nat, value: uint32)
    requires at + 4 <= out.Length
    modifies out
    ensures out[..at + 4] == old(out[..at]) + Le32(value)
    ensures out[at + 4..] == old(out[at + 4..])
  {
    out[at] := value % 0x100;
    out[at + 1] := value / 0x100 % 0x100;
    out[at + 2] := value / 0x100 / 0x100 % 0x100;
    out[at + 3] := value / 0x100 / 0x100 / 0x100;
  }

  /** Encodes the record whole into `out`. */
  method PutFull(r: Record, out: array<uint8>) returns (length: nat)
    requires r.Fits() && out.Length >= RECORD_MAX_SIZE
    modifies out
    ensures length <= out.Length && out[..length] == EncodeFull(r)
  {
    hide Le16, Le32, Unsigned;
    match r
    case FrameRecord(f) =>
      out[0], out[1] := FRAME, f.flags;
      PutLe32(out, 2, f.timeMs);
      PutLe16(out, 6, f.timeUs);
      PutLe32(out, 8, Unsigned(f.x));
      PutLe32(out, 12, Unsigned(f.y));
      PutLe32(out, 16, f.spanUs);
      length := 20;
    case Source(link, sourceId, cpi) =>
      out[0], out[1] := SOURCE, link;
      PutLe16(out, 2, sourceId);
      PutLe16(out, 4, cpi);
      length := 6;
    case Keypress(timeMs) =>
      out[0] := KEYPRESS;
      PutLe32(out, 1, timeMs);
      length := 5;
    case Flush(timeMs) =>
      out[0] := FLUSH;
      PutLe32(out, 1, timeMs);
      length := 5;
    case Entered(hash) =>
      out[0] := ENTERED;
      PutLe32(out, 1, hash);
      length := 5;
    case Left =>
      out[0] := LEFT;
      length := 1;
    case SettingsChanged =>
      out[0] := SETTINGS_CHANGED;
      length := 1;
  }

  // ----- delta frames -----

  predicate FitsInt32(v: int) {
    -0x8000_0000 <= v < 0x8000_0000
  }

  /** How the span is given: the first of the four ways that applies. */
  function SpanMode(base: Base, f: Frame): (mode: uint8)
    requires f.Fits() && FitsInt32(f.Us() - base.us)
    ensures 0 <= mode < 4
  {
    var elapsed := f.Us() - base.us;
    if f.spanUs == base.spanUs then SPAN_PREVIOUS
    else if f.spanUs == elapsed then SPAN_ELAPSED
    else if FitsInt32(f.spanUs - elapsed) && |Varint(Zigzag(f.spanUs - elapsed))| < |Varint(f.spanUs)|
    then SPAN_ELAPSED_PLUS
    else SPAN_ABSOLUTE
  }

  /** The bytes that give the span in a mode. */
  function SpanBytes(base: Base, f: Frame): (b: seq<uint8>)
    requires f.Fits() && FitsInt32(f.Us() - base.us)
    ensures |b| <= 5
  {
    var mode := SpanMode(base, f);
    if mode == SPAN_ELAPSED_PLUS then Varint(Zigzag(f.spanUs - (f.Us() - base.us)))
    else if mode == SPAN_ABSOLUTE then Varint(f.spanUs)
    else []
  }

  /** Bit 7 marks a delta, bit 2 a flags byte, bits 0 and 1 the span mode. */
  function DeltaKind(base: Base, f: Frame): (kind: uint8)
    requires f.Fits() && FitsInt32(f.Us() - base.us)
    ensures DELTA_FRAME <= kind < DELTA_FRAME + 8
    ensures kind % 4 == SpanMode(base, f)
    ensures kind / DELTA_FLAGS % 2 == |FlagBytes(base, f)|
  {
    DELTA_FRAME + (if f.flags != base.flags then DELTA_FLAGS else 0) + SpanMode(base, f)
  }

  function MotionBytes(elapsed: int32, x: int32, y: int32): (b: seq<uint8>)
    ensures 3 <= |b| <= 15
  {
    Varint(Zigzag(elapsed)) + Varint(Zigzag(x)) + Varint(Zigzag(y))
  }

  function DeltaBytes(base: Base, f: Frame): (b: seq<uint8>)
    requires f.Fits() && FitsInt32(f.Us() - base.us)
    ensures 4 <= |b| <= RECORD_MAX_SIZE + 2
  {
    [DeltaKind(base, f)] + MotionBytes(f.Us() - base.us, f.x, f.y) + FlagBytes(base, f) + SpanBytes(base, f)
  }

  /** The delta form of a frame; empty without a base, for an interval beyond 32 bits, and where
      the whole form is no longer than the delta. */
  function EncodeDelta(base: Option<Base>, f: Frame): (b: seq<uint8>)
    requires f.Fits()
    ensures |b| < RECORD_MAX_SIZE
  {
    if base.None? || !FitsInt32(f.Us() - base.value.us) then []
    else
      var b := DeltaBytes(base.value, f);
      if |b| < RECORD_MAX_SIZE then b else []
  }

  method ChooseSpanMode(base: Base, f: Frame) returns (mode: uint8)
    requires f.Fits() && FitsInt32(f.Us() - base.us)
    ensures mode == SpanMode(base, f)
  {
    var elapsed := f.Us() - base.us;
    mode := SPAN_ABSOLUTE;
    if f.spanUs == base.spanUs {
      mode := SPAN_PREVIOUS;
    } else if elapsed >= 0 && f.spanUs == elapsed {
      mode := SPAN_ELAPSED;
    } else if FitsInt32(f.spanUs - elapsed) {
      var scratch := new uint8[5];
      var plus := PutVarint(scratch, 0, Zigzag(f.spanUs - elapsed));
      var absolute := PutVarint(scratch, 0, f.spanUs);
      if plus < absolute {
        mode := SPAN_ELAPSED_PLUS;
      }
    }
  }

  method PutSpan(base: Base, f: Frame, mode: uint8, out: array<uint8>, at: nat) returns (length: nat)
    requires f.Fits() && FitsInt32(f.Us() - base.us) && mode == SpanMode(base, f)
    requires at + 5 <= out.Length
    modifies out
    ensures length == at + |SpanBytes(base, f)|
    ensures out[..length] == old(out[..at]) + SpanBytes(base, f)
  {
    length := at;
    if mode == SPAN_ELAPSED_PLUS {
      var n := PutVarint(out, at, Zigzag(f.spanUs - (f.Us() - base.us)));
      length := length + n;
    } else if mode == SPAN_ABSOLUTE {
      var n := PutVarint(out, at, f.spanUs);
      length := length + n;
    }
  }

  method PutFlags(flags: bool, value: uint8, out: array<uint8>, at: nat) returns (length: nat)
    requires at < out.Length
    modifies out
    ensures length == at + (if flags then 1 else 0)
    ensures out[..length] == old(out[..at]) + (if flags then [value] else [])
  {
    length := at;
    if flags {
      out[at] := value;
      length := at + 1;
    }
  }

  method PutMotion(elapsed: int32, x: int32, y: int32, out: array<uint8>, at: nat) returns (length: nat)
    requires at + 15 <= out.Length
    modifies out
    ensures length == at + |MotionBytes(elapsed, x, y)|
    ensures out[..length] == old(out[..at]) + MotionBytes(elapsed, x, y)
  {
    hide Varint, Zigzag, SameFrom;
    ghost var done, e, vx, vy := out[..at], Varint(Zigzag(elapsed)), Varint(Zigzag(x)), Varint(Zigzag(y));
    var n := PutVarint(out, at, Zigzag(elapsed));
    length := at + n;
    n := PutVarint(out, length, Zigzag(x));
    length := length + n;
    n := PutVarint(out, length, Zigzag(y));
    length := length + n;
    AppendAssociates(done, e, vx);
    AppendAssociates(done, e + vx, vy);
  }

  /** EncodeDelta into an array; the length is 0 where EncodeDelta is empty. */
  method PutDelta(base: Option<Base>, f: Frame, out: array<uint8>) returns (length: nat)
    requires f.Fits()
    requires out.Length == RECORD_MAX_SIZE + 2
    modifies out
    ensures length <= out.Length && out[..length] == EncodeDelta(base, f)
  {
    hide Varint, Zigzag, MotionBytes, SpanBytes, SpanMode, SameFrom;
    if base.None? || !FitsInt32(f.Us() - base.value.us) {
      return 0;
    }
    var elapsed := f.Us() - base.value.us;
    var mode := ChooseSpanMode(base.value, f);
    var flags := f.flags != base.value.flags;
    out[0] := DELTA_FRAME + (if flags then DELTA_FLAGS else 0) + mode;
    assert out[..1] == [DeltaKind(base.value, f)];
    length := PutMotion(elapsed, f.x, f.y, out, 1);
    length := PutFlags(flags, f.flags, out, length);
    length := PutSpan(base.value, f, mode, out, length);
    length := if length < RECORD_MAX_SIZE then length else 0;
  }

  /** The bytes a record is stored as, relative to a base. */
  function EncodeRecord(base: Option<Base>, r: Record): (b: seq<uint8>)
    requires r.Fits()
    ensures 1 <= |b| <= RECORD_MAX_SIZE
  {
    var delta := if r.FrameRecord? then EncodeDelta(base, r.frame) else [];
    if delta == [] then EncodeFull(r) else delta
  }

  function FlagBytes(base: Base, f: Frame): (b: seq<uint8>)
    requires f.Fits()
    ensures |b| <= 1
  {
    if f.flags != base.flags then [f.flags] else []
  }

  /** The span takes no bytes when it is the previous one or the time since, and otherwise no
      more than the shorter of the ways that give it in full or from that time. */
  lemma ShortestSpan(base: Base, f: Frame)
    requires f.Fits() && FitsInt32(f.Us() - base.us)
    ensures |SpanBytes(base, f)| <= |Varint(f.spanUs)|
    ensures FitsInt32(f.spanUs - (f.Us() - base.us))
        ==> |SpanBytes(base, f)| <= |Varint(Zigzag(f.spanUs - (f.Us() - base.us)))|
    ensures f.spanUs == base.spanUs || f.spanUs == f.Us() - base.us ==> SpanBytes(base, f) == []
  {
    hide Varint, Zigzag;
  }

  /** A frame with a base in range takes no more bytes than its kind, motion, changed flags and
      span, nor than its whole form. */
  lemma ShortestForm(base: Option<Base>, f: Frame)
    requires f.Fits()
    ensures |EncodeRecord(base, FrameRecord(f))| <= |EncodeFull(FrameRecord(f))|
    ensures base.Some? && FitsInt32(f.Us() - base.value.us)
        ==> |EncodeRecord(base, FrameRecord(f))|
              <= 1 + |MotionBytes(f.Us() - base.value.us, f.x, f.y)|
                 + (if f.flags != base.value.flags then 1 else 0) + |Varint(f.spanUs)|
  {
    hide Varint, Zigzag, MotionBytes, SpanBytes, DeltaKind;
    if base.Some? && FitsInt32(f.Us() - base.value.us) {
      ShortestSpan(base.value, f);
    }
  }

  lemma MotionLayout(b: seq<uint8>, at: nat, elapsed: int32, x: int32, y: int32)
    requires Holds(b, at, MotionBytes(elapsed, x, y))
    ensures Holds(b, at, Varint(Zigzag(elapsed)))
    ensures Holds(b, at + |Varint(Zigzag(elapsed))|, Varint(Zigzag(x)))
    ensures Holds(b, at + |Varint(Zigzag(elapsed))| + |Varint(Zigzag(x))|, Varint(Zigzag(y)))
  {
    var e, vx, vy := Varint(Zigzag(elapsed)), Varint(Zigzag(x)), Varint(Zigzag(y));
    HoldsParts(b, at, e + vx, vy);
    HoldsParts(b, at, e, vx);
  }

  /** Where the parts of a delta frame stand. */
  lemma DeltaLayout(b: seq<uint8>, at: nat, base: Base, f: Frame)
    requires f.Fits() && FitsInt32(f.Us() - base.us) && Holds(b, at, DeltaBytes(base, f))
    ensures b[at] == DeltaKind(base, f)
    ensures Holds(b, at + 1, MotionBytes(f.Us() - base.us, f.x, f.y))
    ensures var flags := at + 1 + |MotionBytes(f.Us() - base.us, f.x, f.y)|;
            Holds(b, flags, FlagBytes(base, f)) && Holds(b, flags + |FlagBytes(base, f)|, SpanBytes(base, f))
  {
    var kind, motion := [DeltaKind(base, f)], MotionBytes(f.Us() - base.us, f.x, f.y);
    HoldsParts(b, at, kind + motion + FlagBytes(base, f), SpanBytes(base, f));
    HoldsParts(b, at, kind + motion, FlagBytes(base, f));
    HoldsParts(b, at, kind, motion);
    HoldsAt(b, at, kind, 0);
  }

  // ----- what the ring stores -----

  /** One thing in the ring: the count of a gap, or a record with the base it was encoded
      against. */
  datatype Item = Gap(count: uint32) | Stored(record: Record, base: Option<Base>) {
    ghost predicate Fits() {
      Stored? ==> record.Fits()
    }

    ghost function Bytes(): (b: seq<uint8>)
      ensures |b| <= RECORD_MAX_SIZE
      ensures Fits() ==> b != []
    {
      match this
      case Gap(count) => [GAP_MARKER] + Le32(count)
      case Stored(record, base) => if record.Fits() then EncodeRecord(base, record) else []
    }
  }

  /** The first byte of an item tells what it is. */
  lemma ItemKind(item: Item)
    requires item.Fits()
    ensures item.Gap? <==> item.Bytes()[0] == GAP_MARKER
    ensures item.Stored? && item.Bytes()[0] < DELTA_FRAME ==> item.Bytes() == EncodeFull(item.record)
    ensures item.Stored? && item.Bytes()[0] >= DELTA_FRAME ==>
              item.record.FrameRecord? && item.base.Some? && FitsInt32(item.record.frame.Us() - item.base.value.us)
              && item.Bytes() == DeltaBytes(item.base.value, item.record.frame)
  {
    if item.Stored? && item.Bytes() != EncodeFull(item.record) {
      assert item.Bytes()[0] == DeltaKind(item.base.value, item.record.frame);
    }
  }

  /** The length of the varint that starts at `n`, by its continuation bits. */
  ghost function VarintEnd(b: seq<uint8>, at: nat, n: nat): (length: nat)
    requires n <= 5
    ensures n < length <= 6
    decreases 5 - n
  {
    if at + n < |b| && n < 5 && b[at + n] >= 0x80 then VarintEnd(b, at, n + 1) else n + 1
  }

  lemma {:induction false} VarintEndOf(b: seq<uint8>, at: nat, n: nat, v: uint32)
    requires Holds(b, at + n, Varint(v)) && n + |Varint(v)| <= 5
    ensures VarintEnd(b, at, n) == n + |Varint(v)|
    decreases v
  {
    HoldsAt(b, at + n, Varint(v), 0);
    if v >= 0x80 {
      HoldsParts(b, at + n, [v % 0x80 + 0x80], Varint(v / 0x80));
      VarintEndOf(b, at, n + 1, v / 0x80);
    }
  }

  method MeasureVarint(bytes: array<uint8>, at: nat, available: nat, ghost v: uint32) returns (length: nat)
    requires at <= available <= bytes.Length
    requires Holds(bytes[..available], at, Varint(v))
    ensures length == |Varint(v)|
  {
    length := 0;
    VarintEndOf(bytes[..available], at, 0, v);
    while at + length < available && length < 5 && bytes[at + length] >= 0x80
      invariant length <= 5
      invariant VarintEnd(bytes[..available], at, length) == |Varint(v)|
      decreases 5 - length
    {
      length := length + 1;
    }
    length := length + 1;
  }

  method MotionLength(bytes: array<uint8>, at: nat, available: nat, ghost elapsed: int32, ghost x: int32, ghost y: int32)
    returns (length: nat)
    requires at <= available <= bytes.Length
    requires Holds(bytes[..available], at, MotionBytes(elapsed, x, y))
    ensures length == |MotionBytes(elapsed, x, y)|
  {
    MotionLayout(bytes[..available], at, elapsed, x, y);
    length := MeasureVarint(bytes, at, available, Zigzag(elapsed));
    var n := MeasureVarint(bytes, at + length, available, Zigzag(x));
    length := length + n;
    n := MeasureVarint(bytes, at + length, available, Zigzag(y));
    length := length + n;
  }

  method SpanLength(bytes: array<uint8>, at: nat, available: nat, ghost base: Base, ghost f: Frame)
    returns (length: nat)
    requires f.Fits() && FitsInt32(f.Us() - base.us)
    requires at <= available <= bytes.Length && available > 0 && bytes[0] == DeltaKind(base, f)
    requires Holds(bytes[..available], at, SpanBytes(base, f))
    ensures length == |SpanBytes(base, f)|
  {
    length := 0;
    var mode := bytes[0] % 4;
    if mode == SPAN_ELAPSED_PLUS || mode == SPAN_ABSOLUTE {
      length := MeasureVarint(bytes, at, available,
                              if mode == SPAN_ABSOLUTE then f.spanUs else Zigzag(f.spanUs - (f.Us() - base.us)));
    }
  }

  method DeltaLength(bytes: array<uint8>, available: nat, ghost base: Base, ghost f: Frame) returns (length: nat)
    requires f.Fits() && FitsInt32(f.Us() - base.us)
    requires available <= bytes.Length && Holds(bytes[..available], 0, DeltaBytes(base, f))
    ensures length == |DeltaBytes(base, f)|
  {
    hide SpanMode, SpanBytes, MotionBytes, FlagBytes, DeltaKind, Varint;
    DeltaLayout(bytes[..available], 0, base, f);
    length := MotionLength(bytes, 1, available, f.Us() - base.us, f.x, f.y);
    length := length + 1;
    var flags := if bytes[0] / DELTA_FLAGS % 2 == 1 then 1 else 0;
    assert flags == |FlagBytes(base, f)|;
    length := length + flags;
    var n := SpanLength(bytes, length, available, base, f);
    length := length + n;
  }

  /** Measures the item at the front of `bytes`, knowing no more of it than they show. */
  method StoredLength(bytes: array<uint8>, available: nat, ghost item: Item) returns (length: nat)
    requires available <= bytes.Length && item.Fits() && Holds(bytes[..available], 0, item.Bytes())
    ensures length == |item.Bytes()|
  {
    ItemKind(item);
    HoldsAt(bytes[..available], 0, item.Bytes(), 0);
    var kind := bytes[0];
    if kind >= DELTA_FRAME {
      length := DeltaLength(bytes, available, item.base.value, item.record.frame);
      return;
    }
    if kind == FRAME {
      return 20;
    } else if kind == SOURCE {
      return 6;
    } else if kind == KEYPRESS || kind == FLUSH || kind == ENTERED || kind == GAP_MARKER {
      return 5;
    }
    return 1;
  }
}
