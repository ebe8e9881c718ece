/** Decoding a recording's batches on the host (web/protocol.js), first as functions of a payload
    and a state, then as the object that holds the state. */
module CaptureDecoder {
  import opened Bytes
  import opened CaptureCodec

  datatype Error = Truncated | MalformedVarint | UnknownKind(kind: uint8) | TrailingBytes

  datatype Result<+T> = Ok(value: T) | Err(error: Error) {
    predicate IsFailure() {
      Err?
    }

    function PropagateFailure<U>(): Result<U>
      requires Err?
    {
      Err(error)
    }

    function Extract(): T
      requires Ok?
    {
      value
    }
  }

  /** A record with the sequence number the host gives it. */
  datatype Numbered = Numbered(sequence: uint32, record: Record)

  datatype State = State(nextSequence: uint32, previous: Option<Frame>, skipped: nat)

  // ----- varints -----

  datatype Read = Read(value: nat, next: nat)

  /** `low` times 2 to the power 7·i. */
  function Shifted(low: nat, i: nat): nat {
    if i == 0 then low
    else if i == 1 then 0x80 * low
    else if i == 2 then 0x4000 * low
    else if i == 3 then 0x20_0000 * low
    else 0x1000_0000 * low
  }

  /** The varint that starts at `start`, read from `at` on: at most five bytes, the fifth
      holding the top four bits. */
  function VarintAt(p: seq<uint8>, start: nat, at: nat): (r: Result<Read>)
    requires start <= at <= start + 5
    decreases start + 5 - at
  {
    if at == start + 5 then Err(MalformedVarint)
    else if at >= |p| then Err(Truncated)
    else if at == start + 4 && p[at] > 0x0f then Err(MalformedVarint)
    else if p[at] < 0x80 then Ok(Read(p[at], at + 1))
    else
      var rest :- VarintAt(p, start, at + 1);
      Ok(Read(p[at] - 0x80 + 0x80 * rest.value, rest.next))
  }

  lemma {:induction false} VarintRoundTrip(p: seq<uint8>, start: nat, at: nat, v: uint32)
    requires start <= at < start + 5 && Holds(p, at, Varint(v))
    requires v < [0x1_0000_0000, 0x200_0000, 0x4_0000, 0x800, 0x10][at - start]
    ensures VarintAt(p, start, at) == Ok(Read(v, at + |Varint(v)|))
    decreases v
  {
    HoldsAt(p, at, Varint(v), 0);
    if v >= 0x80 {
      HoldsParts(p, at, [v % 0x80 + 0x80], Varint(v / 0x80));
      VarintRoundTrip(p, start, at + 1, v / 0x80);
    }
  }

  /** A varint of which some low bits are already read. */
  ghost function Above(value: nat, i: nat, rest: Result<Read>): Result<Read>
    requires i <= 5
  {
    if i < 5 && rest.Ok? then Ok(Read(value + Shifted(rest.value.value, i), rest.value.next)) else rest
  }

  lemma AboveNext(p: seq<uint8>, start: nat, at: nat, value: nat)
    requires start <= at < start + 5 && at < |p| && p[at] >= 0x80 && !(at == start + 4 && p[at] > 0x0f)
    ensures Above(value, at - start, VarintAt(p, start, at))
         == Above(value + Shifted(p[at] - 0x80, at - start), at - start + 1, VarintAt(p, start, at + 1))
  {
  }

  method ReadVarint(p: seq<uint8>, offset: nat) returns (r: Result<Read>)
    ensures r == VarintAt(p, offset, offset)
  {
    var value: nat, at: nat := 0, offset;
    while at < offset + 5
      invariant offset <= at <= offset + 5
      invariant VarintAt(p, offset, offset) == Above(value, at - offset, VarintAt(p, offset, at))
    {
      if at >= |p| {
        return Err(Truncated);
      }
      var byte := p[at];
      if at == offset + 4 && byte > 0x0f {
        return Err(MalformedVarint);
      }
      if byte < 0x80 {
        return Ok(Read(value + Shifted(byte, at - offset), at + 1));
      }
      AboveNext(p, offset, at, value);
      value := value + Shifted(byte - 0x80, at - offset);
      at := at + 1;
    }
    return Err(MalformedVarint);
  }

  // ----- one record -----

  /** One record read: where it ends, and what it is, if it is known; a delta without a previous
      frame is not. */
  datatype Step = Step(next: nat, record: Option<Record>)

  /** The remainder with the dividend's sign, as JavaScript takes it. */
  function Remainder(a: int, b: int): int
    requires b > 0
  {
    if a >= 0 then a % b else -(-a % b)
  }

  /** The frame a delta stands for, after the frame before it. */
  function Follow(previous: Frame, elapsed: int, x: int, y: int, flags: Option<uint8>, mode: int, span: int): Frame {
    var us := previous.Us() + elapsed;
    Frame(
      if flags.Some? then flags.value else previous.flags,
      us / 1000, Remainder(us, 1000), x, y,
      if mode == SPAN_PREVIOUS then previous.spanUs
      else if mode == SPAN_ELAPSED then elapsed
      else if mode == SPAN_ABSOLUTE then span
      else elapsed + Unzigzag(span))
  }

  datatype Delta = Delta(elapsed: int, x: int, y: int, flags: Option<uint8>, mode: int, span: int, next: nat)

  function FlagsAt(p: seq<uint8>, at: nat, given: bool): Result<(Option<uint8>, nat)> {
    if !given then Ok((None, at))
    else if at >= |p| then Err(Truncated)
    else Ok((Some(p[at]), at + 1))
  }

  function SpanAt(p: seq<uint8>, at: nat, mode: int): Result<Read> {
    if mode == SPAN_PREVIOUS || mode == SPAN_ELAPSED then Ok(Read(0, at)) else VarintAt(p, at, at)
  }

  datatype Motion = Motion(elapsed: int, x: int, y: int, next: nat)

  function MotionAt(p: seq<uint8>, at: nat): Result<Motion> {
    var elapsed :- VarintAt(p, at, at);
    var x :- VarintAt(p, elapsed.next, elapsed.next);
    var y :- VarintAt(p, x.next, x.next);
    Ok(Motion(Unzigzag(elapsed.value), Unzigzag(x.value), Unzigzag(y.value), y.next))
  }

  /** The fields of the delta frame at `at`. */
  function DeltaAt(p: seq<uint8>, at: nat): (r: Result<Delta>)
    requires at < |p|
  {
    var m :- MotionAt(p, at + 1);
    var flags :- FlagsAt(p, m.next, p[at] / DELTA_FLAGS % 2 == 1);
    var span :- SpanAt(p, flags.1, p[at] % 4);
    Ok(Delta(m.elapsed, m.x, m.y, flags.0, p[at] % 4, span.value, span.next))
  }

  /** The record at `at`, after the frame `previous`. */
  function RecordAt(p: seq<uint8>, at: nat, previous: Option<Frame>): (r: Result<Step>) {
    if at >= |p| then Err(Truncated)
    else
      var kind := p[at];
      if kind == FRAME then
        if at + 20 > |p| then Err(Truncated)
        else Ok(Step(at + 20, Some(FrameRecord(Frame(
            p[at + 1], GetLe32(p, at + 2), GetLe16(p, at + 6), Signed(GetLe32(p, at + 8)),
            Signed(GetLe32(p, at + 12)), GetLe32(p, at + 16))))))
      else if DELTA_FRAME <= kind < DELTA_FRAME + 8 then
        var d :- DeltaAt(p, at);
        Ok(Step(d.next,
          if previous.None? then None
          else Some(FrameRecord(Follow(previous.value, d.elapsed, d.x, d.y, d.flags, d.mode, d.span)))))
      else if kind == SOURCE then
        if at + 6 > |p| then Err(Truncated)
        else Ok(Step(at + 6, Some(Source(p[at + 1], GetLe16(p, at + 2), GetLe16(p, at + 4)))))
      else if kind == KEYPRESS || kind == FLUSH then
        if at + 5 > |p| then Err(Truncated)
        else
          var timeMs := GetLe32(p, at + 1);
          Ok(Step(at + 5, Some(if kind == KEYPRESS then Keypress(timeMs) else Flush(timeMs))))
      else if kind == ENTERED then
        if at + 5 > |p| then Err(Truncated) else Ok(Step(at + 5, Some(Entered(GetLe32(p, at + 1)))))
      else if kind == LEFT then Ok(Step(at + 1, Some(Left)))
      else if kind == SETTINGS_CHANGED then Ok(Step(at + 1, Some(SettingsChanged)))
      else Err(UnknownKind(kind))
  }

  /** The frame the next delta follows, once a record is read. */
  function After(previous: Option<Frame>, record: Option<Record>): Option<Frame> {
    match record
    case Some(FrameRecord(f)) => Some(f)
    case Some(Entered(_)) => None
    case _ => previous
  }

  // ----- one batch -----

  datatype Run = Run(records: seq<Numbered>, next: nat, previous: Option<Frame>, skipped: nat, error: Option<Error>)

  /** The last `left` records of a batch, from `at`, the first of them number `sequence`,
      after the records and skipped deltas read so far. */
  function Decode(p: seq<uint8>, at: nat, sequence: int, left: nat, previous: Option<Frame>,
                  records: seq<Numbered>, skipped: nat): (run: Run)
    decreases left
  {
    if left == 0 then Run(records, at, previous, skipped, None)
    else
      match RecordAt(p, at, previous)
      case Err(e) => Run(records, at, previous, skipped, Some(e))
      case Ok(step) =>
        Decode(p, step.next, sequence + 1, left - 1, After(previous, step.record),
               records + NumberedOf(sequence, step.record), skipped + if step.record.None? then 1 else 0)
  }

  lemma DecodeNext(p: seq<uint8>, at: nat, sequence: int, left: nat, previous: Option<Frame>,
                   records: seq<Numbered>, skipped: nat, step: Step)
    requires left > 0 && RecordAt(p, at, previous) == Ok(step)
    ensures Decode(p, at, sequence, left, previous, records, skipped)
         == Decode(p, step.next, sequence + 1, left - 1, After(previous, step.record),
                   records + NumberedOf(sequence, step.record), skipped + if step.record.None? then 1 else 0)
  {
    hide RecordAt, After, NumberedOf;
  }

  /** After `index` of a batch's `count` records, the run still comes out as `whole`. */
  ghost predicate Reaches(whole: Run, p: seq<uint8>, at: nat, first: uint32, index: nat, count: uint8,
                          previous: Option<Frame>, records: seq<Numbered>, skipped: nat)
  {
    index <= count && whole == Decode(p, at, first + index, count - index, previous, records, skipped)
  }

  function NumberedOf(sequence: int, record: Option<Record>): seq<Numbered> {
    if record.Some? then [Numbered(Wrap32(sequence), record.value)] else []
  }

  function ParseBatch(p: seq<uint8>, s: State): (r: (Result<seq<Numbered>>, State)) {
    if |p| < BATCH_HEADER_SIZE then (Err(Truncated), s)
    else
      var first := GetLe32(p, 0);
      var run := Decode(p, BATCH_HEADER_SIZE, first, p[4],
                        if first != s.nextSequence then None else s.previous, [], s.skipped);
      var s' := s.(previous := run.previous, skipped := run.skipped);
      if run.error.Some? then (Err(run.error.value), s')
      else if run.next != |p| then (Err(TrailingBytes), s')
      else (Ok(run.records), s'.(nextSequence := Wrap32(first + p[4])))
  }

  /** The decoder's state object and its batch parser, field by field. */
  class Decoder {
    var nextSequence: uint32
    var previous: Option<Frame>
    var skipped: nat

    constructor ()
      ensures Value() == State(0, None, 0)
    {
      nextSequence, previous, skipped := 0, None, 0;
    }

    function Value(): State
      reads this
    {
      State(nextSequence, previous, skipped)
    }

    method ReadDelta(p: seq<uint8>, at: nat) returns (r: Result<Delta>)
      requires at < |p|
      ensures r == DeltaAt(p, at)
    {
      var elapsed := ReadVarint(p, at + 1);
      if elapsed.Err? { return Err(elapsed.error); }
      var x := ReadVarint(p, elapsed.value.next);
      if x.Err? { return Err(x.error); }
      var y := ReadVarint(p, x.value.next);
      if y.Err? { return Err(y.error); }
      var offset, flags := y.value.next, None;
      if p[at] / DELTA_FLAGS % 2 == 1 {
        if offset >= |p| { return Err(Truncated); }
        flags, offset := Some(p[offset]), offset + 1;
      }
      var mode, span := p[at] % 4, Ok(Read(0, offset));
      if mode != SPAN_PREVIOUS && mode != SPAN_ELAPSED {
        span := ReadVarint(p, offset);
        if span.Err? { return Err(span.error); }
      }
      return Ok(Delta(Unzigzag(elapsed.value.value), Unzigzag(x.value.value), Unzigzag(y.value.value),
                      flags, mode, span.value.value, span.value.next));
    }

    /** One record into the decoder's state. Without a previous frame a delta gives no record and
        counts as skipped. */
    method ReadRecord(p: seq<uint8>, at: nat) returns (r: Result<Step>)
      modifies this
      ensures r == RecordAt(p, at, old(previous)) && nextSequence == old(nextSequence)
      ensures r.Ok? ==> previous == After(old(previous), r.value.record)
                        && skipped == old(skipped) + (if r.value.record.None? then 1 else 0)
      ensures r.Err? ==> previous == old(previous) && skipped == old(skipped)
    {
      if at < |p| && DELTA_FRAME <= p[at] < DELTA_FRAME + 8 {
        var delta := ReadDelta(p, at);
        if delta.Err? { return Err(delta.error); }
        var d := delta.value;
        if previous.None? {
          skipped := skipped + 1;
          return Ok(Step(d.next, None));
        }
        var f := Follow(previous.value, d.elapsed, d.x, d.y, d.flags, d.mode, d.span);
        previous := Some(f);
        return Ok(Step(d.next, Some(FrameRecord(f))));
      }
      if at >= |p| { return Err(Truncated); }
      r := ReadWhole(p, at);
      if r.Ok? && r.value.record.value.FrameRecord? {
        previous := Some(r.value.record.value.frame);
      } else if r.Ok? && r.value.record.value.Entered? {
        previous := None;
      }
    }

    /** Reads a record that is not a delta. */
    method ReadWhole(p: seq<uint8>, at: nat) returns (r: Result<Step>)
      requires at < |p| && !(DELTA_FRAME <= p[at] < DELTA_FRAME + 8)
      ensures forall before :: r == RecordAt(p, at, before)
      ensures r.Ok? ==> r.value.record.Some?
    {
      var kind, left := p[at], |p| - at;
      if kind == FRAME {
        if left < 20 { return Err(Truncated); }
        var x, y := Signed(GetLe32(p, at + 8)), Signed(GetLe32(p, at + 12));
        var frame := Frame(p[at + 1], GetLe32(p, at + 2), GetLe16(p, at + 6), x, y, GetLe32(p, at + 16));
        return Ok(Step(at + 20, Some(FrameRecord(frame))));
      } else if kind == SOURCE {
        if left < 6 { return Err(Truncated); }
        return Ok(Step(at + 6, Some(Source(p[at + 1], GetLe16(p, at + 2), GetLe16(p, at + 4)))));
      } else if kind == KEYPRESS || kind == FLUSH || kind == ENTERED {
        if left < 5 { return Err(Truncated); }
        var word := GetLe32(p, at + 1);
        var record := if kind == KEYPRESS then Keypress(word) else if kind == FLUSH then Flush(word) else Entered(word);
        return Ok(Step(at + 5, Some(record)));
      } else if kind == LEFT {
        return Ok(Step(at + 1, Some(Left)));
      } else if kind == SETTINGS_CHANGED {
        return Ok(Step(at + 1, Some(SettingsChanged)));
      }
      return Err(UnknownKind(kind));
    }

    /** Reads the next record onto those read so far. */
    method ReadNext(p: seq<uint8>, at: nat, first: uint32, index: nat, count: uint8, records: seq<Numbered>, ghost whole: Run)
      returns (next: nat, records': seq<Numbered>, error: Option<Error>)
      requires index < count
      requires Reaches(whole, p, at, first, index, count, previous, records, skipped)
      modifies this
      ensures nextSequence == old(nextSequence)
      ensures error.None? ==> Reaches(whole, p, next, first, index + 1, count, previous, records', skipped)
      ensures error.Some? ==> whole == Run(records, at, previous, skipped, error)
    {
      hide RecordAt, NumberedOf, After;
      var step := ReadRecord(p, at);
      if step.Err? { return at, records, Some(step.error); }
      return step.value.next, records + NumberedOf(first + index, step.value.record), None;
    }

    /** Reads `count` records from `offset`, up to the first that can't be read. */
    method ReadRecords(p: seq<uint8>, offset: nat, first: uint32, count: uint8)
      returns (records: seq<Numbered>, at: nat, error: Option<Error>)
      modifies this
      ensures nextSequence == old(nextSequence)
      ensures Run(records, at, previous, skipped, error)
           == Decode(p, offset, first, count, old(previous), [], old(skipped))
    {
      records, at, error := [], offset, None;
      ghost var whole := Decode(p, at, first, count, previous, records, skipped);
      var index: nat := 0;
      while index < count
        invariant nextSequence == old(nextSequence) && index <= count && error.None?
        invariant Reaches(whole, p, at, first, index, count, previous, records, skipped)
      {
        var next, more, e := ReadNext(p, at, first, index, count, records, whole);
        if e.Some? {
          error := e;
          return;
        }
        at, records, index := next, more, index + 1;
      }
    }

    /** Parses one batch payload. */
    method Parse(p: seq<uint8>) returns (r: Result<seq<Numbered>>)
      modifies this
      ensures (r, Value()) == ParseBatch(p, old(Value()))
    {
      if |p| < BATCH_HEADER_SIZE {
        return Err(Truncated);
      }
      var first := GetLe32(p, 0);
      if first != nextSequence {
        previous := None;
      }
      var records, offset, error := ReadRecords(p, BATCH_HEADER_SIZE, first, p[4]);
      if error.Some? {
        return Err(error.value);
      }
      if offset != |p| {
        return Err(TrailingBytes);
      }
      nextSequence := Wrap32(first + p[4]);
      return Ok(records);
    }
  }
}
