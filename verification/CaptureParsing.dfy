/** What the host's batch parser accepts and refuses, whatever bytes it is given
    (web/protocol.js). */
module CaptureParsing {
  import opened Bytes
  import opened CaptureCodec
  import opened CaptureDecoder

  // ----- bytes cut off, or left over -----

  /** What is read up to `next` is read from any prefix that long, and a shorter one is
      reported as cut off. */
  ghost predicate Cuts<T>(whole: Result<T>, next: nat, n: nat, part: Result<T>) {
    whole.Ok? ==> part == if next <= n then whole else Err(Truncated)
  }

  lemma {:induction false} VarintCut(q: seq<uint8>, n: nat, start: nat, at: nat)
    requires n <= |q| && start <= at <= start + 5 && VarintAt(q, start, at).Ok?
    ensures at < VarintAt(q, start, at).value.next <= |q|
    ensures Cuts(VarintAt(q, start, at), VarintAt(q, start, at).value.next, n, VarintAt(q[..n], start, at))
    decreases start + 5 - at
  {
    if q[at] >= 0x80 {
      VarintCut(q, n, start, at + 1);
    }
  }

  lemma MotionCut(q: seq<uint8>, n: nat, at: nat)
    requires n <= |q| && MotionAt(q, at).Ok?
    ensures at < MotionAt(q, at).value.next <= |q|
    ensures Cuts(MotionAt(q, at), MotionAt(q, at).value.next, n, MotionAt(q[..n], at))
  {
    hide VarintAt, Unzigzag;
    VarintCut(q, n, at, at);
    var elapsed := VarintAt(q, at, at).value;
    VarintCut(q, n, elapsed.next, elapsed.next);
    var x := VarintAt(q, elapsed.next, elapsed.next).value;
    VarintCut(q, n, x.next, x.next);
  }

  lemma FlagsCut(q: seq<uint8>, n: nat, at: nat, given: bool)
    requires n <= |q| && at <= |q| && FlagsAt(q, at, given).Ok?
    ensures at <= FlagsAt(q, at, given).value.1 <= |q|
    ensures at <= n ==> Cuts(FlagsAt(q, at, given), FlagsAt(q, at, given).value.1, n, FlagsAt(q[..n], at, given))
  {
  }

  lemma SpanCut(q: seq<uint8>, n: nat, at: nat, mode: int)
    requires n <= |q| && at <= |q| && SpanAt(q, at, mode).Ok?
    ensures at <= SpanAt(q, at, mode).value.next <= |q|
    ensures at <= n ==> Cuts(SpanAt(q, at, mode), SpanAt(q, at, mode).value.next, n, SpanAt(q[..n], at, mode))
  {
    hide VarintAt;
    if mode != SPAN_PREVIOUS && mode != SPAN_ELAPSED {
      VarintCut(q, n, at, at);
    }
  }

  lemma DeltaCut(q: seq<uint8>, n: nat, at: nat)
    requires at < n <= |q| && DeltaAt(q, at).Ok?
    ensures at < DeltaAt(q, at).value.next <= |q|
    ensures Cuts(DeltaAt(q, at), DeltaAt(q, at).value.next, n, DeltaAt(q[..n], at))
  {
    hide MotionAt, FlagsAt, SpanAt;
    MotionCut(q, n, at + 1);
    var m := MotionAt(q, at + 1).value;
    var given := q[at] / DELTA_FLAGS % 2 == 1;
    FlagsCut(q, n, m.next, given);
    SpanCut(q, n, FlagsAt(q, m.next, given).value.1, q[at] % 4);
  }

  lemma RecordCut(q: seq<uint8>, n: nat, at: nat, previous: Option<Frame>)
    requires n <= |q| && RecordAt(q, at, previous).Ok?
    ensures at < RecordAt(q, at, previous).value.next <= |q|
    ensures Cuts(RecordAt(q, at, previous), RecordAt(q, at, previous).value.next, n, RecordAt(q[..n], at, previous))
  {
    hide DeltaAt, Follow, Signed;
    if at < n && DELTA_FRAME <= q[at] < DELTA_FRAME + 8 {
      DeltaCut(q, n, at);
    } else if DELTA_FRAME <= q[at] < DELTA_FRAME + 8 {
      DeltaCut(q, |q|, at);
    }
  }

  /** A run over a batch's records, cut off after `n` bytes. */
  lemma {:induction false} DecodeCut(q: seq<uint8>, n: nat, at: nat, sequence: int, left: nat, previous: Option<Frame>,
                                     records: seq<Numbered>, skipped: nat)
    requires n <= |q| && at <= n && Decode(q, at, sequence, left, previous, records, skipped).error.None?
    ensures var whole := Decode(q, at, sequence, left, previous, records, skipped);
            var part := Decode(q[..n], at, sequence, left, previous, records, skipped);
            && at <= whole.next <= |q|
            && if whole.next <= n then part == whole else part.error == Some(Truncated)
    decreases left
  {
    hide RecordAt, After, NumberedOf;
    if left > 0 {
      RecordCut(q, n, at, previous);
      var step := RecordAt(q, at, previous).value;
      var records', skipped' := records + NumberedOf(sequence, step.record), skipped + if step.record.None? then 1 else 0;
      if step.next <= n {
        DecodeCut(q, n, step.next, sequence + 1, left - 1, After(previous, step.record), records', skipped');
      } else {
        DecodeCut(q, |q|, step.next, sequence + 1, left - 1, After(previous, step.record), records', skipped');
        assert q[..|q|] == q;
      }
    }
  }

  /** A batch that parses does so at exactly its own length: cut short anywhere it is truncated,
      and with anything behind it it has trailing bytes. */
  lemma OneLength(p: seq<uint8>, s: State, n: nat, extra: seq<uint8>)
    requires ParseBatch(p, s).0.Ok? && n < |p| && extra != []
    ensures ParseBatch(p[..n], s).0 == Err(Truncated)
    ensures ParseBatch(p + extra, s).0 == Err(TrailingBytes)
  {
    hide Decode;
    var first := GetLe32(p, 0);
    var previous := if first != s.nextSequence then None else s.previous;
    if n >= BATCH_HEADER_SIZE {
      DecodeCut(p, n, BATCH_HEADER_SIZE, first, p[4], previous, [], s.skipped);
    }
    Longer(p, extra, s);
  }

  lemma Longer(p: seq<uint8>, extra: seq<uint8>, s: State)
    requires ParseBatch(p, s).0.Ok? && extra != []
    ensures ParseBatch(p + extra, s).0 == Err(TrailingBytes)
  {
    hide Decode;
    var q, first := p + extra, GetLe32(p, 0);
    var previous := if first != s.nextSequence then None else s.previous;
    assert q[..|p|] == p;
    assert GetLe32(q, 0) == first && q[4] == p[4];
    DecodeMore(p, extra, BATCH_HEADER_SIZE, first, p[4], previous, [], s.skipped);
  }

  lemma {:induction false} VarintMore(p: seq<uint8>, extra: seq<uint8>, start: nat, at: nat)
    requires start <= at <= start + 5 && VarintAt(p, start, at).Ok?
    ensures VarintAt(p + extra, start, at) == VarintAt(p, start, at)
    decreases start + 5 - at
  {
    if p[at] >= 0x80 {
      VarintMore(p, extra, start, at + 1);
    }
  }

  lemma DeltaMore(p: seq<uint8>, extra: seq<uint8>, at: nat)
    requires at < |p| && DeltaAt(p, at).Ok?
    ensures DeltaAt(p + extra, at) == DeltaAt(p, at)
  {
    hide VarintAt, Unzigzag;
    var m := MotionAt(p, at + 1).value;
    VarintMore(p, extra, at + 1, at + 1);
    var elapsed := VarintAt(p, at + 1, at + 1).value;
    VarintMore(p, extra, elapsed.next, elapsed.next);
    var x := VarintAt(p, elapsed.next, elapsed.next).value;
    VarintMore(p, extra, x.next, x.next);
    var flags := FlagsAt(p, m.next, p[at] / DELTA_FLAGS % 2 == 1).value;
    if p[at] % 4 != SPAN_PREVIOUS && p[at] % 4 != SPAN_ELAPSED {
      VarintMore(p, extra, flags.1, flags.1);
    }
  }

  lemma RecordMore(p: seq<uint8>, extra: seq<uint8>, at: nat, previous: Option<Frame>)
    requires RecordAt(p, at, previous).Ok?
    ensures at < RecordAt(p, at, previous).value.next <= |p|
    ensures RecordAt(p + extra, at, previous) == RecordAt(p, at, previous)
  {
    hide DeltaAt, Follow, Signed;
    RecordCut(p, |p|, at, previous);
    if DELTA_FRAME <= p[at] < DELTA_FRAME + 8 {
      DeltaMore(p, extra, at);
    }
  }

  /** Bytes behind the records of a run are not read. */
  lemma {:induction false} DecodeMore(p: seq<uint8>, extra: seq<uint8>, at: nat, sequence: int, left: nat, previous: Option<Frame>,
                                      records: seq<Numbered>, skipped: nat)
    requires at <= |p| && Decode(p, at, sequence, left, previous, records, skipped).error.None?
    ensures Decode(p + extra, at, sequence, left, previous, records, skipped)
         == Decode(p, at, sequence, left, previous, records, skipped)
    decreases left
  {
    hide RecordAt, After, NumberedOf;
    if left > 0 {
      RecordMore(p, extra, at, previous);
      var step := RecordAt(p, at, previous).value;
      DecodeMore(p, extra, step.next, sequence + 1, left - 1, After(previous, step.record),
                 records + NumberedOf(sequence, step.record), skipped + if step.record.None? then 1 else 0);
    }
  }

  // ----- how many records, under which numbers -----

  /** The records have some of the numbers from `first` on, `n` of them in a row, in order. */
  ghost predicate NumberedFrom(records: seq<Numbered>, first: int, n: nat) {
    && (forall i | 0 <= i < |records| :: Ahead(records[i], first) < n)
    && (forall i, j | 0 <= i < j < |records| :: Ahead(records[i], first) < Ahead(records[j], first))
  }

  ghost function Ahead(record: Numbered, first: int): uint32 {
    Wrap32(record.sequence - first)
  }

  lemma AheadBy(sequence: int, step: nat, record: Record)
    requires step < 0x100
    ensures Ahead(Numbered(Wrap32(sequence + step), record), sequence) == step
  {
  }

  lemma {:induction false} DecodeCounts(p: seq<uint8>, at: nat, first: int, read: nat, left: nat, previous: Option<Frame>,
                                        records: seq<Numbered>, skipped: nat)
    requires read + left < 0x100 && NumberedFrom(records, first, read)
    ensures var run := Decode(p, at, first + read, left, previous, records, skipped);
            && NumberedFrom(run.records, first, read + left)
            && (run.error.None? ==> |run.records| + run.skipped == |records| + skipped + left)
    decreases left
  {
    hide RecordAt, After, Ahead;
    if left > 0 && RecordAt(p, at, previous).Ok? {
      var step := RecordAt(p, at, previous).value;
      var more := NumberedOf(first + read, step.record);
      if step.record.Some? {
        AheadBy(first, read, step.record.value);
      }
      DecodeNext(p, at, first + read, left, previous, records, skipped, step);
      DecodeCounts(p, step.next, first, read + 1, left - 1, After(previous, step.record), records + more,
                   skipped + if step.record.None? then 1 else 0);
    }
  }

  /** A batch says how many records it holds and the first one's number. Each of them is either
      given, under its own number and in order, or counted as skipped, and the number expected
      next is the one after them; a batch that is refused leaves that where it was. */
  lemma EachOnce(p: seq<uint8>, s: State)
    ensures var (r, s') := ParseBatch(p, s);
            && (r.Ok? ==>
                  && BATCH_HEADER_SIZE <= |p| && |r.value| + (s'.skipped - s.skipped) == p[4]
                  && NumberedFrom(r.value, GetLe32(p, 0), p[4])
                  && s'.nextSequence == Wrap32(GetLe32(p, 0) + p[4]))
            && (r.Err? ==> s'.nextSequence == s.nextSequence)
  {
    hide Decode, NumberedFrom;
    if |p| >= BATCH_HEADER_SIZE {
      var first := GetLe32(p, 0);
      NoneYet(first);
      DecodeCounts(p, BATCH_HEADER_SIZE, first, 0, p[4], if first != s.nextSequence then None else s.previous, [], s.skipped);
    }
  }

  lemma NoneYet(first: int)
    ensures NumberedFrom([], first, 0)
  {
  }

  // ----- only what an encoder writes -----

  /** A record that is read, unless it is a delta, is one whose encoding stands there. */
  lemma WholeInverse(p: seq<uint8>, at: nat, previous: Option<Frame>)
    requires at < |p| && !(DELTA_FRAME <= p[at] < DELTA_FRAME + 8) && RecordAt(p, at, previous).Ok?
    ensures Stands(p, at, RecordAt(p, at, previous).value)
  {
    hide Le32, Le16, GetLe32, GetLe16, Signed, Unsigned, Frame.Fits, DeltaAt, Stands;
    if p[at] == FRAME {
      FrameStands(p, at);
    } else if p[at] == SOURCE {
      SourceStands(p, at);
    } else if p[at] == KEYPRESS || p[at] == FLUSH || p[at] == ENTERED {
      WordStands(p, at);
    } else {
      ByteStands(p, at);
    }
  }

  /** A record was read here, up to where the next begins; and if it is one firmware can have, its
      encoding stands there. */
  ghost predicate Stands(p: seq<uint8>, at: nat, step: Step) {
    && step.record.Some? && at < step.next <= |p|
    && (step.record.value.Fits() ==> p[at..step.next] == EncodeFull(step.record.value))
  }

  lemma FrameStands(p: seq<uint8>, at: nat)
    requires at + 20 <= |p| && p[at] == FRAME
    ensures Stands(p, at, Step(at + 20, Some(FrameRecord(Frame(
              p[at + 1], GetLe32(p, at + 2), GetLe16(p, at + 6), Signed(GetLe32(p, at + 8)),
              Signed(GetLe32(p, at + 12)), GetLe32(p, at + 16))))))
  {
    hide Le32, Le16, GetLe32, GetLe16, Signed, Unsigned, Frame.Fits;
    FrameInverse(p, at);
  }

  lemma SourceStands(p: seq<uint8>, at: nat)
    requires at + 6 <= |p| && p[at] == SOURCE
    ensures Stands(p, at, Step(at + 6, Some(Source(p[at + 1], GetLe16(p, at + 2), GetLe16(p, at + 4)))))
  {
    hide Le16, GetLe16;
    Le16Inverse(p, at + 2);
    Le16Inverse(p, at + 4);
  }

  lemma WordStands(p: seq<uint8>, at: nat)
    requires at + 5 <= |p|
    ensures p[at] == KEYPRESS ==> Stands(p, at, Step(at + 5, Some(Keypress(GetLe32(p, at + 1)))))
    ensures p[at] == FLUSH ==> Stands(p, at, Step(at + 5, Some(Flush(GetLe32(p, at + 1)))))
    ensures p[at] == ENTERED ==> Stands(p, at, Step(at + 5, Some(Entered(GetLe32(p, at + 1)))))
  {
    hide Le32, GetLe32;
    Le32Inverse(p, at + 1);
  }

  lemma ByteStands(p: seq<uint8>, at: nat)
    requires at < |p|
    ensures p[at] == LEFT ==> Stands(p, at, Step(at + 1, Some(Left)))
    ensures p[at] == SETTINGS_CHANGED ==> Stands(p, at, Step(at + 1, Some(SettingsChanged)))
  {
  }

  lemma FrameInverse(p: seq<uint8>, at: nat)
    requires at + 20 <= |p| && p[at] == FRAME
    ensures p[at..at + 20]
         == [FRAME, p[at + 1]] + Le32(GetLe32(p, at + 2)) + Le16(GetLe16(p, at + 6))
            + Le32(Unsigned(Signed(GetLe32(p, at + 8)))) + Le32(Unsigned(Signed(GetLe32(p, at + 12))))
            + Le32(GetLe32(p, at + 16))
  {
    hide Le32, Le16, GetLe32, GetLe16, Signed, Unsigned;
    Le32Inverse(p, at + 2);
    Le16Inverse(p, at + 6);
    Le32Inverse(p, at + 8);
    Le32Inverse(p, at + 12);
    Le32Inverse(p, at + 16);
  }

  lemma Le32Inverse(p: seq<uint8>, at: nat)
    requires at + 4 <= |p|
    ensures Le32(GetLe32(p, at)) == p[at..at + 4]
  {
    var b0: int, b1: int, b2: int, b3: int := p[at], p[at + 1], p[at + 2], p[at + 3];
    Digit(b0, b1 + 0x100 * (b2 + 0x100 * b3));
    Digit(b1, b2 + 0x100 * b3);
    Digit(b2, b3);
  }

  lemma Digit(b: int, rest: int)
    requires 0 <= b < 0x100
    ensures (b + 0x100 * rest) % 0x100 == b && (b + 0x100 * rest) / 0x100 == rest
  {
  }

  lemma Le16Inverse(p: seq<uint8>, at: nat)
    requires at + 2 <= |p|
    ensures Le16(GetLe16(p, at)) == p[at..at + 2]
  {
  }
}
