/** Firmware's encoding of a record against the host's decoding of it. */
module CaptureRoundTrip {
  import opened Bytes
  import opened CaptureCodec
  import opened CaptureDecoder

  /** The item is a delta, which only the host that has its base can read. */
  ghost predicate IsDelta(item: Item)
    requires item.Fits()
  {
    item.Stored? && item.Bytes()[0] >= DELTA_FRAME
  }

  /** `previous` is a frame an item encoded against `base` can follow. */
  ghost predicate Follows(previous: Option<Frame>, base: Option<Base>) {
    previous.Some? && base.Some? ==> BaseOf(previous.value) == base.value
  }

  lemma MotionRoundTrip(p: seq<uint8>, at: nat, elapsed: int32, x: int32, y: int32)
    requires Holds(p, at, MotionBytes(elapsed, x, y))
    ensures MotionAt(p, at) == Ok(Motion(elapsed, x, y, at + |MotionBytes(elapsed, x, y)|))
  {
    hide Varint, VarintAt, Holds;
    MotionLayout(p, at, elapsed, x, y);
    var e := at + |Varint(Zigzag(elapsed))|;
    var m := e + |Varint(Zigzag(x))|;
    VarintRoundTrip(p, at, at, Zigzag(elapsed));
    VarintRoundTrip(p, e, e, Zigzag(x));
    VarintRoundTrip(p, m, m, Zigzag(y));
  }

  /** The value the span field holds. */
  function SpanValue(base: Base, f: Frame): nat
    requires f.Fits() && FitsInt32(f.Us() - base.us)
  {
    var mode := SpanMode(base, f);
    if mode == SPAN_ELAPSED_PLUS then Zigzag(f.spanUs - (f.Us() - base.us))
    else if mode == SPAN_ABSOLUTE then f.spanUs
    else 0
  }

  lemma TailRoundTrip(p: seq<uint8>, at: nat, base: Base, f: Frame)
    requires f.Fits() && FitsInt32(f.Us() - base.us)
    requires Holds(p, at, FlagBytes(base, f)) && Holds(p, at + |FlagBytes(base, f)|, SpanBytes(base, f))
    ensures FlagsAt(p, at, |FlagBytes(base, f)| == 1)
         == Ok((if f.flags != base.flags then Some(f.flags) else None, at + |FlagBytes(base, f)|))
    ensures var s := at + |FlagBytes(base, f)|;
            SpanAt(p, s, SpanMode(base, f)) == Ok(Read(SpanValue(base, f), s + |SpanBytes(base, f)|))
  {
    var s := at + |FlagBytes(base, f)|;
    if f.flags != base.flags {
      HoldsAt(p, at, FlagBytes(base, f), 0);
    }
    if SpanBytes(base, f) != [] {
      VarintRoundTrip(p, s, s, SpanValue(base, f));
    }
  }

  lemma DeltaParts(p: seq<uint8>, at: nat, m: Motion, flags: Option<uint8>, next: nat, span: Read)
    requires at < |p| && MotionAt(p, at + 1) == Ok(m)
    requires FlagsAt(p, m.next, p[at] / DELTA_FLAGS % 2 == 1) == Ok((flags, next))
    requires SpanAt(p, next, p[at] % 4) == Ok(span)
    ensures DeltaAt(p, at) == Ok(Delta(m.elapsed, m.x, m.y, flags, p[at] % 4, span.value, span.next))
  {
  }

  /** The fields of a delta frame. */
  function DeltaOf(base: Base, f: Frame, next: nat): Delta
    requires f.Fits() && FitsInt32(f.Us() - base.us)
  {
    Delta(f.Us() - base.us, f.x, f.y, if f.flags != base.flags then Some(f.flags) else None,
          SpanMode(base, f), SpanValue(base, f), next)
  }

  /** The fields of a delta frame read back. */
  lemma DeltaRoundTrip(p: seq<uint8>, at: nat, base: Base, f: Frame)
    requires f.Fits() && FitsInt32(f.Us() - base.us) && Holds(p, at, DeltaBytes(base, f))
    ensures DELTA_FRAME <= p[at] < DELTA_FRAME + 8
    ensures DeltaAt(p, at) == Ok(DeltaOf(base, f, at + |DeltaBytes(base, f)|))
  {
    hide SpanMode, SpanBytes, MotionBytes, FlagBytes, DeltaKind, Varint, SpanValue, VarintAt, MotionAt, FlagsAt, SpanAt, DeltaAt;
    DeltaLayout(p, at, base, f);
    var elapsed := f.Us() - base.us;
    var m := Motion(elapsed, f.x, f.y, at + 1 + |MotionBytes(elapsed, f.x, f.y)|);
    MotionRoundTrip(p, at + 1, elapsed, f.x, f.y);
    TailRoundTrip(p, m.next, base, f);
    var next := m.next + |FlagBytes(base, f)|;
    DeltaParts(p, at, m, if f.flags != base.flags then Some(f.flags) else None, next,
               Read(SpanValue(base, f), next + |SpanBytes(base, f)|));
  }

  /** A delta applied to the frame it was taken from gives the frame back. */
  lemma FollowInverts(previous: Frame, f: Frame)
    requires f.Fits() && FitsInt32(f.Us() - previous.Us())
    ensures var d := DeltaOf(BaseOf(previous), f, 0);
            Follow(previous, d.elapsed, d.x, d.y, d.flags, d.mode, d.span) == f
  {
  }

  lemma DeltaRecord(p: seq<uint8>, at: nat, d: Delta, previous: Option<Frame>)
    requires at < |p| && DELTA_FRAME <= p[at] < DELTA_FRAME + 8 && DeltaAt(p, at) == Ok(d)
    ensures RecordAt(p, at, previous) == Ok(Step(d.next,
        if previous.None? then None
        else Some(FrameRecord(Follow(previous.value, d.elapsed, d.x, d.y, d.flags, d.mode, d.span)))))
  {
  }

  lemma FullFrameRoundTrip(p: seq<uint8>, at: nat, f: Frame, previous: Option<Frame>)
    requires f.Fits() && Holds(p, at, EncodeFull(FrameRecord(f)))
    ensures RecordAt(p, at, previous) == Ok(Step(at + 20, Some(FrameRecord(f))))
  {
    var x, y := Le32(Unsigned(f.x)), Le32(Unsigned(f.y));
    var head: seq<uint8> := [FRAME, f.flags];
    var h4 := head + Le32(f.timeMs) + Le16(f.timeUs);
    HoldsParts(p, at, h4 + x + y, Le32(f.spanUs));
    HoldsParts(p, at, h4 + x, y);
    HoldsParts(p, at, h4, x);
    HoldsParts(p, at, head + Le32(f.timeMs), Le16(f.timeUs));
    HoldsParts(p, at, head, Le32(f.timeMs));
    HoldsAt(p, at, head, 0);
    HoldsAt(p, at, head, 1);
    Le32Holds(p, at + 2, f.timeMs);
    Le16Holds(p, at + 6, f.timeUs);
    Le32Holds(p, at + 8, Unsigned(f.x));
    Le32Holds(p, at + 12, Unsigned(f.y));
    Le32Holds(p, at + 16, f.spanUs);
  }

  lemma SourceRoundTrip(p: seq<uint8>, at: nat, r: Record, previous: Option<Frame>)
    requires r.Source? && Holds(p, at, EncodeFull(r))
    ensures RecordAt(p, at, previous) == Ok(Step(at + 6, Some(r)))
  {
    var head: seq<uint8> := [SOURCE, r.link];
    HoldsParts(p, at, head + Le16(r.sourceId), Le16(r.cpi));
    HoldsParts(p, at, head, Le16(r.sourceId));
    HoldsAt(p, at, head, 0);
    HoldsAt(p, at, head, 1);
    Le16Holds(p, at + 2, r.sourceId);
    Le16Holds(p, at + 4, r.cpi);
  }

  lemma WordRoundTrip(p: seq<uint8>, at: nat, kind: uint8, word: uint32, previous: Option<Frame>)
    requires Holds(p, at, [kind] + Le32(word)) && kind in {KEYPRESS, FLUSH, ENTERED}
    ensures RecordAt(p, at, previous) == Ok(Step(at + 5, Some(
        if kind == KEYPRESS then Keypress(word) else if kind == FLUSH then Flush(word) else Entered(word))))
  {
    HoldsParts(p, at, [kind], Le32(word));
    HoldsAt(p, at, [kind], 0);
    Le32Holds(p, at + 1, word);
  }

  lemma FullRoundTrip(p: seq<uint8>, at: nat, r: Record, previous: Option<Frame>)
    requires r.Fits() && Holds(p, at, EncodeFull(r))
    ensures RecordAt(p, at, previous) == Ok(Step(at + |EncodeFull(r)|, Some(r)))
  {
    match r
    case FrameRecord(f) => FullFrameRoundTrip(p, at, f, previous);
    case Source(_, _, _) => SourceRoundTrip(p, at, r, previous);
    case Keypress(timeMs) => WordRoundTrip(p, at, KEYPRESS, timeMs, previous);
    case Flush(timeMs) => WordRoundTrip(p, at, FLUSH, timeMs, previous);
    case Entered(hash) => WordRoundTrip(p, at, ENTERED, hash, previous);
    case Left => HoldsAt(p, at, EncodeFull(r), 0);
    case SettingsChanged => HoldsAt(p, at, EncodeFull(r), 0);
  }

  /** Every record the ring stores decodes to itself, field for field, wherever it stands in
      a batch; only a delta is left out, when the host has no frame for it to follow. */
  lemma RecordRoundTrip(p: seq<uint8>, at: nat, item: Item, previous: Option<Frame>)
    requires item.Stored? && item.Fits() && Holds(p, at, item.Bytes()) && Follows(previous, item.base)
    ensures RecordAt(p, at, previous)
         == Ok(Step(at + |item.Bytes()|, if IsDelta(item) && previous.None? then None else Some(item.record)))
  {
    hide RecordAt, DeltaAt, Follow, SpanMode, SpanValue, DeltaBytes, EncodeFull;
    ItemKind(item);
    HoldsAt(p, at, item.Bytes(), 0);
    if IsDelta(item) {
      var base, f := item.base.value, item.record.frame;
      DeltaRoundTrip(p, at, base, f);
      DeltaRecord(p, at, DeltaOf(base, f, at + |item.Bytes()|), previous);
      if previous.Some? {
        FollowInverts(previous.value, f);
      }
    } else {
      FullRoundTrip(p, at, item.record, previous);
    }
  }
}
