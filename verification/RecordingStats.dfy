/** Running counts over a recording's records, and what they add up to
    (web/recording-model.js). */
module RecordingStats {
  import opened Bytes
  import opened CaptureCodec
  import D = CaptureDecoder

  datatype Tally = Tally(records: nat, frames: nat, keypresses: nat, dropped: nat, entered: nat, settingsChanges: nat,
                         firstMs: Option<int>, lastMs: Option<int>, nextSequence: uint32)

  ghost function Gap(t: Tally, n: D.Numbered): uint32 {
    Wrap32(n.sequence - t.nextSequence)
  }

  ghost function Add(t: Tally, n: D.Numbered): Tally {
    var next := t.(
      dropped := if Gap(t, n) < 0x8000_0000 then t.dropped + Gap(t, n) else t.dropped,
      nextSequence := Wrap32(n.sequence + 1),
      records := t.records + 1);
    match n.record
    case FrameRecord(f) =>
      next.(frames := t.frames + 1, firstMs := if t.firstMs.Some? then t.firstMs else Some(f.timeMs), lastMs := Some(f.timeMs))
    case Keypress(_) => next.(keypresses := t.keypresses + 1)
    case Entered(_) => next.(entered := t.entered + 1)
    case SettingsChanged => next.(settingsChanges := t.settingsChanges + 1)
    case _ => next
  }

  ghost function AddAll(t: Tally, records: seq<D.Numbered>): Tally
    decreases |records|
  {
    if records == [] then t else Add(AddAll(t, records[..|records| - 1]), records[|records| - 1])
  }

  const CREATED: Tally := Tally(0, 0, 0, 0, 0, 0, None, None, 0)

  class Stats {
    var records: nat
    var frames: nat
    var keypresses: nat
    var dropped: nat
    var entered: nat
    var settingsChanges: nat
    var firstMs: Option<int>
    var lastMs: Option<int>
    var nextSequence: uint32

    ghost function Value(): Tally
      reads this
    {
      Tally(records, frames, keypresses, dropped, entered, settingsChanges, firstMs, lastMs, nextSequence)
    }

    constructor ()
      ensures Value() == CREATED
    {
      records, frames, keypresses, dropped, entered, settingsChanges := 0, 0, 0, 0, 0, 0;
      firstMs, lastMs, nextSequence := None, None, 0;
    }

    method AddRecords(batch: seq<D.Numbered>)
      modifies this
      ensures Value() == AddAll(old(Value()), batch)
    {
      for i := 0 to |batch|
        invariant Value() == AddAll(old(Value()), batch[..i])
      {
        hide AddAll;
        AddNext(old(Value()), batch, i);
        AddRecord(batch[i]);
      }
      assert batch[..|batch|] == batch;
    }

    method AddRecord(n: D.Numbered)
      modifies this
      ensures Value() == Add(old(Value()), n)
    {
      var gap := Wrap32(n.sequence - nextSequence);
      if 0 < gap < 0x8000_0000 {
        dropped := dropped + gap;
      }
      nextSequence := Wrap32(n.sequence + 1);
      records := records + 1;
      if n.record.FrameRecord? {
        frames := frames + 1;
        if firstMs.None? {
          firstMs := Some(n.record.frame.timeMs);
        }
        lastMs := Some(n.record.frame.timeMs);
      } else if n.record.Keypress? {
        keypresses := keypresses + 1;
      } else if n.record.Entered? {
        entered := entered + 1;
      } else if n.record.SettingsChanged? {
        settingsChanges := settingsChanges + 1;
      }
    }
  }

  lemma AddNext(t: Tally, records: seq<D.Numbered>, i: nat)
    requires i < |records|
    ensures AddAll(t, records[..i + 1]) == Add(AddAll(t, records[..i]), records[i])
  {
    assert records[..i + 1][..i] == records[..i];
  }

  // ----- what the counts mean -----

  /** Numbers ascend, below the 32-bit wrap. */
  ghost predicate Ascending(records: seq<D.Numbered>) {
    (forall i, j | 0 <= i < j < |records| :: records[i].sequence < records[j].sequence)
    && (records != [] ==> records[|records| - 1].sequence < 0xffff_ffff)
  }

  /** How many numbers are missing before record `i`. */
  ghost function MissingBefore(records: seq<D.Numbered>, i: nat): int
    requires i < |records|
  {
    records[i].sequence - if i == 0 then 0 else records[i - 1].sequence + 1
  }

  /** Every number handed out is of a record counted or counted as dropped, if and only if no
      2^31 numbers in a row are missing. */
  lemma {:induction false} Conserved(records: seq<D.Numbered>)
    requires Ascending(records)
    ensures var t := AddAll(CREATED, records);
            && t.nextSequence == (if records == [] then 0 else records[|records| - 1].sequence + 1)
            && t.records == |records| && t.records + t.dropped <= t.nextSequence
            && (t.records + t.dropped == t.nextSequence
                <==> forall i | 0 <= i < |records| :: MissingBefore(records, i) < 0x8000_0000)
    decreases |records|
  {
    hide Add, MissingBefore;
    if records != [] {
      var n := |records| - 1;
      var before := records[..n];
      Conserved(before);
      ConservedNext(AddAll(CREATED, before), records);
      MissingSame(records, n);
    }
  }

  lemma MissingSame(records: seq<D.Numbered>, n: nat)
    requires n <= |records|
    ensures forall i | 0 <= i < n :: MissingBefore(records[..n], i) == MissingBefore(records, i)
  {
  }

  lemma ConservedNext(t: Tally, records: seq<D.Numbered>)
    requires Ascending(records) && records != []
    requires t.nextSequence == if |records| == 1 then 0 else records[|records| - 2].sequence + 1
    requires t.records + t.dropped <= t.nextSequence
    ensures var n := |records| - 1;
            var t' := Add(t, records[n]);
            && t'.nextSequence == records[n].sequence + 1 && t'.records == t.records + 1
            && t'.records + t'.dropped <= t'.nextSequence
            && (t'.records + t'.dropped == t'.nextSequence
                <==> t.records + t.dropped == t.nextSequence && MissingBefore(records, n) < 0x8000_0000)
  {
    var n := |records| - 1;
    assert Gap(t, records[n]) == MissingBefore(records, n);
  }

  ghost function KindOf(r: Record): uint8 {
    match r
    case FrameRecord(_) => FRAME
    case Source(_, _, _) => SOURCE
    case Keypress(_) => KEYPRESS
    case Entered(_) => ENTERED
    case Left => LEFT
    case SettingsChanged => SETTINGS_CHANGED
    case Flush(_) => FLUSH
  }

  /** Where the records of a kind are. */
  ghost function Places(records: seq<D.Numbered>, kind: uint8): set<nat> {
    set i | 0 <= i < |records| && KindOf(records[i].record) == kind
  }

  lemma PlacesNext(records: seq<D.Numbered>, kind: uint8)
    requires records != []
    ensures var n := |records| - 1;
            var before, here := Places(records[..n], kind), KindOf(records[n].record) == kind;
            && n !in before && Places(records, kind) == (if here then before + {n} else before)
            && |Places(records, kind)| == |before| + if here then 1 else 0
  {
    hide KindOf;
    var n := |records| - 1;
    var before := Places(records[..n], kind);
    assert Places(records, kind) == if KindOf(records[n].record) == kind then before + {n} else before;
  }

  lemma AddCounts(t: Tally, n: D.Numbered)
    ensures var t', kind := Add(t, n), KindOf(n.record);
            && t'.frames == t.frames + (if kind == FRAME then 1 else 0)
            && t'.keypresses == t.keypresses + (if kind == KEYPRESS then 1 else 0)
            && t'.entered == t.entered + (if kind == ENTERED then 1 else 0)
            && t'.settingsChanges == t.settingsChanges + (if kind == SETTINGS_CHANGED then 1 else 0)
  {
    hide Gap;
  }

  lemma NoPlaces(kind: uint8)
    ensures Places([], kind) == {}
  {
  }

  /** Each count is of the records of its kind. */
  lemma {:induction false} CountsEachKind(records: seq<D.Numbered>)
    ensures var t := AddAll(CREATED, records);
            && t.frames == |Places(records, FRAME)| && t.keypresses == |Places(records, KEYPRESS)|
            && t.entered == |Places(records, ENTERED)| && t.settingsChanges == |Places(records, SETTINGS_CHANGED)|
    decreases |records|
  {
    hide Gap, Places, Add, KindOf;
    if records == [] {
      NoPlaces(FRAME);
      NoPlaces(KEYPRESS);
      NoPlaces(ENTERED);
      NoPlaces(SETTINGS_CHANGED);
    } else {
      CountsEachKind(records[..|records| - 1]);
      AddCounts(AddAll(CREATED, records[..|records| - 1]), records[|records| - 1]);
      PlacesNext(records, FRAME);
      PlacesNext(records, KEYPRESS);
      PlacesNext(records, ENTERED);
      PlacesNext(records, SETTINGS_CHANGED);
    }
  }

  /** There is a frame, and this is the time of the first or the last of them. */
  ghost predicate TimeAt(records: seq<D.Numbered>, time: Option<int>, last: bool) {
    if time.None? then Places(records, FRAME) == {}
    else
      exists i | i in Places(records, FRAME) ::
        && records[i].record.FrameRecord? && records[i].record.frame.timeMs == time.value
        && forall k <- Places(records, FRAME) :: if last then k <= i else i <= k
  }

  lemma TimeStays(records: seq<D.Numbered>, time: Option<int>, last: bool)
    requires records != [] && TimeAt(records[..|records| - 1], time, last)
    requires KindOf(records[|records| - 1].record) != FRAME || (!last && time.Some?)
    ensures TimeAt(records, time, last)
  {
    hide KindOf;
    var n := |records| - 1;
    PlacesNext(records, FRAME);
    if time.Some? {
      var i :| i in Places(records[..n], FRAME)
        && records[..n][i].record.FrameRecord? && records[..n][i].record.frame.timeMs == time.value
        && forall k <- Places(records[..n], FRAME) :: if last then k <= i else i <= k;
      assert i in Places(records, FRAME) && records[i] == records[..n][i];
    }
  }

  lemma TimeHere(records: seq<D.Numbered>, last: bool)
    requires records != [] && records[|records| - 1].record.FrameRecord?
    requires last || Places(records[..|records| - 1], FRAME) == {}
    ensures TimeAt(records, Some(records[|records| - 1].record.frame.timeMs), last)
  {
    PlacesNext(records, FRAME);
    assert |records| - 1 in Places(records, FRAME);
  }

  /** The times shown are those of the first frame and of the last. */
  lemma {:induction false} TimesOfFrames(records: seq<D.Numbered>)
    ensures TimeAt(records, AddAll(CREATED, records).firstMs, false) && TimeAt(records, AddAll(CREATED, records).lastMs, true)
    decreases |records|
  {
    hide Gap, TimeAt, Places;
    if records == [] {
      NoTimes();
    } else {
      var before, t := records[..|records| - 1], AddAll(CREATED, records[..|records| - 1]);
      TimesOfFrames(before);
      if records[|records| - 1].record.FrameRecord? {
        TimeHere(records, true);
        if t.firstMs.Some? {
          TimeStays(records, t.firstMs, false);
        } else {
          NoneBefore(before, false);
          TimeHere(records, false);
        }
      } else {
        TimeStays(records, t.firstMs, false);
        TimeStays(records, t.lastMs, true);
      }
    }
  }

  lemma NoTimes()
    ensures TimeAt([], None, false) && TimeAt([], None, true)
  {
  }

  lemma NoneBefore(records: seq<D.Numbered>, last: bool)
    requires TimeAt(records, None, last)
    ensures Places(records, FRAME) == {}
  {
  }

  /** However the records are cut into batches. */
  lemma {:induction false} BatchesAdd(t: Tally, a: seq<D.Numbered>, b: seq<D.Numbered>)
    ensures AddAll(t, a + b) == AddAll(AddAll(t, a), b)
    decreases |b|
  {
    if b == [] {
      assert a + b == a;
    } else {
      assert (a + b)[..|a + b| - 1] == a + b[..|b| - 1];
      BatchesAdd(t, a, b[..|b| - 1]);
    }
  }
}
