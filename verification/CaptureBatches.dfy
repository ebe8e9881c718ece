/** One batch: what a cut covers, and what the host decodes from it. */
module CaptureBatches {
  import opened Bytes
  import opened CaptureCodec
  import opened CaptureStore
  import D = CaptureDecoder
  import opened CaptureRoundTrip
  import opened CaptureLog

  // ----- the shape of a batch -----

  /** Gaps first, then only records: a batch's records are consecutive. */
  ghost predicate Shape(items: seq<Item>, lead: nat, end: nat) {
    && lead <= end <= |items| && end - lead <= BATCH_MAX_RECORDS
    && (forall i | 0 <= i < lead :: items[i].Gap?)
    && (forall i | lead <= i < end :: items[i].Stored?)
  }

  lemma {:induction false} CutRecords(items: seq<Item>, k: nat, length: nat, count: nat, capacity: nat)
    requires k <= |items| && 0 < count <= BATCH_MAX_RECORDS
    ensures var end := CutFrom(items, k, length, count, capacity);
            count + (end - k) <= BATCH_MAX_RECORDS && forall i | k <= i < end :: items[i].Stored?
    decreases |items| - k
  {
    hide Item.Bytes;
    if k < |items| && count < BATCH_MAX_RECORDS && items[k].Stored? && length + |items[k].Bytes()| <= capacity {
      CutRecords(items, k + 1, length + |items[k].Bytes()|, count + 1, capacity);
    }
  }

  /** A cut has that shape, and takes a record if there is one and the batch can hold it. */
  lemma {:induction false} CutShape(items: seq<Item>, k: nat, length: nat, capacity: nat) returns (lead: nat)
    requires k <= |items| && forall i | 0 <= i < k :: items[i].Gap?
    ensures Shape(items, lead, CutFrom(items, k, length, 0, capacity))
    ensures k < |items| && items[|items| - 1].Stored? && length + RECORD_MAX_SIZE <= capacity
            ==> lead < CutFrom(items, k, length, 0, capacity)
    decreases |items| - k
  {
    hide Item.Bytes;
    if k == |items| {
      lead := k;
    } else if items[k].Gap? {
      lead := CutShape(items, k + 1, length, capacity);
    } else {
      lead := k;
      if length + |items[k].Bytes()| <= capacity {
        CutRecords(items, k + 1, length + |items[k].Bytes()|, 1, capacity);
      }
    }
  }

  /** A batch ends at this item: there is none, it holds 255 records, a gap follows its records,
      or the next record doesn't fit in what is left of `capacity`. */
  ghost predicate EndsAt(items: seq<Item>, j: nat, capacity: nat)
    requires j <= |items|
  {
    || j == |items| || Records(items[..j]) >= 255
    || (items[j].Gap? && Records(items[..j]) > 0)
    || (items[j].Stored? && BATCH_HEADER_SIZE + |Payload(items[..j])| + |items[j].Bytes()| > capacity)
  }

  /** A batch takes as much as it can: it ends at the first item where it has to. */
  lemma {:induction false} CutMost(items: seq<Item>, k: nat, capacity: nat)
    requires k <= |items| && forall j | 0 <= j < k :: !EndsAt(items, j, capacity)
    ensures var end := CutFrom(items, k, BATCH_HEADER_SIZE + |Payload(items[..k])|, Records(items[..k]), capacity);
            EndsAt(items, end, capacity) && forall j | 0 <= j < end :: !EndsAt(items, j, capacity)
    decreases |items| - k
  {
    hide Item.Bytes, Records, Payload;
    if !EndsAt(items, k, capacity) {
      Extend(items, k);
      CutMost(items, k + 1, capacity);
    }
  }

  /** The whole batch, from its first item on. */
  lemma BatchTakesMost(items: seq<Item>, capacity: nat)
    ensures EndsAt(items, Cut(items, capacity), capacity)
    ensures forall j | 0 <= j < Cut(items, capacity) :: !EndsAt(items, j, capacity)
  {
    hide CutFrom, EndsAt;
    assert Records(items[..0]) == 0 && Payload(items[..0]) == [];
    CutMost(items, 0, capacity);
  }

  lemma {:induction false} ShapeTotals(items: seq<Item>, lead: nat, j: nat, end: nat)
    requires Shape(items, lead, end) && lead <= j <= end
    ensures Records(items[..j]) == j - lead
    ensures Dropped(items[..j]) == Dropped(items[..lead])
    decreases j
  {
    hide Item.Bytes, Flatten, Payload, Records, Dropped;
    if lead < j {
      ShapeTotals(items, lead, j - 1, end);
      Extend(items, j - 1);
    } else {
      LeadTotals(items, lead);
    }
  }

  lemma {:induction false} LeadTotals(items: seq<Item>, lead: nat)
    requires lead <= |items| && forall i | 0 <= i < lead :: items[i].Gap?
    ensures Records(items[..lead]) == 0 && Payload(items[..lead]) == []
    decreases lead
  {
    hide Item.Bytes, Flatten;
    if lead > 0 {
      LeadTotals(items, lead - 1);
      Extend(items, lead - 1);
    }
  }

  /** Where item `j` stands in the payload. */
  lemma ItemHolds(p: seq<uint8>, at: nat, items: seq<Item>, j: nat, end: nat)
    requires j < end <= |items| && items[j].Stored? && Holds(p, at, Payload(items[..end]))
    ensures Holds(p, at + |Payload(items[..j])|, items[j].Bytes())
    ensures |Payload(items[..j + 1])| == |Payload(items[..j])| + |items[j].Bytes()|
  {
    hide Item.Bytes, Payload;
    assert items[..end][..j + 1] == items[..j + 1];
    Split(items[..end], j + 1);
    Extend(items, j);
    HoldsParts(p, at, Payload(items[..j + 1]), Payload(items[..end][j + 1..]));
    HoldsParts(p, at, Payload(items[..j]), items[j].Bytes());
  }

  // ----- decoding it -----

  /** The host's previous frame is the one a delta numbered `n` was taken from, if it has one. */
  ghost predicate HostFollows(previous: Option<Frame>, n: nat, log: Log) {
    n <= |log| && (previous.Some? ==> BaseAt(log, n) == Some(BaseOf(previous.value)))
  }

  /** The host has that frame whenever there is one. */
  ghost predicate HostCaughtUp(previous: Option<Frame>, n: nat, log: Log) {
    n <= |log| && (previous.None? ==> BaseAt(log, n).None?)
  }

  /** Records decoded below number `n` are the ones recorded and kept under their numbers, in
      order, none of them twice. */
  ghost predicate Genuine(records: seq<D.Numbered>, n: nat, log: Log) {
    && n <= |log|
    && (forall i | 0 <= i < |records| ::
          records[i].sequence < n && log[records[i].sequence] == Entry(records[i].record, true))
    && (forall i, j | 0 <= i < j < |records| :: records[i].sequence < records[j].sequence)
  }

  /** What is known of a batch that was begun at number `first`, once the records below `n`
      are decoded. */
  ghost predicate Decoded(previous: Option<Frame>, records: seq<D.Numbered>, skipped: nat, first: nat, n: nat, log: Log,
                          caughtUp: bool, skippedBefore: nat)
  {
    && first <= n <= |log| && HostFollows(previous, n, log) && Genuine(records, n, log)
    && (forall i | 0 <= i < |records| :: first <= records[i].sequence)
    && (caughtUp ==> HostCaughtUp(previous, n, log) && records == Kept(log, first, n) && skipped == skippedBefore)
  }

  /** What reading an item numbered `n` adds. */
  ghost function Read(previous: Option<Frame>, item: Item): Option<Record>
    requires item.Stored? && item.Fits()
  {
    if IsDelta(item) && previous.None? then None else Some(item.record)
  }

  lemma FollowsNext(previous: Option<Frame>, n: nat, log: Log, item: Item)
    requires HostFollows(previous, n, log) && item.Stored? && item.Fits() && Mirrors(item, n, log)
    ensures Follows(previous, item.base)
    ensures HostFollows(D.After(previous, Read(previous, item)), n + 1, log)
    ensures HostCaughtUp(previous, n, log) ==>
              Read(previous, item).Some? && HostCaughtUp(D.After(previous, Read(previous, item)), n + 1, log)
  {
    hide Item.Bytes;
    assert IsDelta(item) ==> item.base.Some? && item.record.FrameRecord? by {
      ItemKind(item);
    }
  }

  lemma GenuineNext(records: seq<D.Numbered>, n: nat, log: Log, r: Record)
    requires Genuine(records, n, log) && n < |log| < 0x1_0000_0000 && log[n] == Entry(r, true)
    ensures Genuine(records, n + 1, log) && Genuine(records + [D.Numbered(n, r)], n + 1, log)
  {
  }

  /** One record further. */
  lemma DecodedNext(previous: Option<Frame>, records: seq<D.Numbered>, skipped: nat, first: nat, n: nat, log: Log,
                    caughtUp: bool, skippedBefore: nat, item: Item)
    requires Decoded(previous, records, skipped, first, n, log, caughtUp, skippedBefore)
    requires |log| < 0x1_0000_0000
    requires item.Stored? && item.Fits() && Mirrors(item, n, log)
    ensures Follows(previous, item.base)
    ensures var record := Read(previous, item);
            Decoded(D.After(previous, record), records + D.NumberedOf(n, record), skipped + (if record.None? then 1 else 0),
                    first, n + 1, log, caughtUp, skippedBefore)
  {
    hide Genuine, HostFollows, HostCaughtUp, BaseAt, IsDelta, Read, D.After, Follows, Kept, Wrap32, Item.Bytes;
    KeptOne(log, first, n);
    NumberIs(n);
    var record := Read(previous, item);
    FollowsNext(previous, n, log, item);
    GenuineNext(records, n, log, item.record);
    ReadIs(previous, item);
    assert records + [] == records;
  }

  lemma KeptOne(log: Log, first: nat, n: nat)
    requires first <= n < |log|
    ensures log[n].kept ==> Kept(log, first, n + 1) == Kept(log, first, n) + [D.Numbered(Wrap32(n), log[n].record)]
  {
  }

  lemma NumberIs(n: nat)
    requires n < 0x1_0000_0000
    ensures Wrap32(n) == n
  {
  }

  lemma ReadIs(previous: Option<Frame>, item: Item)
    requires item.Stored? && item.Fits()
    ensures Read(previous, item).Some? ==> Read(previous, item).value == item.record
  {
  }

  /** A run that read a batch to its end, up to number `n`. */
  ghost predicate Finished(run: D.Run, offset: nat, first: nat, n: nat, log: Log, caughtUp: bool, skippedBefore: nat) {
    && run.error.None? && run.next == offset
    && Decoded(run.previous, run.records, run.skipped, first, n, log, caughtUp, skippedBefore)
  }

  lemma FinishedNow(p: seq<uint8>, offset: nat, n: nat, previous: Option<Frame>, records: seq<D.Numbered>, skipped: nat,
                    first: nat, log: Log, caughtUp: bool, skippedBefore: nat)
    requires Decoded(previous, records, skipped, first, n, log, caughtUp, skippedBefore)
    ensures Finished(D.Decode(p, offset, n, 0, previous, records, skipped), offset, first, n, log, caughtUp, skippedBefore)
  {
    hide Decoded;
  }

  /** The host decodes a batch's records from item `j` on. */
  lemma {:induction false} DecodeItems(p: seq<uint8>, at: nat, items: seq<Item>, lead: nat, j: nat, end: nat,
                                       from: nat, log: Log, previous: Option<Frame>, records: seq<D.Numbered>, skipped: nat,
                                       first: nat, caughtUp: bool, skippedBefore: nat, offset: nat, n: nat, left: nat)
    requires |log| < 0x1_0000_0000 && AllFit(items) && AllMirror(items, from, log)
    requires Shape(items, lead, end) && lead <= j <= end && first == from + Dropped(items[..lead])
    requires Holds(p, at, Payload(items[..end]))
    requires offset == at + |Payload(items[..j])| && n == first + (j - lead) && left == end - j
    requires Decoded(previous, records, skipped, first, n, log, caughtUp, skippedBefore)
    ensures Finished(D.Decode(p, offset, n, left, previous, records, skipped),
                     at + |Payload(items[..end])|, first, first + (end - lead), log, caughtUp, skippedBefore)
    decreases left
  {
    hide Item.Bytes, Payload, Decoded, IsDelta, D.RecordAt, BaseAt, D.NumberedOf, D.After, D.Decode, Holds, Records, Dropped, Mirrors, Read, Finished;
    if left == 0 {
      FinishedNow(p, offset, n, previous, records, skipped, first, log, caughtUp, skippedBefore);
    } else {
      MirrorsHere(items, lead, j, end, from, log);
      ItemHolds(p, at, items, j, end);
      DecodedNext(previous, records, skipped, first, n, log, caughtUp, skippedBefore, items[j]);
      var record := Read(previous, items[j]);
      ReadNext(p, offset, items[j], previous);
      D.DecodeNext(p, offset, n, left, previous, records, skipped, D.Step(offset + |items[j].Bytes()|, record));
      DecodeItems(p, at, items, lead, j + 1, end, from, log, D.After(previous, record),
                  records + D.NumberedOf(n, record), skipped + (if record.None? then 1 else 0), first, caughtUp, skippedBefore,
                  offset + |items[j].Bytes()|, n + 1, left - 1);
    }
  }

  lemma MirrorsHere(items: seq<Item>, lead: nat, j: nat, end: nat, from: nat, log: Log)
    requires AllMirror(items, from, log) && Shape(items, lead, end) && lead <= j < end
    ensures Mirrors(items[j], from + Dropped(items[..lead]) + (j - lead), log)
  {
    hide Mirrors, Item.Bytes, Dropped, Records;
    ShapeTotals(items, lead, j, end);
    assert Mirrors(items[j], from + Span(items[..j]), log);
  }

  lemma ReadNext(p: seq<uint8>, at: nat, item: Item, previous: Option<Frame>)
    requires item.Stored? && item.Fits() && Holds(p, at, item.Bytes()) && Follows(previous, item.base)
    ensures D.RecordAt(p, at, previous) == D.Ok(D.Step(at + |item.Bytes()|, Read(previous, item)))
  {
    hide Item.Bytes, D.RecordAt, Holds, Follows, IsDelta;
    RecordRoundTrip(p, at, item, previous);
  }

  // ----- a whole batch -----

  /** What the host knows between batches: it has read the records below `host.nextSequence`. */
  ghost predicate HostKnows(host: D.State, received: seq<D.Numbered>, log: Log) {
    HostFollows(host.previous, host.nextSequence, log) && Genuine(received, host.nextSequence, log)
  }

  /** The host has had every batch up to number `out`: it got every record kept below it, and
      never left a delta out. */
  ghost predicate HostHasAll(host: D.State, received: seq<D.Numbered>, out: nat, log: Log) {
    && host.nextSequence <= out <= |log| && host.skipped == 0
    && HostCaughtUp(host.previous, host.nextSequence, log)
    && received == Kept(log, 0, out)
    && (forall i | host.nextSequence <= i < out :: !log[i].kept)
  }

  lemma BatchLayout(s: Store, end: nat)
    requires ValidBatch(s, end) && Records(s.items[..end]) > 0
    ensures var p := BatchOf(s, end);
            && |p| == BATCH_HEADER_SIZE + |Payload(s.items[..end])| && Holds(p, BATCH_HEADER_SIZE, Payload(s.items[..end]))
            && GetLe32(p, 0) == s.outSequence + Dropped(s.items[..end]) && p[4] == Records(s.items[..end])
  {
    hide Payload, Dropped, Records;
    var number, count, payload := Le32(s.outSequence + Dropped(s.items[..end])), [Records(s.items[..end])], Payload(s.items[..end]);
    var p := BatchOf(s, end);
    assert p == number + count + payload;
    assert Holds(p, 0, number + count + payload);
    HoldsParts(p, 0, number + count, payload);
    HoldsParts(p, 0, number, count);
    HoldsAt(p, 4, count, 0);
    Le32Holds(p, 0, s.outSequence + Dropped(s.items[..end]));
  }

  /** The frame the host follows at a batch's first record: none after missing numbers. */
  lemma FirstFollows(host: D.State, received: seq<D.Numbered>, out: nat, first: nat, log: Log)
    requires HostKnows(host, received, log) && host.nextSequence <= out <= first <= |log|
    requires forall i | out <= i < first :: !log[i].kept
    ensures var previous := if first != host.nextSequence then None else host.previous;
            && HostFollows(previous, first, log)
            && (HostHasAll(host, received, out, log) ==> HostCaughtUp(previous, first, log))
  {
    if HostHasAll(host, received, out, log) {
      NoneKept(log, host.nextSequence, first);
    }
  }

  /** What the host knows after the records [first, n) of a batch. */
  lemma Received(host: D.State, received: seq<D.Numbered>, records: seq<D.Numbered>, out: nat, first: nat, n: nat, log: Log,
                 previous: Option<Frame>, skipped: nat, caughtUp: bool)
    requires HostKnows(host, received, log) && host.nextSequence <= out <= first < n <= |log| < 0x1_0000_0000
    requires forall i | out <= i < first :: !log[i].kept
    requires Decoded(previous, records, skipped, first, n, log, caughtUp, host.skipped)
    requires HostHasAll(host, received, out, log) ==> caughtUp
    ensures HostKnows(D.State(n, previous, skipped), received + records, log)
    ensures HostHasAll(host, received, out, log) ==> HostHasAll(D.State(n, previous, skipped), received + records, n, log)
  {
    if HostHasAll(host, received, out, log) {
      NoneKept(log, out, first);
      KeptSplit(log, 0, out, first);
      KeptSplit(log, 0, first, n);
    }
  }

  /** A batch that reaches the host parses, and gives it exactly records that were recorded,
      under their own numbers; if the host had everything before, it has everything now. */
  lemma BatchRoundTrip(s: Store, lead: nat, end: nat, host: D.State, received: seq<D.Numbered>, log: Log)
    requires s.Valid() && |log| == s.nextSequence && AllMirror(s.items, s.outSequence, log)
    requires Shape(s.items, lead, end) && lead < end
    requires HostKnows(host, received, log) && host.nextSequence <= s.outSequence
    ensures ValidBatch(s, end) && Records(s.items[..end]) > 0 && s.outSequence + Span(s.items[..end]) <= |log|
    ensures var (r, host') := D.ParseBatch(BatchOf(s, end), host);
            && r.Ok? && host'.nextSequence == s.outSequence + Span(s.items[..end])
            && HostKnows(host', received + r.value, log)
            && (HostHasAll(host, received, s.outSequence, log) ==>
                  HostHasAll(host', received + r.value, host'.nextSequence, log))
  {
    hide Payload, Dropped, Records, Flatten, Mirrors, BaseAt, Kept, Genuine, HostFollows, HostCaughtUp, HostHasAll, Item.Bytes, Holds, D.Decode;
    var taken, first := s.items[..end], s.outSequence + Dropped(s.items[..lead]);
    Split(s.items, end);
    ShapeTotals(s.items, lead, end, end);
    ShapeTotals(s.items, lead, lead, end);
    LeadSkips(s.items, lead, s.outSequence, log);
    FirstFollows(host, received, s.outSequence, first, log);
    BatchLayout(s, end);
    var p := BatchOf(s, end);
    var previous := if first != host.nextSequence then None else host.previous;
    var caughtUp := HostHasAll(host, received, s.outSequence, log);
    Beginning(previous, host.skipped, first, log, caughtUp);
    LeadTotals(s.items, lead);
    DecodeItems(p, BATCH_HEADER_SIZE, s.items, lead, lead, end, s.outSequence, log, previous, [], host.skipped,
                first, caughtUp, host.skipped, BATCH_HEADER_SIZE, first, end - lead);
    var run := D.Decode(p, BATCH_HEADER_SIZE, first, end - lead, previous, [], host.skipped);
    Received(host, received, run.records, s.outSequence, first, first + (end - lead), log, run.previous, run.skipped, caughtUp);
  }

  lemma Beginning(previous: Option<Frame>, skipped: nat, first: nat, log: Log, caughtUp: bool)
    requires HostFollows(previous, first, log) && (caughtUp ==> HostCaughtUp(previous, first, log))
    ensures Decoded(previous, [], skipped, first, first, log, caughtUp, skipped)
  {
  }

  /** The numbers a batch's leading gaps skip are all of dropped records. */
  lemma {:induction false} LeadSkips(items: seq<Item>, lead: nat, from: nat, log: Log)
    requires lead <= |items| && AllMirror(items, from, log) && forall i | 0 <= i < lead :: items[i].Gap?
    requires from <= |log|
    ensures from + Dropped(items[..lead]) <= |log|
    ensures forall i | from <= i < from + Dropped(items[..lead]) :: !log[i].kept
    decreases lead
  {
    hide Item.Bytes, Payload, Flatten, BaseAt;
    if lead > 0 {
      LeadSkips(items, lead - 1, from, log);
      LeadTotals(items, lead - 1);
      Extend(items, lead - 1);
      assert Mirrors(items[lead - 1], from + Span(items[..lead - 1]), log);
    }
  }
}
