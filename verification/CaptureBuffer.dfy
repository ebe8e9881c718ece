/** The burst buffer itself (src/observer/capture.c): a byte array used as a ring and the
    bookkeeping beside it, updated in place. Each operation is proved to do to the array what
    CaptureStore says it does to the stored items. */
module CaptureBuffer {
  import opened Bytes
  import opened CaptureCodec
  import opened CaptureStore

  class Buffer {
    var data: array<uint8>
    var head: nat
    var used: nat
    var records: nat
    var nextSequence: nat
    var outSequence: nat
    var pendingGap: nat
    var previousUs: int
    var previousSpanUs: int
    var previousFlags: int
    var havePrevious: bool

    /** What the ring stores, oldest first. */
    ghost var items: seq<Item>

    ghost function Base(): Option<CaptureCodec.Base>
      reads this
    {
      if havePrevious then Some(CaptureCodec.Base(previousUs, previousSpanUs, previousFlags)) else None
    }

    ghost function Ring(): CaptureStore.Ring
      reads this, data
    {
      CaptureStore.Ring(data[..], head, used)
    }

    ghost function Value(): Store
      reads this, data
    {
      Store(Ring(), items, nextSequence, outSequence, pendingGap, Base())
    }

    ghost predicate Valid()
      reads this, data
    {
      Value().Valid() && records == Records(items)
    }

    constructor (storage: array<uint8>)
      requires storage.Length > 0
      ensures Valid() && data == storage && Value() == Empty(storage[..])
    {
      data, head, used, records := storage, 0, 0, 0;
      nextSequence, outSequence, pendingGap := 0, 0, 0;
      previousUs, previousSpanUs, previousFlags, havePrevious := 0, 0, 0, false;
      items := [];
    }

    /** A copy of the bookkeeping that shares the bytes. */
    constructor Copy(live: Buffer)
      requires live.Valid()
      ensures Valid() && data == live.data && Value() == live.Value()
    {
      data, head, used, records := live.data, live.head, live.used, live.records;
      nextSequence, outSequence, pendingGap := live.nextSequence, live.outSequence, live.pendingGap;
      previousUs, previousSpanUs := live.previousUs, live.previousSpanUs;
      previousFlags, havePrevious := live.previousFlags, live.havePrevious;
      items := live.items;
    }

    method RingWrite(bytes: array<uint8>, length: nat)
      requires Ring().Valid() && bytes != data && length <= bytes.Length && used + length <= data.Length
      modifies data, this`used
      ensures Ring() == old(Ring()).Write(bytes[..length])
    {
      hide CaptureStore.Ring.Write;
      Wraps(head + used, data.Length);
      var tail := (head + used) % data.Length;
      ghost var ring, code := Ring(), bytes[..length];
      WriteNothing(ring, code);
      var i := 0;
      while i < length
        invariant 0 <= i <= length && used == old(used) && bytes[..length] == code
        invariant tail == ring.Position(ring.used + i)
        invariant CaptureStore.Ring(data[..], head, used + i) == ring.Write(code[..i])
      {
        hide CaptureStore.Ring.Write;
        WriteMore(ring, code, i);
        data[tail] := bytes[i];
        tail := if tail + 1 == data.Length then 0 else tail + 1;
        i := i + 1;
      }
      assert code[..length] == code;
      used := used + length;
    }

    /** Copies stored bytes out, from an offset after the oldest. */
    method RingRead(offset: nat, out: array<uint8>, length: nat)
      requires Ring().Valid() && out != data && length <= out.Length && offset + length <= used
      modifies out
      ensures out[..length] == Ring().Content()[offset..offset + length]
    {
      if length == 0 {
        return;
      }
      Wraps(head + offset, data.Length);
      var position := (head + offset) % data.Length;
      ghost var ring := Ring();
      ghost var content := ring.Content();
      var i := 0;
      while i < length
        invariant 0 <= i <= length && Ring() == ring
        invariant position == ring.Position(offset + i)
        invariant forall k | 0 <= k < i :: out[k] == content[offset + k]
      {
        ContentAt(ring, offset + i);
        out[i] := data[position];
        position := if position + 1 == data.Length then 0 else position + 1;
        i := i + 1;
      }
    }

    /** Fills `out` with the form EncodeRecord picks for the record, given the current base. */
    method Encode(r: Record, out: array<uint8>) returns (length: nat)
      requires r.Fits() && out.Length == RECORD_MAX_SIZE + 2
      modifies out
      ensures length <= out.Length && out[..length] == EncodeRecord(old(Base()), r)
    {
      var base := if havePrevious then Some(CaptureCodec.Base(previousUs, previousSpanUs, previousFlags)) else None;
      length := 0;
      if r.FrameRecord? {
        length := PutDelta(base, r.frame, out);
      }
      if length == 0 {
        length := PutFull(r, out);
      }
    }

    /** Writes a marker for the records dropped before the next one. */
    method PutMarker()
      requires Ring().Valid() && 0 < pendingGap < 0x1_0000_0000 && used + GAP_MARKER_SIZE <= data.Length
      modifies data, this`used
      ensures Ring() == old(Ring()).Write(Gap(pendingGap).Bytes())
    {
      var marker := new uint8[GAP_MARKER_SIZE];
      marker[0] := GAP_MARKER;
      PutLe32(marker, 1, pendingGap);
      assert marker[..5] == Gap(pendingGap).Bytes();
      RingWrite(marker, GAP_MARKER_SIZE);
    }

    /** Stores the marker of the records dropped before, if any, and the record's bytes. */
    method Append(encoded: array<uint8>, length: nat)
      requires Ring().Valid() && encoded != data && length <= encoded.Length && pendingGap < 0x1_0000_0000
      requires used + length + (if pendingGap > 0 then GAP_MARKER_SIZE else 0) <= data.Length
      modifies data, this`used, this`pendingGap
      ensures pendingGap == 0
      ensures Ring() == old(Ring()).Write(
                          (if old(pendingGap) > 0 then Gap(old(pendingGap)).Bytes() else []) + encoded[..length])
    {
      hide CaptureStore.Ring.Write;
      ghost var code := encoded[..length];
      if pendingGap > 0 {
        WriteTwice(Ring(), Gap(pendingGap).Bytes(), code);
        PutMarker();
        pendingGap := 0;
      } else {
        assert [] + code == code;
      }
      RingWrite(encoded, length);
    }

    /** The part of Put that runs when there is room: `encoded` goes into the ring behind any
        marker, and a frame becomes the base. */
    method Keep(r: Record, encoded: array<uint8>, length: nat, ghost s: Store)
      requires s.Valid() && r.Fits() && s.nextSequence + 1 < 0x1_0000_0000 && HasRoom(s, r)
      requires Value() == s.(nextSequence := s.nextSequence + 1, base := BaseFor(s.base, r)) && records == Records(items)
      requires encoded != data && length <= encoded.Length && encoded[..length] == EncodeRecord(Base(), r)
      modifies this, data
      ensures data == old(data) && records == Records(items)
      ensures Value() == CaptureStore.Put(s, r)
    {
      hide Flatten, Records, Dropped, Item.Bytes, EncodeRecord, CaptureStore.Ring.Write, CaptureStore.Ring.Content, AllFit,
           Payload, Store.Valid, NewItems;
      PutFacts(s, r);
      Append(encoded, length);
      records := records + 1;
      if r.FrameRecord? {
        previousUs, previousSpanUs := r.frame.Us(), r.frame.spanUs;
        previousFlags, havePrevious := r.frame.flags, true;
      }
      items := items + NewItems(s, r);
    }

    /** Takes a number for the record whether or not the ring has room for it; a refusal adds to
        the gap and forgets the base. */
    method Put(r: Record) returns (stored: bool)
      requires Valid() && r.Fits() && nextSequence + 1 < 0x1_0000_0000
      modifies this, data
      ensures Valid() && data == old(data)
      ensures Value() == CaptureStore.Put(old(Value()), r)
      ensures stored == HasRoom(old(Value()), r)
      ensures stored
         <==> data.Length - old(used)
              >= |EncodeRecord(BaseFor(old(Base()), r), r)| + (if old(pendingGap) > 0 then GAP_MARKER_SIZE else 0)
    {
      hide Flatten, Records, Dropped, Item.Bytes, EncodeRecord, CaptureStore.Ring.Write, CaptureStore.Ring.Content, AllFit,
           Payload, Store.Valid, NewItems;
      ghost var s := Value();
      PutFacts(s, r);
      nextSequence := nextSequence + 1;
      if r.Entered? {
        havePrevious := false;
      }
      var encoded := new uint8[RECORD_MAX_SIZE + 2];
      var length := Encode(r, encoded);
      var needed := length + if pendingGap > 0 then GAP_MARKER_SIZE else 0;
      if data.Length - used < needed {
        pendingGap := pendingGap + 1;
        havePrevious := false;
        return false;
      }
      Keep(r, encoded, length, s);
      return true;
    }

    /** Reads item `k` and measures it by its own bytes. */
    method ReadItem(offset: nat, record: array<uint8>, ghost k: nat) returns (length: nat)
      requires Valid() && record != data && record.Length == RECORD_MAX_SIZE
      requires k < |items| && offset == |Flatten(items[..k])|
      modifies record
      ensures length == |items[k].Bytes()| <= RECORD_MAX_SIZE && record[..length] == items[k].Bytes()
      ensures offset + length == |Flatten(items[..k + 1])| <= used
    {
      hide Item.Bytes, Flatten, Payload, Records, Dropped, CaptureStore.Ring.Content;
      ItemStands(Value(), k);
      var left := used - offset;
      var available := if left < RECORD_MAX_SIZE then left else RECORD_MAX_SIZE;
      RingRead(offset, record, available);
      assert Holds(record[..available], 0, items[k].Bytes());
      length := StoredLength(record, available, items[k]);
      assert record[..length] == record[..available][..length];
    }

    method CopyBytes(record: array<uint8>, length: nat, out: array<uint8>, at: nat)
      requires record != out && length <= record.Length && at + length <= out.Length
      modifies out
      ensures out[..at + length] == old(out[..at]) + record[..length]
      ensures unchanged(record) && SameFrom(old(out[..]), out[..], at + length)
    {
      for i := 0 to length
        invariant out[..at + i] == old(out[..at]) + record[..i] && unchanged(record)
        invariant SameFrom(old(out[..]), out[..], at + i)
      {
        ghost var done := out[..at + i];
        out[at + i] := record[i];
        assert out[..at + i + 1] == done + [record[i]];
      }
    }

    /** Takes item `k` into the batch, or finds that the batch ends before it. */
    method PeekItem(out: array<uint8>, offset: nat, sequence: nat, length: nat, count: nat, capacity: nat, ghost k: nat)
      returns (more: bool, offset': nat, sequence': nat, length': nat, count': nat)
      requires Valid() && out != data && BATCH_HEADER_SIZE <= length <= capacity <= out.Length
      requires Peeking(Value(), out[BATCH_HEADER_SIZE..length], k, offset, sequence, length, count, capacity)
      requires offset < used && count < BATCH_MAX_RECORDS
      modifies out
      ensures BATCH_HEADER_SIZE <= length' <= capacity
      ensures Peeking(Value(), out[BATCH_HEADER_SIZE..length'], if more then k + 1 else k,
                      offset', sequence', length', count', capacity)
      ensures if more then offset < offset' else Cut(items, capacity) == k
    {
      hide Item.Bytes, Flatten, Payload, Records, Dropped, CaptureStore.Ring.Content, AllFit, Peeking, Store.Valid, CutFrom;
      more, offset', sequence', length', count' := false, offset, sequence, length, count;
      ghost var s, batch := Value(), out[BATCH_HEADER_SIZE..length];
      PeekingItem(s, batch, k, offset, sequence, length, count, capacity);
      var record := new uint8[RECORD_MAX_SIZE];
      var recordLength := ReadItem(offset, record, k);
      assert record[0] == record[..recordLength][0];
      if record[0] == GAP_MARKER {
        if count > 0 {
          return;
        }
        MarkerCount(record[..], items[k]);
        sequence' := sequence + GetLe32(record[..], 1);
      } else {
        if length + recordLength > capacity {
          return;
        }
        ghost var done := out[..length];
        CopyBytes(record, recordLength, out, length);
        assert out[BATCH_HEADER_SIZE..length + recordLength] == batch + items[k].Bytes();
        length', count' := length + recordLength, count + 1;
      }
      more, offset' := true, offset + recordLength;
    }

    method PutHeader(out: array<uint8>, sequence: nat, count: nat, length: nat, ghost end: nat)
      requires out != data && ValidBatch(Value(), end) && BATCH_HEADER_SIZE <= length <= out.Length
      requires sequence == outSequence + Dropped(items[..end]) && count == Records(items[..end]) > 0
      requires out[BATCH_HEADER_SIZE..length] == Payload(items[..end])
      modifies out
      ensures out[..length] == BatchOf(Value(), end)
    {
      hide Dropped, Records, Payload;
      ghost var payload := out[BATCH_HEADER_SIZE..length];
      PutLe32(out, 0, sequence);
      out[4] := count;
      assert out[BATCH_HEADER_SIZE..length] == payload;
      assert out[..length] == Le32(sequence) + [count] + payload;
    }

    /** Builds the batch that Cut picks from the ring's items, and says in `take` what it covers;
        the buffer itself does not change. */
    method Peek(out: array<uint8>, capacity: nat) returns (length: nat, take: Take)
      requires Valid() && out != data && BATCH_HEADER_SIZE <= capacity <= out.Length
      modifies out
      ensures ValidBatch(Value(), Cut(items, capacity))
      ensures length <= out.Length && out[..length] == BatchOf(Value(), Cut(items, capacity))
      ensures take == TakeOf(Value(), Cut(items, capacity))
    {
      var offset, sequence, count, more: bool := 0, outSequence, 0, true;
      length := BATCH_HEADER_SIZE;
      ghost var k: nat := 0;
      while more && offset < used && count < BATCH_MAX_RECORDS
        invariant offset >= 0 && sequence >= 0 && count >= 0 && BATCH_HEADER_SIZE <= length <= capacity
        invariant Peeking(Value(), out[BATCH_HEADER_SIZE..length], k, offset, sequence, length, count, capacity)
        invariant !more ==> Cut(items, capacity) == k
        decreases more, used - offset
      {
        more, offset, sequence, length, count := PeekItem(out, offset, sequence, length, count, capacity, k);
        k := if more then k + 1 else k;
      }
      CutHere(Value(), out[BATCH_HEADER_SIZE..length], k, offset, sequence, length, count, capacity);
      take := Take(offset, count, sequence + count);
      if count == 0 {
        length := 0;
        return;
      }
      PutHeader(out, sequence, count, length, k);
    }

    /** Moves the head past the first `end` items. */
    method Consume(take: Take, ghost end: nat)
      requires Valid() && end <= |items| && take == TakeOf(Value(), end)
      modifies this
      ensures Valid() && data == old(data)
      ensures |Flatten(old(items)[..end])| <= old(used) && Value() == CaptureStore.Consume(old(Value()), end)
    {
      hide Flatten, Records, Dropped, Item.Bytes, CaptureStore.Ring.Content, Payload;
      ghost var s := Value();
      ConsumeValid(s, end);
      Split(items, end);
      Wraps(head + take.bytes, data.Length);
      head := (head + take.bytes) % data.Length;
      used := used - take.bytes;
      records := records - take.records;
      outSequence := take.nextSequence;
      items := items[end..];
    }

    /** Empties the ring and counts the records that were in it. */
    method Discard() returns (lost: nat)
      requires Valid()
      modifies this
      ensures Valid() && data == old(data)
      ensures Value() == CaptureStore.Discard(old(Value())) && lost == Records(old(items))
    {
      ghost var s := Value();
      DiscardValid(s);
      lost := records;
      head, used, records, pendingGap := 0, 0, 0, 0;
      outSequence := nextSequence;
      havePrevious := false;
      items := [];
    }
  }

  lemma PutFacts(s: Store, r: Record)
    requires s.Valid() && r.Fits() && s.nextSequence + 1 < 0x1_0000_0000
    ensures CaptureStore.Put(s, r).Valid() && s.pendingGap < 0x1_0000_0000 && s.ring.Valid()
    ensures Flatten(NewItems(s, r))
         == (if s.pendingGap > 0 then Gap(s.pendingGap).Bytes() else []) + EncodeRecord(BaseFor(s.base, r), r)
    ensures s.pendingGap > 0 ==> |Gap(s.pendingGap).Bytes()| == GAP_MARKER_SIZE
    ensures Records(s.items + NewItems(s, r)) == Records(s.items) + 1
  {
    hide Flatten, Records, Dropped, EncodeRecord, CaptureStore.Put;
    NewItemsBytes(s, r);
    PutValid(s, r);
    Concatenation(s.items, NewItems(s, r));
  }

  /** Where item `k` stands in the ring. */
  lemma ItemStands(s: Store, k: nat)
    requires s.Valid() && k < |s.items|
    ensures var at := |Flatten(s.items[..k])|;
            && s.items[k].Fits() && 0 < |s.items[k].Bytes()| <= RECORD_MAX_SIZE
            && at + |s.items[k].Bytes()| == |Flatten(s.items[..k + 1])| <= s.ring.used
            && s.ring.Content()[at..at + |s.items[k].Bytes()|] == s.items[k].Bytes()
  {
    hide Flatten, Payload, Records, Dropped, CaptureStore.Ring.Content;
    Split(s.items, k + 1);
    Extend(s.items, k);
  }

  /** Where peeking stands before item `k`, with `batch` the records' bytes so far. */
  ghost predicate Peeking(s: Store, batch: seq<uint8>, k: nat, offset: nat, sequence: nat, length: nat, count: nat,
                          capacity: nat)
  {
    && k <= |s.items| && offset == |Flatten(s.items[..k])| && sequence == s.outSequence + Dropped(s.items[..k])
    && count == Records(s.items[..k]) && count <= BATCH_MAX_RECORDS && batch == Payload(s.items[..k])
    && CutFrom(s.items, k, length, count, capacity) == Cut(s.items, capacity)
  }

  lemma CutStep(items: seq<Item>, k: nat, length: nat, count: nat, capacity: nat)
    requires k < |items| && count < BATCH_MAX_RECORDS
    ensures CutFrom(items, k, length, count, capacity)
         == if items[k].Gap? then if count > 0 then k else CutFrom(items, k + 1, length, count, capacity)
            else if length + |items[k].Bytes()| > capacity then k
            else CutFrom(items, k + 1, length + |items[k].Bytes()|, count + 1, capacity)
  {
    hide Item.Bytes;
  }

  lemma StillStored(s: Store, k: nat)
    requires s.Valid() && k <= |s.items| && |Flatten(s.items[..k])| < s.ring.used
    ensures k < |s.items|
  {
    hide Item.Bytes, CaptureStore.Ring.Content;
    Split(s.items, k);
  }

  /** What comes after item `k`, by what it is and whether the batch can hold it. */
  lemma PeekingItem(s: Store, batch: seq<uint8>, k: nat, offset: nat, sequence: nat, length: nat, count: nat, capacity: nat)
    requires s.Valid() && Peeking(s, batch, k, offset, sequence, length, count, capacity)
    requires offset < s.ring.used && count < BATCH_MAX_RECORDS
    ensures k < |s.items| && offset == |Flatten(s.items[..k])|
    ensures var item := s.items[k];
            && item.Fits() && item.Bytes() != [] && (item.Gap? <==> item.Bytes()[0] == GAP_MARKER)
            && (item.Gap? ==>
                  if count > 0 then Cut(s.items, capacity) == k
                  else Peeking(s, batch, k + 1, offset + |item.Bytes()|, sequence + item.count, length, count, capacity))
            && (item.Stored? ==>
                  if length + |item.Bytes()| > capacity then Cut(s.items, capacity) == k
                  else Peeking(s, batch + item.Bytes(), k + 1, offset + |item.Bytes()|, sequence,
                               length + |item.Bytes()|, count + 1, capacity))
  {
    hide Item.Bytes, Flatten, Payload, Records, Dropped, CaptureStore.Ring.Content, AllFit, Cut, CutFrom;
    StillStored(s, k);
    ItemStands(s, k);
    ItemKind(s.items[k]);
    PeekingNext(s, batch, k, offset, sequence, length, count, capacity);
  }

  lemma PeekingNext(s: Store, batch: seq<uint8>, k: nat, offset: nat, sequence: nat, length: nat, count: nat, capacity: nat)
    requires Peeking(s, batch, k, offset, sequence, length, count, capacity) && k < |s.items| && count < BATCH_MAX_RECORDS
    ensures var item := s.items[k];
            && (item.Gap? ==>
                  if count > 0 then Cut(s.items, capacity) == k
                  else Peeking(s, batch, k + 1, offset + |item.Bytes()|, sequence + item.count, length, count, capacity))
            && (item.Stored? ==>
                  if length + |item.Bytes()| > capacity then Cut(s.items, capacity) == k
                  else Peeking(s, batch + item.Bytes(), k + 1, offset + |item.Bytes()|, sequence,
                               length + |item.Bytes()|, count + 1, capacity))
  {
    hide Item.Bytes, Flatten, Payload, Records, Dropped, CutFrom, Cut;
    Extend(s.items, k);
    CutStep(s.items, k, length, count, capacity);
  }

  lemma MarkerCount(record: seq<uint8>, item: Item)
    requires item.Gap? && |item.Bytes()| <= |record| && record[..|item.Bytes()|] == item.Bytes()
    ensures |record| >= 5 && GetLe32(record, 1) == item.count
  {
    assert Holds(record, 0, [GAP_MARKER] + Le32(item.count));
    HoldsParts(record, 0, [GAP_MARKER], Le32(item.count));
    Le32Holds(record, 1, item.count);
  }

  /** Where the loop ends, the batch does. */
  lemma CutHere(s: Store, batch: seq<uint8>, k: nat, offset: nat, sequence: nat, length: nat, count: nat, capacity: nat)
    requires s.Valid() && Peeking(s, batch, k, offset, sequence, length, count, capacity)
    requires Cut(s.items, capacity) == k || offset >= s.ring.used || count >= BATCH_MAX_RECORDS
    ensures Cut(s.items, capacity) == k && ValidBatch(s, k)
    ensures offset == |Flatten(s.items[..k])| && sequence == s.outSequence + Dropped(s.items[..k])
    ensures count == Records(s.items[..k]) && batch == Payload(s.items[..k])
  {
    hide Flatten, Records, Dropped, Item.Bytes, Payload, CaptureStore.Ring.Content;
    Split(s.items, k);
    if k < |s.items| {
      ItemStands(s, k);
    }
  }
}
