/** What the burst buffer holds, as a value: a byte ring of items, and the bookkeeping that
    numbers records (src/observer/capture.c). CaptureBuffer is proved against this. */
module CaptureStore {
  import opened Bytes
  import opened CaptureCodec

  const GAP_MARKER_SIZE: nat := 5
  const BATCH_MAX_RECORDS: nat := 255

  // ----- the ring -----

  /** A ring of bytes: `used` of them, from `head` on, wrapping at the end of `data`. */
  datatype Ring = Ring(data: seq<uint8>, head: nat, used: nat) {
    predicate Valid() {
      head < |data| && used <= |data|
    }

    /** The stored bytes, oldest first. */
    function Content(): (c: seq<uint8>)
      requires Valid()
      ensures |c| == used
    {
      (data + data)[head..head + used]
    }

    /** The position of the byte at an offset from the head. */
    function Position(offset: nat): (i: nat)
      requires Valid() && offset <= |data|
      ensures i < |data|
    {
      if head + offset < |data| then head + offset else head + offset - |data|
    }

    function Push(byte: uint8): (r: Ring)
      requires Valid() && used < |data|
      ensures r.Valid() && r.head == head && |r.data| == |data| && r.used == used + 1
    {
      Ring(data[Position(used) := byte], head, used + 1)
    }

    function Write(bytes: seq<uint8>): (r: Ring)
      requires Valid() && used + |bytes| <= |data|
      ensures r.Valid() && r.head == head && |r.data| == |data| && r.used == used + |bytes|
      decreases |bytes|
    {
      if bytes == [] then this else Push(bytes[0]).Write(bytes[1..])
    }

    function Drop(bytes: nat): (r: Ring)
      requires Valid() && bytes <= used
      ensures r.Valid() && |r.data| == |data|
    {
      Ring(data, Position(bytes), used - bytes)
    }
  }

  /** Reduction modulo the capacity wraps once. */
  lemma Wraps(k: nat, capacity: nat)
    requires 0 < capacity && k < 2 * capacity
    ensures k % capacity == if k < capacity then k else k - capacity
  {
    if k >= capacity {
      assert k == capacity + (k - capacity);
      assert (k - capacity) % capacity == k - capacity;
      assert (capacity + (k - capacity)) % capacity == (k - capacity) % capacity;
    }
  }

  lemma ContentAt(ring: Ring, offset: nat)
    requires ring.Valid() && offset < ring.used
    ensures ring.Content()[offset] == ring.data[ring.Position(offset)]
  {
  }

  lemma PushContent(ring: Ring, byte: uint8)
    requires ring.Valid() && ring.used < |ring.data|
    ensures ring.Push(byte).Content() == ring.Content() + [byte]
  {
  }

  /** Writing appends to the stored bytes and overwrites none of them. */
  lemma {:induction false} WriteContent(ring: Ring, bytes: seq<uint8>)
    requires ring.Valid() && ring.used + |bytes| <= |ring.data|
    ensures ring.Write(bytes).Content() == ring.Content() + bytes
    decreases |bytes|
  {
    if bytes != [] {
      PushContent(ring, bytes[0]);
      WriteContent(ring.Push(bytes[0]), bytes[1..]);
      assert ring.Content() + [bytes[0]] + bytes[1..] == ring.Content() + bytes;
    }
  }

  lemma {:induction false} WriteTwice(ring: Ring, a: seq<uint8>, b: seq<uint8>)
    requires ring.Valid() && ring.used + |a| + |b| <= |ring.data|
    ensures ring.Write(a).Write(b) == ring.Write(a + b)
    decreases |a|
  {
    if a == [] {
      assert a + b == b;
    } else {
      assert (a + b)[1..] == a[1..] + b;
      WriteTwice(ring.Push(a[0]), a[1..], b);
    }
  }

  lemma WriteNothing(ring: Ring, bytes: seq<uint8>)
    requires ring.Valid()
    ensures ring.Write(bytes[..0]) == ring
  {
  }

  lemma WriteMore(ring: Ring, bytes: seq<uint8>, i: nat)
    requires ring.Valid() && i < |bytes| && ring.used + |bytes| <= |ring.data|
    ensures ring.Write(bytes[..i + 1]) == ring.Write(bytes[..i]).Push(bytes[i])
  {
    WriteTwice(ring, bytes[..i], [bytes[i]]);
    assert bytes[..i + 1] == bytes[..i] + [bytes[i]];
  }

  lemma DropContent(ring: Ring, bytes: nat)
    requires ring.Valid() && bytes <= ring.used
    ensures ring.Drop(bytes).Content() == ring.Content()[bytes..]
  {
  }

  // ----- the items in it -----

  ghost predicate AllFit(items: seq<Item>) {
    forall i | 0 <= i < |items| :: items[i].Fits() && (items[i].Gap? ==> items[i].count > 0)
  }

  /** Every stored byte. */
  ghost function Flatten(items: seq<Item>): seq<uint8> {
    if items == [] then [] else Flatten(items[..|items| - 1]) + items[|items| - 1].Bytes()
  }

  /** The bytes of the records alone. */
  ghost function Payload(items: seq<Item>): seq<uint8> {
    if items == [] then [] else Payload(items[..|items| - 1]) + RecordBytes(items[|items| - 1])
  }

  ghost function RecordBytes(item: Item): seq<uint8> {
    if item.Stored? then item.Bytes() else []
  }

  ghost function Records(items: seq<Item>): nat {
    if items == [] then 0 else Records(items[..|items| - 1]) + (if items[|items| - 1].Stored? then 1 else 0)
  }

  ghost function Dropped(items: seq<Item>): nat {
    if items == [] then 0 else Dropped(items[..|items| - 1]) + (if items[|items| - 1].Gap? then items[|items| - 1].count else 0)
  }

  /** How many sequence numbers the items account for. */
  ghost function Span(items: seq<Item>): nat {
    Records(items) + Dropped(items)
  }

  lemma {:induction false} Concatenation(a: seq<Item>, b: seq<Item>)
    ensures Flatten(a + b) == Flatten(a) + Flatten(b)
    ensures Payload(a + b) == Payload(a) + Payload(b)
    ensures Records(a + b) == Records(a) + Records(b)
    ensures Dropped(a + b) == Dropped(a) + Dropped(b)
    decreases |b|
  {
    hide Item.Bytes, RecordBytes;
    if b == [] {
      assert a + b == a;
    } else {
      var front, last := b[..|b| - 1], b[|b| - 1];
      assert (a + b)[..|a + b| - 1] == a + front;
      Concatenation(a, front);
      AppendAssociates(Flatten(a), Flatten(front), last.Bytes());
      AppendAssociates(Payload(a), Payload(front), RecordBytes(last));
    }
  }

  /** The items up to `k` and from `k`. */
  lemma Split(items: seq<Item>, k: nat)
    requires k <= |items|
    ensures Flatten(items) == Flatten(items[..k]) + Flatten(items[k..])
    ensures Payload(items) == Payload(items[..k]) + Payload(items[k..])
    ensures Records(items) == Records(items[..k]) + Records(items[k..])
    ensures Dropped(items) == Dropped(items[..k]) + Dropped(items[k..])
  {
    assert items == items[..k] + items[k..];
    Concatenation(items[..k], items[k..]);
  }

  /** One more item of a prefix. */
  lemma Extend(items: seq<Item>, k: nat)
    requires k < |items|
    ensures Flatten(items[..k + 1]) == Flatten(items[..k]) + items[k].Bytes()
    ensures Payload(items[..k + 1]) == Payload(items[..k]) + RecordBytes(items[k])
    ensures Records(items[..k + 1]) == Records(items[..k]) + (if items[k].Stored? then 1 else 0)
    ensures Dropped(items[..k + 1]) == Dropped(items[..k]) + (if items[k].Gap? then items[k].count else 0)
  {
    assert items[..k + 1][..k] == items[..k];
  }

  // ----- the buffer -----

  datatype Store = Store(
    ring: Ring,
    items: seq<Item>,
    nextSequence: nat,
    outSequence: nat,
    pendingGap: nat,
    base: Option<Base>)
  {
    /** The ring holds the items' bytes, and every number handed out is accounted for: sent,
        stored, in a stored gap, or in the gap still to be stored. */
    ghost predicate Valid() {
      && ring.Valid() && AllFit(items) && ring.Content() == Flatten(items)
      && outSequence + Span(items) + pendingGap == nextSequence < 0x1_0000_0000
      && (items != [] ==> items[|items| - 1].Stored?)
      && (pendingGap > 0 ==> base.None?)
      && (base.Some? ==> base.value.Fits())
    }
  }

  function Empty(data: seq<uint8>): Store {
    Store(Ring(data, 0, 0), [], 0, 0, 0, None)
  }

  /** An entered record makes the next frame go whole. */
  function BaseFor(base: Option<Base>, r: Record): Option<Base> {
    if r.Entered? then None else base
  }

  /** What one put stores: the marker of the records dropped before it, and the record. */
  ghost function NewItems(s: Store, r: Record): seq<Item>
    requires s.pendingGap < 0x1_0000_0000
  {
    (if s.pendingGap > 0 then [Gap(s.pendingGap)] else []) + [Stored(r, BaseFor(s.base, r))]
  }

  ghost predicate HasRoom(s: Store, r: Record)
    requires s.Valid()
  {
    s.ring.used + |Flatten(NewItems(s, r))| <= |s.ring.data|
  }

  /** The buffer after one record more: its items where they fit, or a longer pending gap. */
  ghost function Put(s: Store, r: Record): Store
    requires s.Valid()
  {
    if HasRoom(s, r) then
      s.(ring := s.ring.Write(Flatten(NewItems(s, r))),
         items := s.items + NewItems(s, r),
         nextSequence := s.nextSequence + 1,
         pendingGap := 0,
         base := if r.FrameRecord? then Some(BaseOf(r.frame)) else BaseFor(s.base, r))
    else
      s.(nextSequence := s.nextSequence + 1, pendingGap := s.pendingGap + 1, base := None)
  }

  lemma {:induction false} NewItemsBytes(s: Store, r: Record)
    requires s.Valid() && r.Fits()
    ensures Flatten(NewItems(s, r))
         == (if s.pendingGap > 0 then Gap(s.pendingGap).Bytes() else []) + EncodeRecord(BaseFor(s.base, r), r)
    ensures Span(NewItems(s, r)) == s.pendingGap + 1 && Records(NewItems(s, r)) == 1
  {
    var stored := Stored(r, BaseFor(s.base, r));
    Single(stored);
    if s.pendingGap > 0 {
      Single(Gap(s.pendingGap));
      Concatenation([Gap(s.pendingGap)], [stored]);
    } else {
      assert NewItems(s, r) == [stored];
    }
  }

  lemma Single(item: Item)
    ensures Flatten([item]) == item.Bytes()
    ensures Payload([item]) == RecordBytes(item)
    ensures Records([item]) == if item.Stored? then 1 else 0
    ensures Dropped([item]) == if item.Gap? then item.count else 0
  {
    assert [item][..0] == [];
  }

  /** There is room exactly when the free bytes are enough for the record's own and, where
      records were dropped before it, for the marker that says so. */
  lemma HasRoomIff(s: Store, r: Record)
    requires s.Valid() && r.Fits()
    ensures HasRoom(s, r)
       <==> |s.ring.data| - s.ring.used
            >= |EncodeRecord(BaseFor(s.base, r), r)| + (if s.pendingGap > 0 then GAP_MARKER_SIZE else 0)
    ensures |s.ring.data| - s.ring.used >= RECORD_MAX_SIZE + GAP_MARKER_SIZE ==> HasRoom(s, r)
  {
    hide EncodeRecord, Flatten, NewItems, Ring.Content, AllFit;
    NewItemsBytes(s, r);
    if s.pendingGap > 0 {
      MarkerSize(s.pendingGap);
    }
  }

  lemma MarkerSize(count: nat)
    requires 0 < count < 0x1_0000_0000
    ensures |Gap(count).Bytes()| == GAP_MARKER_SIZE
  {
  }

  /** A put keeps the ring intact and every number accounted for. */
  lemma PutValid(s: Store, r: Record)
    requires s.Valid() && r.Fits() && s.nextSequence + 1 < 0x1_0000_0000
    ensures Put(s, r).Valid()
  {
    hide Item.Bytes, EncodeRecord, Flatten, Records, Dropped, Payload, Ring.Write, Ring.Content;
    var items := NewItems(s, r);
    NewItemsBytes(s, r);
    Concatenation(s.items, items);
    if HasRoom(s, r) {
      WriteContent(s.ring, Flatten(items));
    }
  }

  // ----- batches -----

  /** Where the batch cut from item `k` on ends, when it already holds `count` records and
      `length` bytes: at the gap after its records, at the first record that doesn't fit, or
      at 255 records. */
  ghost function CutFrom(items: seq<Item>, k: nat, length: nat, count: nat, capacity: nat): (end: nat)
    requires k <= |items|
    ensures k <= end <= |items|
    decreases |items| - k
  {
    if k == |items| || count >= BATCH_MAX_RECORDS then k
    else if items[k].Gap? then
      if count > 0 then k else CutFrom(items, k + 1, length, count, capacity)
    else if length + |items[k].Bytes()| > capacity then k
    else CutFrom(items, k + 1, length + |items[k].Bytes()|, count + 1, capacity)
  }

  ghost function Cut(items: seq<Item>, capacity: nat): (end: nat)
    ensures end <= |items|
  {
    CutFrom(items, 0, BATCH_HEADER_SIZE, 0, capacity)
  }

  /** What a batch covers. */
  datatype Take = Take(bytes: nat, records: nat, nextSequence: nat)

  ghost function TakeOf(s: Store, end: nat): Take
    requires end <= |s.items|
  {
    Take(|Flatten(s.items[..end])|, Records(s.items[..end]), s.outSequence + Span(s.items[..end]))
  }

  /** The numbers of a batch fit the fields of its header. */
  ghost predicate ValidBatch(s: Store, end: nat) {
    end <= |s.items| && s.outSequence + Dropped(s.items[..end]) < 0x1_0000_0000 && Records(s.items[..end]) < 0x100
  }

  /** The payload of the batch that covers the first `end` items: nothing when it holds no
      record; else the first record's number, how many there are, and their bytes. */
  ghost function BatchOf(s: Store, end: nat): seq<uint8>
    requires ValidBatch(s, end)
  {
    var taken := s.items[..end];
    if Records(taken) == 0 then []
    else Le32(s.outSequence + Dropped(taken)) + [Records(taken)] + Payload(taken)
  }

  /** Remove the first `end` items, once the link took them. */
  ghost function Consume(s: Store, end: nat): Store
    requires s.Valid() && end <= |s.items| && |Flatten(s.items[..end])| <= s.ring.used
  {
    s.(ring := s.ring.Drop(|Flatten(s.items[..end])|), items := s.items[end..],
       outSequence := s.outSequence + Span(s.items[..end]))
  }

  lemma ConsumeValid(s: Store, end: nat)
    requires s.Valid() && end <= |s.items|
    ensures |Flatten(s.items[..end])| <= s.ring.used
    ensures Consume(s, end).Valid() && Consume(s, end).items == s.items[end..]
  {
    hide Flatten, Item.Bytes, Item.Fits, Ring.Content, Ring.Position;
    Split(s.items, end);
    DropContent(s.ring, |Flatten(s.items[..end])|);
  }

  /** The empty buffer whose numbers go on where they were. */
  ghost function Discard(s: Store): Store {
    s.(ring := Ring(s.ring.data, 0, 0), items := [], outSequence := s.nextSequence, pendingGap := 0, base := None)
  }

  lemma DiscardValid(s: Store)
    requires s.Valid()
    ensures Discard(s).Valid()
  {
  }
}
