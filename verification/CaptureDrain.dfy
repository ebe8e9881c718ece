/** One round of the worker's drain on the buffer objects (src/service/telemetry.c): a snapshot
    that shares the live buffer's bytes, puts behind its back, a peek of it, and then the live
    buffer consumed or discarded. */
module CaptureDrain {
  import opened Bytes
  import opened CaptureCodec
  import opened CaptureStore
  import opened CaptureBuffer

  const BATCH_MAX_PAYLOAD: nat := 119

  ghost predicate CanPut(s: Store, rs: seq<Record>) {
    s.Valid() && s.nextSequence + |rs| < 0x1_0000_0000 && forall i | 0 <= i < |rs| :: rs[i].Fits()
  }

  /** The buffer after a run of puts: later items are added behind those already stored. */
  ghost function PutEach(s: Store, rs: seq<Record>): (t: Store)
    requires CanPut(s, rs)
    ensures t.Valid() && Grown(s, t) && t.nextSequence == s.nextSequence + |rs|
    decreases |rs|
  {
    if rs == [] then s
    else
      var before := PutEach(s, rs[..|rs| - 1]);
      PutGrows(before, rs[|rs| - 1]);
      Put(before, rs[|rs| - 1])
  }

  ghost predicate Grown(s: Store, t: Store) {
    s.items <= t.items && t.ring.head == s.ring.head && |t.ring.data| == |s.ring.data| && t.outSequence == s.outSequence
  }

  lemma PutGrows(s: Store, r: Record)
    requires s.Valid() && r.Fits() && s.nextSequence + 1 < 0x1_0000_0000
    ensures Put(s, r).Valid() && Grown(s, Put(s, r)) && Put(s, r).nextSequence == s.nextSequence + 1
  {
    hide Flatten, NewItems, Ring.Write, HasRoom, Store.Valid;
    PutValid(s, r);
    PutParts(s, r);
  }

  lemma PutParts(s: Store, r: Record)
    requires s.Valid()
    ensures Grown(s, Put(s, r)) && Put(s, r).nextSequence == s.nextSequence + 1
  {
    hide Flatten, Ring.Write;
  }

  /** The records a snapshot covers read the same in every later state of the ring. */
  lemma SnapshotStands(snapshot: Store, live: Store)
    requires snapshot.Valid() && live.Valid() && Grown(snapshot, live)
    ensures Ring(live.ring.data, snapshot.ring.head, snapshot.ring.used).Valid()
    ensures Ring(live.ring.data, snapshot.ring.head, snapshot.ring.used).Content() == snapshot.ring.Content()
    ensures snapshot.ring.used <= live.ring.used
  {
    hide Flatten, Item.Bytes, Records, Dropped, AllFit;
    Split(live.items, |snapshot.items|);
    assert live.items[..|snapshot.items|] == snapshot.items;
    var view := Ring(live.ring.data, snapshot.ring.head, snapshot.ring.used);
    assert view.Content() == live.ring.Content()[..snapshot.ring.used];
  }

  /** One more put. */
  lemma PutNext(s: Store, rs: seq<Record>, i: nat)
    requires i < |rs| && CanPut(s, rs)
    ensures CanPut(s, rs[..i]) && CanPut(s, rs[..i + 1])
    ensures PutEach(s, rs[..i + 1]) == Put(PutEach(s, rs[..i]), rs[i])
  {
    hide Put, Store.Valid, Grown;
    assert rs[..i + 1][..i] == rs[..i];
  }

  method PutAll(live: Buffer, rs: seq<Record>)
    requires live.Valid() && CanPut(live.Value(), rs)
    modifies live, live.data
    ensures live.Valid() && live.data == old(live.data)
    ensures live.Value() == PutEach(old(live.Value()), rs)
  {
    hide Put, PutEach, Flatten, Records, Dropped, Grown;
    ghost var s := live.Value();
    NonePut(s, rs);
    for i := 0 to |rs|
      invariant live.Valid() && live.data == old(live.data)
      invariant CanPut(s, rs[..i]) && live.Value() == PutEach(s, rs[..i])
    {
      hide Put, PutEach, Flatten, Records, Dropped, Grown, Store.Valid;
      PutNext(s, rs, i);
      var _ := live.Put(rs[i]);
    }
    assert rs[..|rs|] == rs;
  }

  lemma NonePut(s: Store, rs: seq<Record>)
    requires CanPut(s, rs)
    ensures CanPut(s, rs[..0]) && PutEach(s, rs[..0]) == s
  {
    hide Store.Valid;
  }

  /** What a round leaves: puts that landed while the batch was built and sent, then what the
      link's answer does to the buffer. */
  ghost predicate Drained(was: Store, now: Store, during: seq<Record>, after: seq<Record>, sent: Option<seq<uint8>>,
                          accepted: bool, wait: bool)
    requires CanPut(was, during + after)
  {
    var end := Cut(was.items, BATCH_MAX_PAYLOAD);
    CanPutSplit(was, during, after);
    var built := PutEach(was, during);
    var grown := PutEach(built, after);
    && ValidBatch(was, end)
    && if Records(was.items[..end]) == 0 then sent.None? && now == built
       else if accepted then
         && sent == Some(BatchOf(was, end))
         && end <= |grown.items| && |Flatten(grown.items[..end])| <= grown.ring.used && now == Consume(grown, end)
       else sent.None? && now == if wait then Discard(grown) else grown
  }

  /** How many stored records a link that fails loses: all of them, when it was to send the rest. */
  ghost function Lost(was: Store, during: seq<Record>, after: seq<Record>, accepted: bool, wait: bool): nat
    requires CanPut(was, during + after)
  {
    CanPutSplit(was, during, after);
    if Records(was.items[..Cut(was.items, BATCH_MAX_PAYLOAD)]) > 0 && !accepted && wait
    then Records(PutEach(PutEach(was, during), after).items) else 0
  }

  lemma CanPutSplit(s: Store, during: seq<Record>, after: seq<Record>)
    requires CanPut(s, during + after)
    ensures CanPut(s, during) && CanPut(PutEach(s, during), after)
  {
    hide Store.Valid;
    forall i | 0 <= i < |during| ensures during[i].Fits() {
      assert during[i] == (during + after)[i];
    }
    forall i | 0 <= i < |after| ensures after[i].Fits() {
      assert after[i] == (during + after)[|during| + i];
    }
  }

  /** What was taken from a snapshot is what stands at the front of the buffer still. */
  lemma TakeStands(was: Store, grown: Store, end: nat)
    requires was.Valid() && grown.Valid() && Grown(was, grown) && end <= |was.items|
    ensures grown.items[..end] == was.items[..end] && TakeOf(grown, end) == TakeOf(was, end)
    ensures |Flatten(grown.items[..end])| <= grown.ring.used
  {
    hide Flatten, Records, Dropped;
    assert grown.items[..end] == was.items[..end];
    ConsumeValid(grown, end);
  }

  method DrainRound(live: Buffer, during: seq<Record>, after: seq<Record>, accepted: bool, wait: bool)
    returns (sent: Option<seq<uint8>>, lost: nat)
    requires live.Valid() && CanPut(live.Value(), during + after)
    modifies live, live.data
    ensures live.Valid() && live.data == old(live.data)
    ensures Drained(old(live.Value()), live.Value(), during, after, sent, accepted, wait)
    ensures lost == Lost(old(live.Value()), during, after, accepted, wait)
  {
    hide Store.Valid, Ring.Content, Flatten, Records, Dropped, Item.Bytes, PutEach, Payload, Grown;
    ghost var was := live.Value();
    CanPutSplit(was, during, after);
    sent, lost := None, 0;
    var snapshot := new Buffer.Copy(live);
    PutAll(live, during);
    assert snapshot.Valid() by {
      SnapshotStands(was, live.Value());
      SnapshotValid(was, snapshot.Value());
    }
    var payload := new uint8[BATCH_MAX_PAYLOAD];
    var length, take := snapshot.Peek(payload, BATCH_MAX_PAYLOAD);
    ghost var end := Cut(was.items, BATCH_MAX_PAYLOAD);
    if length == 0 {
      return;
    }
    PutAll(live, after);
    if !accepted {
      if wait {
        lost := live.Discard();
      }
      return;
    }
    sent := Some(payload[..length]);
    GrownTwice(was, PutEach(was, during), live.Value());
    TakeStands(was, live.Value(), end);
    live.Consume(take, end);
  }

  lemma GrownTwice(a: Store, b: Store, c: Store)
    requires Grown(a, b) && Grown(b, c)
    ensures Grown(a, c)
  {
  }

  lemma SnapshotValid(was: Store, view: Store)
    requires was.Valid() && view.ring.Valid() && view.ring.Content() == was.ring.Content()
    requires view == was.(ring := view.ring)
    ensures view.Valid()
  {
  }
}
