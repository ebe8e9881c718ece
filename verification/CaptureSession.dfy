/** The buffer, the worker, the link and the host as one state machine, whose steps interleave in
    any order, and what holds in all its runs (src/observer/capture.c, src/service/telemetry.c,
    web/protocol.js). */
module CaptureSession {
  import opened Bytes
  import opened CaptureCodec
  import opened CaptureStore
  import D = CaptureDecoder
  import opened CaptureLog
  import opened CaptureBatches
  import P = CaptureParsing

  /** The worker holds a copy of the bookkeeping, taken under the lock, and the bytes it has
      read from the shared ring since. */
  datatype Worker = Idle | Copying(snapshot: Store, got: seq<uint8>)

  /** `intact` as long as every batch the link took reached the host; `arrived` counts the records
      of those that did. */
  datatype Session = Session(store: Store, log: Log, worker: Worker, host: D.State, received: seq<D.Numbered>, intact: bool,
                             arrived: nat)

  /** Submit a record; take a snapshot; read the next byte of the ring through it; then the
      link takes the batch and the host gets it or not, or the link refuses it and the worker
      keeps it, or gives up and drops everything stored. */
  datatype Action = Submit(record: Record) | Snapshot | ReadByte | Deliver | Lose | Refuse | GiveUp

  ghost function Start(data: seq<uint8>): Session {
    Session(Empty(data), [], Idle, D.State(0, None, 0), [], true, 0)
  }

  /** The worker has read every byte its snapshot says is stored. */
  ghost predicate Copied(s: Session) {
    s.worker.Copying? && s.worker.snapshot.Valid() && |s.worker.got| == s.worker.snapshot.ring.used
  }

  ghost predicate Enabled(s: Session, a: Action) {
    && s.store.Valid()
    && match a
       case Submit(r) => r.Fits() && s.store.nextSequence + 1 < 0x1_0000_0000
       case Snapshot => s.worker.Idle?
       case ReadByte =>
         s.worker.Copying? && s.worker.snapshot.ring.Valid() && |s.worker.got| < s.worker.snapshot.ring.used
         && s.worker.snapshot.ring.Position(|s.worker.got|) < |s.store.ring.data|
       case GiveUp => s.worker.Copying?
       case _ => Copied(s)
  }

  ghost function LiveByte(s: Session): uint8
    requires Enabled(s, ReadByte)
  {
    s.store.ring.data[s.worker.snapshot.ring.Position(|s.worker.got|)]
  }

  /** The batch the worker builds: a header from its bookkeeping, and the bytes it read that
      belong to the batch's records, which follow those of the leading gap. */
  ghost function Built(snapshot: Store, got: seq<uint8>, end: nat): seq<uint8>
    requires end <= |snapshot.items|
  {
    var taken := snapshot.items[..end];
    var body := got[Bound(|Flatten(taken)| - |Payload(taken)|, |got|)..Bound(|Flatten(taken)|, |got|)];
    Le32(Wrap32(snapshot.outSequence + Dropped(taken))) + [Records(taken) % 0x100] + body
  }

  ghost function Bound(n: int, limit: nat): (b: nat)
    ensures b <= limit
  {
    if n < 0 then 0 else if n > limit then limit else n
  }

  /** The buffer after the worker consumes a batch the link took. */
  ghost function Consumed(s: Session, end: nat): Store
    requires s.store.Valid()
  {
    if end <= |s.store.items| && |Flatten(s.store.items[..end])| <= s.store.ring.used then Consume(s.store, end) else s.store
  }

  /** Records still stored are lost with the link. */
  ghost function Abandon(log: Log, out: nat): Log {
    seq(|log|, i requires 0 <= i < |log| => if i >= out then log[i].(kept := false) else log[i])
  }

  /** The link takes the batch; the host gets it or not. A batch with no record isn't sent. */
  ghost function Send(s: Session, capacity: nat, delivered: bool): Session
    requires s.store.Valid() && Copied(s)
  {
    var end := Cut(s.worker.snapshot.items, capacity);
    if Records(s.worker.snapshot.items[..end]) == 0 then s.(worker := Idle)
    else
      var (r, host) := D.ParseBatch(Built(s.worker.snapshot, s.worker.got, end), s.host);
      var sent := s.(store := Consumed(s, end), worker := Idle);
      if delivered then
        sent.(host := host, received := s.received + (if r.Ok? then r.value else []),
              arrived := s.arrived + Records(s.worker.snapshot.items[..end]))
      else sent.(intact := false)
  }

  ghost function Next(s: Session, a: Action, capacity: nat): Session
    requires Enabled(s, a)
  {
    match a
    case Submit(r) => s.(store := Put(s.store, r), log := s.log + [Entry(r, HasRoom(s.store, r))])
    case Snapshot => s.(worker := Copying(s.store, []))
    case ReadByte => s.(worker := s.worker.(got := s.worker.got + [LiveByte(s)]))
    case Deliver => Send(s, capacity, true)
    case Lose => Send(s, capacity, false)
    case Refuse => s.(worker := Idle)
    case GiveUp => s.(store := Discard(s.store), log := Abandon(s.log, s.store.outSequence), worker := Idle)
  }

  // ----- what every step keeps -----

  /** The buffer against the log: every number is of a record sent, stored, or dropped. */
  ghost predicate Recorded(store: Store, log: Log) {
    && store.Valid() && |log| == store.nextSequence
    && AllMirror(store.items, store.outSequence, log)
    && (forall i | |log| - store.pendingGap <= i < |log| :: 0 <= i && !log[i].kept)
    && (store.base.Some? ==> store.base == BaseAt(log, |log|))
  }

  /** While the worker copies, its snapshot is an older state of the ring, whose bytes are
      all still there, and what it has read is a prefix of them. */
  ghost predicate Current(worker: Worker, store: Store) {
    worker.Copying? ==>
      var was := worker.snapshot;
      && was.Valid() && was.ring.head == store.ring.head && |was.ring.data| == |store.ring.data|
      && was.items <= store.items && was.outSequence == store.outSequence
      && worker.got <= Flatten(was.items)
  }

  ghost predicate Inv(s: Session) {
    && Recorded(s.store, s.log) && Current(s.worker, s.store)
    && HostKnows(s.host, s.received, s.log) && s.host.nextSequence <= s.store.outSequence
    && (s.intact ==> HostHasAll(s.host, s.received, s.store.outSequence, s.log))
    && |s.received| + s.host.skipped == s.arrived
  }

  // ----- submit -----

  lemma MirrorAppend(items: seq<Item>, item: Item, from: nat, log: Log)
    requires AllMirror(items, from, log) && Mirrors(item, from + Span(items), log)
    ensures AllMirror(items + [item], from, log)
  {
    hide Mirrors, Records, Dropped;
    var all := items + [item];
    forall k | 0 <= k < |all| ensures Mirrors(all[k], from + Span(all[..k]), log) {
      if k < |items| {
        assert all[..k] == items[..k];
        assert Mirrors(items[k], from + Span(items[..k]), log);
      } else {
        assert all[..k] == items;
      }
    }
  }

  lemma ItemSpan(store: Store, k: nat)
    requires store.Valid() && k < |store.items|
    ensures store.outSequence + Span(store.items[..k]) + (if store.items[k].Gap? then store.items[k].count else 1)
         <= store.nextSequence - store.pendingGap
  {
    hide Flatten, Payload, Item.Bytes, Records, Dropped;
    Extend(store.items, k);
    Split(store.items, k + 1);
  }

  /** Numbers already in the ring stay what they are when the log grows. */
  lemma StillMirror(store: Store, log: Log, log': Log)
    requires Recorded(store, log) && |log| <= |log'| && log'[..|log|] == log
    ensures AllMirror(store.items, store.outSequence, log')
  {
    hide Mirrors, Flatten, Item.Bytes, Records, Dropped, BaseAt;
    forall k | 0 <= k < |store.items| ensures Mirrors(store.items[k], store.outSequence + Span(store.items[..k]), log') {
      ItemSpan(store, k);
      assert Mirrors(store.items[k], store.outSequence + Span(store.items[..k]), log);
      assert log[..|log|] == log'[..|log|];
      MirrorsAgrees(store.items[k], store.outSequence + Span(store.items[..k]), log, log', |log|);
    }
  }

  lemma StoredRecorded(store: Store, log: Log, r: Record)
    requires Recorded(store, log) && r.Fits() && store.nextSequence + 1 < 0x1_0000_0000 && HasRoom(store, r)
    ensures AllMirror(Put(store, r).items, store.outSequence, log + [Entry(r, true)])
  {
    hide Flatten, Item.Bytes, EncodeRecord, BaseAt, Ring.Write, HasRoom, AllMirror, AllFit, Records, Dropped, Ring.Content;
    var log' := log + [Entry(r, true)];
    var stored := Stored(r, BaseFor(store.base, r));
    StillMirror(store, log, log');
    BaseAtAgrees(log, log', |log|);
    if store.pendingGap > 0 {
      var gap := Gap(store.pendingGap);
      Concatenation(store.items, [gap]);
      Single(gap);
      MirrorAppend(store.items, gap, store.outSequence, log');
      MirrorAppend(store.items + [gap], stored, store.outSequence, log');
      assert store.items + [gap] + [stored] == store.items + ([gap] + [stored]);
    } else {
      MirrorAppend(store.items, stored, store.outSequence, log');
      assert NewItems(store, r) == [stored];
    }
  }

  lemma SubmitRecorded(store: Store, log: Log, r: Record)
    requires Recorded(store, log) && r.Fits() && store.nextSequence + 1 < 0x1_0000_0000
    ensures Recorded(Put(store, r), log + [Entry(r, HasRoom(store, r))])
  {
    hide Flatten, Item.Bytes, Ring.Write, HasRoom, NewItems, Store.Valid, AllMirror;
    var log' := log + [Entry(r, HasRoom(store, r))];
    PutValid(store, r);
    PutNumbers(store, r);
    BaseAtAgrees(log, log', |log|);
    if HasRoom(store, r) {
      StoredRecorded(store, log, r);
    } else {
      StillMirror(store, log, log');
    }
  }

  lemma PutNumbers(store: Store, r: Record)
    requires store.Valid()
    ensures Put(store, r).nextSequence == store.nextSequence + 1 && Put(store, r).outSequence == store.outSequence
    ensures store.pendingGap <= store.nextSequence
    ensures store.items <= Put(store, r).items && Put(store, r).ring.head == store.ring.head
    ensures |Put(store, r).ring.data| == |store.ring.data|
    ensures !HasRoom(store, r) ==> Put(store, r).items == store.items && Put(store, r).pendingGap == store.pendingGap + 1
                                   && Put(store, r).base.None?
    ensures HasRoom(store, r) ==> Put(store, r).pendingGap == 0
                                  && Put(store, r).base == if r.FrameRecord? then Some(BaseOf(r.frame)) else BaseFor(store.base, r)
  {
  }

  // ----- the host between batches -----

  /** What the host knows holds in a log that agrees with this one up to what was sent. */
  lemma HostAgrees(host: D.State, received: seq<D.Numbered>, log: Log, log': Log, out: nat)
    requires HostKnows(host, received, log) && host.nextSequence <= out <= |log| && out <= |log'| && log[..out] == log'[..out]
    ensures HostKnows(host, received, log')
    ensures HostHasAll(host, received, out, log) ==> HostHasAll(host, received, out, log')
  {
    forall i | 0 <= i < out ensures log[i] == log'[i] {
      assert log[i] == log[..out][i] == log'[..out][i];
    }
    assert log[..host.nextSequence] == log'[..host.nextSequence];
    BaseAtAgrees(log, log', host.nextSequence);
    KeptAgrees(log, log', 0, out);
  }

  lemma SubmitKeeps(s: Session, r: Record)
    requires Inv(s) && Enabled(s, Submit(r))
    ensures Inv(Next(s, Submit(r), 0))
  {
    hide Recorded, HostKnows, HostHasAll, Store.Valid, Flatten, Put, HasRoom;
    var log' := s.log + [Entry(r, HasRoom(s.store, r))];
    RecordedNumbers(s.store, s.log);
    SubmitRecorded(s.store, s.log, r);
    PutNumbers(s.store, r);
    assert s.log[..s.store.outSequence] == log'[..s.store.outSequence];
    HostAgrees(s.host, s.received, s.log, log', s.store.outSequence);
  }

  lemma RecordedNumbers(store: Store, log: Log)
    requires Recorded(store, log)
    ensures store.Valid() && store.outSequence + store.pendingGap <= |log| == store.nextSequence < 0x1_0000_0000
  {
  }

  // ----- reading the ring without a lock -----

  /** The bytes a snapshot says are stored are the first of those stored now. */
  lemma SnapshotBytes(worker: Worker, store: Store)
    requires worker.Copying? && Current(worker, store) && store.Valid()
    ensures Flatten(worker.snapshot.items) <= Flatten(store.items)
    ensures |Flatten(worker.snapshot.items)| == worker.snapshot.ring.used <= store.ring.used
  {
    hide Item.Bytes, Flatten, AllFit, Records, Dropped;
    var was := worker.snapshot;
    Split(store.items, |was.items|);
    assert store.items[..|was.items|] == was.items;
  }

  /** However many records were put since the snapshot was taken, the next byte the worker
      reads is the one that stood there then. */
  lemma LiveByteIsSnapshot(s: Session)
    requires Inv(s) && Enabled(s, ReadByte)
    ensures LiveByte(s) == Flatten(s.worker.snapshot.items)[|s.worker.got|]
  {
    hide Item.Bytes, Flatten, AllFit, AllMirror, BaseAt, HostKnows, HostHasAll, Ring.Content, Records, Dropped;
    SnapshotBytes(s.worker, s.store);
    var at := |s.worker.got|;
    assert s.store.ring.Content()[at] == Flatten(s.worker.snapshot.items)[at];
    ContentAt(s.store.ring, at);
  }

  lemma ReadByteKeeps(s: Session)
    requires Inv(s) && Enabled(s, ReadByte)
    ensures Inv(Next(s, ReadByte, 0))
  {
    hide Recorded, HostKnows, HostHasAll, Flatten;
    LiveByteIsSnapshot(s);
    assert |s.worker.got| < |Flatten(s.worker.snapshot.items)|;
  }

  lemma SnapshotKeeps(s: Session)
    requires Inv(s) && Enabled(s, Snapshot)
    ensures Inv(Next(s, Snapshot, 0))
  {
  }

  // ----- giving up -----

  lemma GiveUpKeeps(s: Session)
    requires Inv(s) && Enabled(s, GiveUp)
    ensures Inv(Next(s, GiveUp, 0))
  {
    hide Recorded, HostKnows, HostHasAll, Store.Valid, Flatten;
    var out := s.store.outSequence;
    var log' := Abandon(s.log, out);
    RecordedNumbers(s.store, s.log);
    DiscardRecorded(s.store, s.log);
    assert s.log[..out] == log'[..out];
    HostAgrees(s.host, s.received, s.log, log', out);
    if s.intact {
      NothingMore(s.host, s.received, out, log');
    }
  }

  lemma DiscardRecorded(store: Store, log: Log)
    requires Recorded(store, log)
    ensures Recorded(Discard(store), Abandon(log, store.outSequence))
  {
    hide BaseAt, Mirrors, Flatten;
    DiscardValid(store);
  }

  /** The host misses nothing of what was given up. */
  lemma NothingMore(host: D.State, received: seq<D.Numbered>, out: nat, log: Log)
    requires out <= |log| && HostHasAll(host, received, out, log) && forall i | out <= i < |log| :: !log[i].kept
    ensures HostHasAll(host, received, |log|, log)
  {
    hide Kept, BaseAt;
    NoneKept(log, out, |log|);
    KeptSplit(log, 0, out, |log|);
  }

  // ----- sending a batch -----

  lemma {:induction false} ShapeBytes(items: seq<Item>, lead: nat, j: nat, end: nat)
    requires Shape(items, lead, end) && lead <= j <= end
    ensures Flatten(items[..j]) == Flatten(items[..lead]) + Payload(items[..j])
    decreases j
  {
    hide Item.Bytes, Flatten, Payload;
    if lead < j {
      ShapeBytes(items, lead, j - 1, end);
      Extend(items, j - 1);
      AppendAssociates(Flatten(items[..lead]), Payload(items[..j - 1]), items[j - 1].Bytes());
    } else {
      LeadTotals(items, lead);
    }
  }

  /** The batch built from the bytes read while puts went on is the one the buffer held. */
  lemma BuiltIsBatch(s: Session, lead: nat, end: nat)
    requires Inv(s) && Copied(s) && Shape(s.worker.snapshot.items, lead, end)
    requires ValidBatch(s.store, end) && Records(s.store.items[..end]) > 0
    ensures end <= |s.store.items| && s.store.items[..end] == s.worker.snapshot.items[..end]
    ensures Built(s.worker.snapshot, s.worker.got, end) == BatchOf(s.store, end)
  {
    hide Item.Bytes, Flatten, Payload, Records, Dropped, AllFit, Recorded, HostKnows, HostHasAll, Ring.Content, Mirrors, Le32;
    var was := s.worker.snapshot;
    var taken := was.items[..end];
    assert s.store.items[..end] == taken;
    assert s.worker.got == Flatten(was.items);
    Split(was.items, end);
    ShapeBytes(was.items, lead, end, end);
    LeadTotals(was.items, lead);
    ShapeTotals(was.items, lead, end, end);
    Middle(s.worker.got, Flatten(was.items[..lead]), Payload(taken), Flatten(was.items[end..]));
  }

  lemma Middle(got: seq<uint8>, a: seq<uint8>, b: seq<uint8>, c: seq<uint8>)
    requires got == a + b + c
    ensures |a + b| <= |got| && got[|a + b| - |b|..|a + b|] == b
  {
  }

  lemma SpanFrom(items: seq<Item>, end: nat, k: nat)
    requires end + k <= |items|
    ensures Span(items[..end + k]) == Span(items[..end]) + Span(items[end..][..k])
  {
    hide Item.Bytes, Flatten, Payload, Records, Dropped;
    var upTo := items[..end + k];
    Split(upTo, end);
    assert upTo[..end] == items[..end] && upTo[end..] == items[end..][..k];
  }

  lemma ConsumeMirrors(items: seq<Item>, from: nat, log: Log, end: nat)
    requires AllMirror(items, from, log) && end <= |items|
    ensures AllMirror(items[end..], from + Span(items[..end]), log)
  {
    hide Item.Bytes, Flatten, Records, Dropped, Mirrors;
    var rest := items[end..];
    forall k | 0 <= k < |rest| ensures Mirrors(rest[k], from + Span(items[..end]) + Span(rest[..k]), log) {
      SpanFrom(items, end, k);
      assert Mirrors(items[end + k], from + Span(items[..end + k]), log);
    }
  }

  lemma ConsumeRecorded(store: Store, log: Log, end: nat)
    requires Recorded(store, log) && end <= |store.items|
    ensures |Flatten(store.items[..end])| <= store.ring.used
    ensures Recorded(Consume(store, end), log)
  {
    hide AllMirror, Store.Valid, Item.Bytes, Flatten, Ring.Drop;
    ConsumeValid(store, end);
    ConsumeMirrors(store.items, store.outSequence, log, end);
  }

  lemma SendKeeps(s: Session, capacity: nat, delivered: bool)
    requires Inv(s) && Copied(s)
    ensures Inv(Send(s, capacity, delivered))
  {
    hide Item.Bytes, Flatten, Payload, Records, Dropped, Built, AllFit, AllMirror, HostKnows, HostHasAll, D.ParseBatch, BatchOf,
      CutFrom, Ring.Content, Ring.Drop, BaseAt;
    var items := s.worker.snapshot.items;
    var end := Cut(items, capacity);
    var lead := CutShape(items, 0, BATCH_HEADER_SIZE, capacity);
    ShapeTotals(items, lead, end, end);
    if lead < end {
      assert s.store.items[..end] == items[..end];
      assert Shape(s.store.items, lead, end);
      BatchRoundTrip(s.store, lead, end, s.host, s.received, s.log);
      BuiltIsBatch(s, lead, end);
      ArrivedCounts(s, end);
      ConsumeRecorded(s.store, s.log, end);
      assert Consumed(s, end) == Consume(s.store, end);
      HostBehind(s.host, s.received, s.log, s.store.outSequence);
    }
  }

  /** The records of a batch that arrives are received or skipped. */
  lemma ArrivedCounts(s: Session, end: nat)
    requires ValidBatch(s.store, end) && Records(s.store.items[..end]) > 0
    requires D.ParseBatch(BatchOf(s.store, end), s.host).0.Ok?
    ensures var (r, host) := D.ParseBatch(BatchOf(s.store, end), s.host);
            |r.value| + host.skipped == s.host.skipped + Records(s.store.items[..end])
  {
    hide D.ParseBatch, Records, Dropped, Payload, P.NumberedFrom, GetLe32;
    P.EachOnce(BatchOf(s.store, end), s.host);
  }

  lemma HostBehind(host: D.State, received: seq<D.Numbered>, log: Log, out: nat)
    requires HostKnows(host, received, log) && host.nextSequence <= out
    ensures host.nextSequence <= |log|
  {
  }

  // ----- every run -----

  /** `s'` is reached from `s` by these actions. */
  ghost predicate Runs(s: Session, actions: seq<Action>, s': Session, capacity: nat)
    decreases |actions|
  {
    if actions == [] then s == s'
    else Enabled(s, actions[0]) && Runs(Next(s, actions[0], capacity), actions[1..], s', capacity)
  }

  lemma StepKeeps(s: Session, a: Action, capacity: nat)
    requires Inv(s) && Enabled(s, a)
    ensures Inv(Next(s, a, capacity))
  {
    hide Inv, Send, Put, Abandon, Discard;
    match a
    case Submit(r) => SubmitKeeps(s, r);
    case Snapshot => SnapshotKeeps(s);
    case ReadByte => ReadByteKeeps(s);
    case Deliver => SendKeeps(s, capacity, true);
    case Lose => SendKeeps(s, capacity, false);
    case Refuse => RefuseKeeps(s);
    case GiveUp => GiveUpKeeps(s);
  }

  lemma RefuseKeeps(s: Session)
    requires Inv(s)
    ensures Inv(s.(worker := Idle))
  {
  }

  lemma {:induction false} RunKeeps(s: Session, actions: seq<Action>, s': Session, capacity: nat)
    requires Inv(s) && Runs(s, actions, s', capacity)
    ensures Inv(s')
    decreases |actions|
  {
    hide Inv, Next;
    if actions != [] {
      StepKeeps(s, actions[0], capacity);
      RunKeeps(Next(s, actions[0], capacity), actions[1..], s', capacity);
    }
  }

  lemma StartInv(data: seq<uint8>)
    requires data != []
    ensures Inv(Start(data))
  {
  }

  // ----- what a recording guarantees -----

  /** Round trip. Whatever the interleaving of submits with the worker's unlocked reads, sends
      and refusals, over any ring: once everything is sent and every batch taken reached the
      host, the host has exactly the records the ring kept, field for field, each under the
      number its submit was given, and never left out a delta. */
  lemma RoundTrip(data: seq<uint8>, actions: seq<Action>, s: Session, capacity: nat)
    requires data != [] && Runs(Start(data), actions, s, capacity) && s.intact
    ensures s.store.outSequence <= |s.log| && s.received == Kept(s.log, 0, s.store.outSequence)
    ensures s.store.items == [] ==> s.received == Kept(s.log, 0, |s.log|)
    ensures s.host.skipped == 0
  {
    StartInv(data);
    RunKeeps(Start(data), actions, s, capacity);
    if s.store.items == [] {
      NoneKept(s.log, s.store.outSequence, |s.log|);
      KeptSplit(s.log, 0, s.store.outSequence, |s.log|);
    }
  }

  /** Loss safety. Whichever batches never reach the host, every record it has is the one
      recorded under that number, in order and none twice. */
  lemma LossSafety(data: seq<uint8>, actions: seq<Action>, s: Session, capacity: nat)
    requires data != [] && Runs(Start(data), actions, s, capacity)
    ensures forall i | 0 <= i < |s.received| ::
              s.received[i].sequence < |s.log| && s.log[s.received[i].sequence] == Entry(s.received[i].record, true)
    ensures forall i, j | 0 <= i < j < |s.received| :: s.received[i].sequence < s.received[j].sequence
  {
    StartInv(data);
    RunKeeps(Start(data), actions, s, capacity);
  }

  /** Nothing vanishes on the host. Whatever was lost on the way, each record of a batch that
      arrived was received, or counted as skipped because the frame it follows was not. */
  lemma ReceivedOrSkipped(data: seq<uint8>, actions: seq<Action>, s: Session, capacity: nat)
    requires data != [] && Runs(Start(data), actions, s, capacity)
    ensures |s.received| + s.host.skipped == s.arrived
  {
    StartInv(data);
    RunKeeps(Start(data), actions, s, capacity);
  }

  /** Accounting. Every number handed out is of a record sent, stored, in a stored gap, or
      dropped since; the ring's bytes are exactly those of what it stores. */
  lemma Accounting(data: seq<uint8>, actions: seq<Action>, s: Session, capacity: nat)
    requires data != [] && Runs(Start(data), actions, s, capacity)
    ensures s.store.outSequence + Records(s.store.items) + Dropped(s.store.items) + s.store.pendingGap
         == s.store.nextSequence == |s.log|
    ensures s.store.ring.Valid() && s.store.ring.Content() == Flatten(s.store.items)
    ensures s.store.ring.used == |Flatten(s.store.items)| <= |s.store.ring.data|
  {
    StartInv(data);
    RunKeeps(Start(data), actions, s, capacity);
  }

  lemma {:induction false} RingKept(s: Session, actions: seq<Action>, s': Session, capacity: nat)
    requires Inv(s) && Runs(s, actions, s', capacity)
    ensures |s'.store.ring.data| == |s.store.ring.data|
    decreases |actions|
  {
    hide Inv, Put, Send;
    if actions != [] {
      var a, next := actions[0], Next(s, actions[0], capacity);
      StepKeeps(s, a, capacity);
      StepRing(s, a, capacity);
      RingKept(next, actions[1..], s', capacity);
    }
  }

  lemma StepRing(s: Session, a: Action, capacity: nat)
    requires Enabled(s, a)
    ensures |Next(s, a, capacity).store.ring.data| == |s.store.ring.data|
  {
    hide Store.Valid, Built, Cut;
    if a.Submit? {
      PutNumbers(s.store, a.record);
    }
  }

  /** Recording resumes. In every run, a record is kept exactly when the ring's free bytes are
      enough for it and for the marker of records dropped before it. So one that meets an empty
      ring is kept, whatever was dropped before, by any ring that can hold a marker and the
      largest record. */
  lemma Resumes(data: seq<uint8>, actions: seq<Action>, s: Session, r: Record, capacity: nat)
    requires data != [] && Runs(Start(data), actions, s, capacity) && Enabled(s, Submit(r))
    ensures Next(s, Submit(r), capacity).log
         == s.log + [Entry(r, |data| - |Flatten(s.store.items)| >=
                              |EncodeRecord(BaseFor(s.store.base, r), r)| +
                              (if s.store.pendingGap > 0 then GAP_MARKER_SIZE else 0))]
    ensures s.store.items == [] && |data| >= GAP_MARKER_SIZE + RECORD_MAX_SIZE
        ==> Next(s, Submit(r), capacity).log == s.log + [Entry(r, true)]
  {
    hide Runs, EncodeRecord, HasRoom, Put, Ring.Content;
    StartInv(data);
    RunKeeps(Start(data), actions, s, capacity);
    RingKept(Start(data), actions, s, capacity);
    HasRoomIff(s.store, r);
  }

  ghost predicate NeverGaveUp(actions: seq<Action>) {
    forall i | 0 <= i < |actions| :: !actions[i].GiveUp?
  }

  lemma SubmitBase(store: Store, log: Log, r: Record)
    requires Recorded(store, log) && r.Fits() && store.nextSequence + 1 < 0x1_0000_0000
    requires store.base == BaseAt(log, |log|)
    ensures Put(store, r).base == BaseAt(log + [Entry(r, HasRoom(store, r))], |log| + 1)
  {
    hide HasRoom, AllMirror, Store.Valid, NewItems, Flatten;
    PutNumbers(store, r);
    BaseAtAgrees(log, log + [Entry(r, HasRoom(store, r))], |log|);
  }

  lemma StepBase(s: Session, a: Action, capacity: nat)
    requires Inv(s) && Enabled(s, a) && !a.GiveUp? && s.store.base == BaseAt(s.log, |s.log|)
    ensures Next(s, a, capacity).store.base == BaseAt(Next(s, a, capacity).log, |Next(s, a, capacity).log|)
  {
    hide Store.Valid, Built, Cut, BaseAt, Put, HasRoom, Current, HostKnows, HostHasAll;
    if a.Submit? {
      SubmitBase(s.store, s.log, a.record);
    }
  }

  lemma {:induction false} RunBase(s: Session, actions: seq<Action>, s': Session, capacity: nat)
    requires Inv(s) && Runs(s, actions, s', capacity) && NeverGaveUp(actions)
    requires s.store.base == BaseAt(s.log, |s.log|)
    ensures s'.store.base == BaseAt(s'.log, |s'.log|)
    decreases |actions|
  {
    hide Inv, Put, Send, BaseAt;
    if actions != [] {
      StepKeeps(s, actions[0], capacity);
      StepBase(s, actions[0], capacity);
      RunBase(Next(s, actions[0], capacity), actions[1..], s', capacity);
    }
  }

  /** In every run in which the worker doesn't give up, a frame is made a delta from the newest
      frame before it, unless a record was dropped or the pipeline entered since. It then takes
      no more bytes than that delta with its span given in full. */
  lemma DeltaFromNewest(data: seq<uint8>, actions: seq<Action>, s: Session, f: Frame, capacity: nat)
    requires data != [] && Runs(Start(data), actions, s, capacity) && NeverGaveUp(actions) && f.Fits()
    ensures s.store.base == BaseAt(s.log, |s.log|)
    ensures
      var newest := BaseAt(s.log, |s.log|);
      newest.Some? && FitsInt32(f.Us() - newest.value.us)
      ==> |EncodeRecord(s.store.base, FrameRecord(f))|
            <= 1 + |MotionBytes(f.Us() - newest.value.us, f.x, f.y)|
               + (if f.flags != newest.value.flags then 1 else 0) + |Varint(f.spanUs)|
  {
    hide EncodeRecord, Runs, Inv, BaseAt, MotionBytes, Varint;
    StartInv(data);
    StartBase(data);
    RunBase(Start(data), actions, s, capacity);
    ShortestForm(s.store.base, f);
  }

  lemma StartBase(data: seq<uint8>)
    ensures Start(data).store.base == BaseAt(Start(data).log, |Start(data).log|)
  {
  }

  /** Unlocked reads. At any point of any run, the worker has read a prefix of what the ring
      held when it took its snapshot, and all of it is still stored. */
  lemma UnlockedRead(data: seq<uint8>, actions: seq<Action>, s: Session, capacity: nat)
    requires data != [] && Runs(Start(data), actions, s, capacity) && s.worker.Copying?
    ensures s.worker.got <= Flatten(s.worker.snapshot.items) <= Flatten(s.store.items)
  {
    hide Runs, Flatten, AllMirror, HostKnows, HostHasAll, Store.Valid;
    StartInv(data);
    RunKeeps(Start(data), actions, s, capacity);
    SnapshotBytes(s.worker, s.store);
  }

  /** Draining ends: a batch that can hold the largest record takes one if any is stored. */
  lemma DrainProgress(store: Store, capacity: nat)
    requires store.Valid() && store.items != [] && capacity >= BATCH_HEADER_SIZE + RECORD_MAX_SIZE
    ensures Records(store.items[..Cut(store.items, capacity)]) > 0
  {
    hide Records, Flatten, Item.Bytes;
    var lead := CutShape(store.items, 0, BATCH_HEADER_SIZE, capacity);
    ShapeTotals(store.items, lead, Cut(store.items, capacity), Cut(store.items, capacity));
  }
}
