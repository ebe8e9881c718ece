/** Frames written over one Bluetooth link: queued behind each other, cut into chunks, each
    chunk tried again a few times (web/transport.js). The steps interleave with writes and
    closes in any order, and the peer takes or rejects each attempt as it likes. */
module BluetoothWrites {
  import opened Bytes
  import F = Framing

  const BLUETOOTH_CHUNK: nat := 20

  /** How many times a rejected chunk is tried again. */
  const RETRIES: nat := 3

  type Chunks = seq<seq<uint8>>

  function Join(chunks: Chunks): (bytes: seq<uint8>)
    decreases |chunks|
  {
    if chunks == [] then [] else Join(chunks[..|chunks| - 1]) + chunks[|chunks| - 1]
  }

  /** `chunks` cut a frame: nonempty pieces that give it back. */
  ghost predicate Cut(chunks: Chunks, bytes: seq<uint8>) {
    Join(chunks) == bytes && forall c <- chunks :: 0 < |c| <= BLUETOOTH_CHUNK
  }

  /** The chunks a write queues. */
  method CutFrame(bytes: seq<uint8>) returns (chunks: Chunks)
    ensures Cut(chunks, bytes)
  {
    chunks := [];
    var offset := 0;
    while offset < |bytes|
      invariant offset <= |bytes| && Cut(chunks, bytes[..offset])
    {
      var end := if offset + BLUETOOTH_CHUNK < |bytes| then offset + BLUETOOTH_CHUNK else |bytes|;
      OneMore(chunks, bytes, offset, end);
      chunks := chunks + [bytes[offset..end]];
      offset := end;
    }
    assert bytes[..|bytes|] == bytes;
  }

  lemma OneMore(chunks: Chunks, bytes: seq<uint8>, offset: nat, end: nat)
    requires offset < end <= |bytes| && end - offset <= BLUETOOTH_CHUNK && Cut(chunks, bytes[..offset])
    ensures Cut(chunks + [bytes[offset..end]], bytes[..end])
  {
    var chunk := bytes[offset..end];
    assert (chunks + [chunk])[..|chunks|] == chunks;
    assert bytes[..offset] + chunk == bytes[..end];
  }

  // ----- one link -----

  /** A frame being sent: `index` chunks were taken, and the next is in flight or waits for its
      next attempt. */
  datatype Sending = Sending(chunks: Chunks, index: nat, attempt: nat, inFlight: bool)

  /** A write that ended, and whether it succeeded. */
  datatype Ended = Ended(chunks: Chunks, ok: bool)

  /** `request` is there until the page closes the link. The bytes taken, the writes that ended,
      and the frame the link stopped in with how much of it was taken are for the specification. */
  datatype Link = Link(queue: seq<Chunks>, sending: Option<Sending>, open: bool, broken: bool,
                       delivered: seq<uint8>, ended: seq<Ended>, stalled: Option<(Chunks, nat)>)

  /** A write queues a frame's chunks; the queue's turn comes; the peer takes or rejects the
      chunk in flight; the retry delay passes; the page closes the link. */
  datatype Action = Write(chunks: Chunks) | Turn | Take | Reject | Wake | Close

  ghost predicate Pieces(chunks: Chunks) {
    forall c <- chunks :: c != []
  }

  ghost predicate InFlight(l: Link) {
    l.sending.Some? && l.sending.value.inFlight && l.sending.value.index < |l.sending.value.chunks|
  }

  ghost predicate Enabled(l: Link, a: Action) {
    match a
    case Write(chunks) => Pieces(chunks)
    case Turn => l.sending.None? && l.queue != []
    case Take => InFlight(l)
    case Reject => InFlight(l)
    case Wake => l.sending.Some? && !l.sending.value.inFlight
    case Close => true
  }

  /** The loop over a frame's chunks, at its top: the frame is out, or the link has broken or
      closed, or the next chunk goes out. */
  ghost function NextChunk(l: Link, chunks: Chunks, index: nat): Link {
    if index >= |chunks| then l.(sending := None, ended := l.ended + [Ended(chunks, true)])
    else if l.broken || !l.open then Stop(l, chunks, index, l.broken)
    else l.(sending := Some(Sending(chunks, index, 0, true)))
  }

  /** A frame fails after `index` of its chunks. */
  ghost function Stop(l: Link, chunks: Chunks, index: nat, broken: bool): Link {
    l.(sending := None, broken := broken, ended := l.ended + [Ended(chunks, false)],
       stalled := if index > 0 then Some((chunks, index)) else l.stalled)
  }

  /** An attempt failed: another one after a delay, unless there are none left or the link
      closed; a link that stops within a frame is broken. */
  ghost function Failed(l: Link, s: Sending): Link {
    if s.attempt >= RETRIES || !l.open then Stop(l, s.chunks, s.index, l.broken || s.index > 0)
    else l.(sending := Some(s.(inFlight := false)))
  }

  ghost function Next(l: Link, a: Action): Link
    requires Enabled(l, a)
  {
    match a
    case Write(chunks) => l.(queue := l.queue + [chunks])
    case Turn => NextChunk(l.(queue := l.queue[1..]), l.queue[0], 0)
    case Take =>
      var s := l.sending.value;
      NextChunk(l.(delivered := l.delivered + s.chunks[s.index]), s.chunks, s.index + 1)
    case Reject => Failed(l, l.sending.value)
    case Wake =>
      var s := l.sending.value.(attempt := l.sending.value.attempt + 1);
      if l.open then l.(sending := Some(s.(inFlight := true))) else Failed(l, s)
    case Close => l.(open := false)
  }

  ghost function Opened(): Link {
    Link([], None, true, false, [], [], None)
  }

  ghost predicate Runs(l: Link, actions: seq<Action>, l': Link)
    decreases |actions|
  {
    if actions == [] then l' == l
    else Enabled(l, actions[0]) && Runs(Next(l, actions[0]), actions[1..], l')
  }

  // ----- what every step keeps -----

  /** The frames written whole, one after the other. */
  ghost function Whole(ended: seq<Ended>): seq<uint8>
    decreases |ended|
  {
    if ended == [] then []
    else
      var last := ended[|ended| - 1];
      Whole(ended[..|ended| - 1]) + if last.ok then Join(last.chunks) else []
  }

  /** The part of a frame that is out: of the one being sent, or of the one the link stopped in. */
  ghost function Part(l: Link): Option<(Chunks, nat)> {
    match l.sending
    case Some(s) => Some((s.chunks, s.index))
    case None => l.stalled
  }

  ghost function PartBytes(l: Link): seq<uint8> {
    match Part(l)
    case Some((chunks, index)) => if index <= |chunks| then Join(chunks[..index]) else []
    case None => []
  }

  /** The link carried whole frames and at most a part of one more, and once it stopped within
      a frame it is closed or broken. */
  ghost predicate Inv(l: Link) {
    && l.delivered == Whole(l.ended) + PartBytes(l)
    && (forall chunks <- l.queue :: Pieces(chunks))
    && (Part(l).Some? ==> Part(l).value.1 < |Part(l).value.0| && Pieces(Part(l).value.0))
    && (l.stalled.Some? ==> l.stalled.value.1 > 0 && l.sending.None? && (l.broken || !l.open))
    && (l.stalled.Some? ==> Ended(l.stalled.value.0, false) in l.ended)
    && (l.broken ==> l.sending.None?)
  }

  lemma EndedWhole(ended: seq<Ended>, e: Ended)
    ensures Whole(ended + [e]) == Whole(ended) + if e.ok then Join(e.chunks) else []
  {
    assert (ended + [e])[..|ended|] == ended;
  }

  lemma JoinNext(chunks: Chunks, index: nat)
    requires index < |chunks|
    ensures Join(chunks[..index + 1]) == Join(chunks[..index]) + chunks[index]
  {
    assert chunks[..index + 1][..index] == chunks[..index];
  }

  lemma JoinAll(chunks: Chunks)
    ensures Join(chunks[..|chunks|]) == Join(chunks) && Join(chunks[..0]) == []
  {
    assert chunks[..|chunks|] == chunks;
  }

  /** Between two chunks: `index` chunks of the frame are out, on top of what was before. */
  ghost predicate Between(l: Link, chunks: Chunks, index: nat) {
    && index <= |chunks| && Pieces(chunks) && (forall c <- l.queue :: Pieces(c))
    && l.delivered == Whole(l.ended) + (if index == 0 then PartBytes(l.(sending := None)) else Join(chunks[..index]))
    && (l.stalled.Some? ==>
          && index == 0 && (l.broken || !l.open) && Ended(l.stalled.value.0, false) in l.ended
          && 0 < l.stalled.value.1 < |l.stalled.value.0| && Pieces(l.stalled.value.0))
    && (l.broken ==> index == 0)
  }

  lemma NextChunkKeeps(l: Link, chunks: Chunks, index: nat)
    requires Between(l, chunks, index)
    ensures Inv(NextChunk(l, chunks, index))
  {
    hide Join, Whole;
    JoinAll(chunks);
    EndedWhole(l.ended, Ended(chunks, true));
    EndedWhole(l.ended, Ended(chunks, false));
  }

  lemma FailedKeeps(l: Link, s: Sending)
    requires Inv(l) && l.sending.Some? && s.chunks == l.sending.value.chunks && s.index == l.sending.value.index
    ensures Inv(Failed(l, s))
  {
    hide Join, Whole;
    JoinAll(s.chunks);
    EndedWhole(l.ended, Ended(s.chunks, false));
  }

  lemma TurnKeeps(l: Link)
    requires Inv(l) && Enabled(l, Turn)
    ensures Inv(Next(l, Turn))
  {
    hide Join, Whole;
    assert l.queue[0] in l.queue;
    NextChunkKeeps(l.(queue := l.queue[1..]), l.queue[0], 0);
  }

  lemma TakeKeeps(l: Link)
    requires Inv(l) && Enabled(l, Take)
    ensures Inv(Next(l, Take))
  {
    hide Join, Whole;
    var s := l.sending.value;
    JoinNext(s.chunks, s.index);
    NextChunkKeeps(l.(delivered := l.delivered + s.chunks[s.index]), s.chunks, s.index + 1);
  }

  lemma StepKeeps(l: Link, a: Action)
    requires Inv(l) && Enabled(l, a)
    ensures Inv(Next(l, a))
  {
    hide Join, Whole;
    match a
    case Write(chunks) =>
    case Turn => TurnKeeps(l);
    case Take => TakeKeeps(l);
    case Reject => FailedKeeps(l, l.sending.value);
    case Wake =>
      if !l.open {
        FailedKeeps(l, l.sending.value.(attempt := l.sending.value.attempt + 1));
      }
    case Close =>
  }

  lemma OpenedInv()
    ensures Inv(Opened())
  {
  }

  lemma {:induction false} RunKeeps(l: Link, actions: seq<Action>, l': Link)
    requires Inv(l) && Runs(l, actions, l')
    ensures Inv(l')
    decreases |actions|
  {
    hide Inv, Next, Enabled;
    if actions != [] {
      StepKeeps(l, actions[0]);
      RunKeeps(Next(l, actions[0]), actions[1..], l');
    }
  }

  // ----- what a link guarantees -----

  /** Writes never interleave: after any run the link carried the frames of the writes that
      succeeded, each whole and in order, and after them at most a part of one frame; when that
      frame is not being sent any more, the link is closed or broken. */
  lemma WholeFrames(actions: seq<Action>, l: Link)
    requires Runs(Opened(), actions, l)
    ensures l.delivered == Whole(l.ended) + PartBytes(l)
    ensures Part(l).Some? ==> Part(l).value.1 < |Part(l).value.0|
    ensures l.sending.None? && PartBytes(l) != [] ==> l.stalled.Some? && (l.broken || !l.open)
  {
    RunKeeps(Opened(), actions, l);
  }

  /** Nothing follows a part of a frame: once the link stopped within one, whatever is still
      written, no more bytes go out. */
  lemma {:induction false} NothingFollows(l: Link, actions: seq<Action>, l': Link)
    requires Inv(l) && l.stalled.Some? && Runs(l, actions, l')
    ensures l'.delivered == l.delivered && l'.stalled == l.stalled
    decreases |actions|
  {
    hide Join, Whole;
    if actions != [] {
      StepKeeps(l, actions[0]);
      NothingFollows(Next(l, actions[0]), actions[1..], l');
    }
  }

  // ----- when a write succeeds -----

  lemma {:induction false} RunsTwice(l: Link, a: seq<Action>, between: Link, b: seq<Action>, l': Link)
    requires Runs(l, a, between) && Runs(between, b, l')
    ensures Runs(l, a + b, l')
    decreases |a|
  {
    hide Next, Enabled;
    if a == [] {
      assert a + b == b;
    } else {
      assert (a + b)[1..] == a[1..] + b;
      RunsTwice(Next(l, a[0]), a[1..], between, b, l');
    }
  }

  /** The chunk in flight is rejected so often, and tried again after each time. */
  ghost function Again(rejects: nat): (actions: seq<Action>) {
    if rejects == 0 then [] else [Reject, Wake] + Again(rejects - 1)
  }

  /** Each chunk is rejected so often and then taken. */
  ghost function Tries(rejects: seq<nat>): seq<Action> {
    if rejects == [] then [] else Again(rejects[0]) + [Take] + Tries(rejects[1..])
  }

  ghost predicate Trying(l: Link, chunks: Chunks, index: nat, attempt: nat) {
    l.open && !l.broken && index < |chunks| && l.sending == Some(Sending(chunks, index, attempt, true))
  }

  lemma {:induction false} TriedAgain(l: Link, chunks: Chunks, index: nat, attempt: nat, rejects: nat)
    requires Trying(l, chunks, index, attempt) && attempt + rejects <= RETRIES
    ensures Runs(l, Again(rejects), l.(sending := Some(Sending(chunks, index, attempt + rejects, true))))
    decreases rejects
  {
    if rejects > 0 {
      var rejected := l.(sending := Some(Sending(chunks, index, attempt, false)));
      var next := l.(sending := Some(Sending(chunks, index, attempt + 1, true)));
      assert Next(l, Reject) == rejected && Next(rejected, Wake) == next;
      TriedAgain(next, chunks, index, attempt + 1, rejects - 1);
      var actions := Again(rejects);
      assert actions[1..][0] == Wake && actions[1..][1..] == Again(rejects - 1);
      assert Runs(rejected, actions[1..], l.(sending := Some(Sending(chunks, index, attempt + rejects, true))));
    }
  }

  /** A frame being sent over a link that stays open goes out whole, and its write succeeds, if
      each of its chunks left is rejected at most three times before it is taken. */
  lemma {:induction false} GoesOut(l: Link, chunks: Chunks, index: nat, rejects: seq<nat>)
    requires Trying(l, chunks, index, 0) && |rejects| == |chunks| - index && forall r <- rejects :: r <= 3
    ensures Runs(l, Tries(rejects), l.(sending := None, ended := l.ended + [Ended(chunks, true)],
                                       delivered := l.delivered + Join(chunks[index..])))
    decreases |rejects|
  {
    hide Runs, Join, Next, Again;
    assert rejects[0] in rejects && forall r <- rejects[1..] :: r in rejects;
    var tried := l.(sending := Some(Sending(chunks, index, rejects[0], true)));
    TriedAgain(l, chunks, index, 0, rejects[0]);
    var taken := NextTaken(tried, chunks, index, rejects[0]);
    RunsTwice(l, Again(rejects[0]), tried, [Take], taken);
    JoinFirst(chunks[index..]);
    assert chunks[index..][1..] == chunks[index + 1..];
    if index + 1 < |chunks| {
      GoesOut(taken, chunks, index + 1, rejects[1..]);
      assert l.delivered + chunks[index] + Join(chunks[index + 1..]) == l.delivered + Join(chunks[index..]);
      RunsTwice(l, Again(rejects[0]) + [Take], taken, Tries(rejects[1..]),
                l.(sending := None, ended := l.ended + [Ended(chunks, true)], delivered := l.delivered + Join(chunks[index..])));
    } else {
      NothingJoined(chunks[index + 1..]);
      assert Join(chunks[index..]) == chunks[index];
      assert rejects[1..] == [] && Tries([]) == [];
      assert Tries(rejects) == Again(rejects[0]) + [Take];
    }
  }

  lemma NextTaken(l: Link, chunks: Chunks, index: nat, attempt: nat) returns (taken: Link)
    requires Trying(l, chunks, index, attempt)
    ensures Runs(l, [Take], taken)
    ensures index + 1 < |chunks| ==>
              taken == l.(sending := Some(Sending(chunks, index + 1, 0, true)), delivered := l.delivered + chunks[index])
    ensures index + 1 == |chunks| ==>
              taken == l.(sending := None, ended := l.ended + [Ended(chunks, true)], delivered := l.delivered + chunks[index])
  {
    taken := Next(l, Take);
    assert [Take][1..] == [];
  }

  lemma {:induction false} JoinFirst(chunks: Chunks)
    requires chunks != []
    ensures Join(chunks) == chunks[0] + Join(chunks[1..])
    decreases |chunks|
  {
    if |chunks| > 1 {
      var before, tail, last := chunks[..|chunks| - 1], chunks[1..], chunks[|chunks| - 1];
      JoinFirst(before);
      assert tail[..|tail| - 1] == before[1..] && tail[|tail| - 1] == last;
      assert Join(tail) == Join(before[1..]) + last;
      AppendAssociates(chunks[0], Join(before[1..]), last);
    } else {
      assert chunks[..0] == [] && chunks[1..] == [];
    }
  }

  lemma NothingJoined(chunks: Chunks)
    requires chunks == []
    ensures Join(chunks) == []
  {
  }

  /** A chunk rejected a fourth time fails the write: the link breaks if part of the frame is out,
      and otherwise goes on with the next. */
  lemma GivesUp(l: Link, chunks: Chunks, index: nat)
    requires Trying(l, chunks, index, 0)
    ensures Runs(l, Again(3) + [Reject], l.(sending := None, broken := index > 0, ended := l.ended + [Ended(chunks, false)],
                                            stalled := if index > 0 then Some((chunks, index)) else l.stalled))
  {
    hide Runs, Again;
    var tried := l.(sending := Some(Sending(chunks, index, 3, true)));
    TriedAgain(l, chunks, index, 0, 3);
    var failed := Next(tried, Reject);
    OneStep(tried, Reject);
    RunsTwice(l, Again(3), tried, [Reject], failed);
  }

  lemma OneStep(l: Link, a: Action)
    requires Enabled(l, a)
    ensures Runs(l, [a], Next(l, a))
  {
    hide Next, Enabled;
    assert [a][1..] == [];
  }

  /** Nothing else fails a write on a link that is open and not broken. */
  lemma FailsOnly(l: Link, a: Action)
    requires Enabled(l, a) && l.open && !l.broken
    requires |Next(l, a).ended| == |l.ended| + 1 && !Next(l, a).ended[|l.ended|].ok
    ensures a == Reject && l.sending.Some? && l.sending.value.attempt >= 3
  {
  }

  /** The chunk lists written, in order. */
  ghost function Writes(actions: seq<Action>): seq<Chunks>
    decreases |actions|
  {
    if actions == [] then []
    else (match actions[0] { case Write(chunks) => [chunks] case _ => [] }) + Writes(actions[1..])
  }

  ghost function EndedWrites(ended: seq<Ended>): seq<Chunks> {
    seq(|ended|, i requires 0 <= i < |ended| => ended[i].chunks)
  }

  lemma EndedWrite(ended: seq<Ended>, e: Ended)
    ensures EndedWrites(ended + [e]) == EndedWrites(ended) + [e.chunks]
  {
  }

  /** The writes that ended, the one in progress, and those that wait. */
  ghost function Known(l: Link): seq<Chunks> {
    EndedWrites(l.ended)
      + (match l.sending { case Some(s) => [s.chunks] case None => [] })
      + l.queue
  }

  lemma NextChunkKnown(l: Link, chunks: Chunks, index: nat)
    ensures Known(NextChunk(l, chunks, index)) == EndedWrites(l.ended) + [chunks] + l.queue
  {
    hide EndedWrites;
    EndedWrite(l.ended, Ended(chunks, true));
    EndedWrite(l.ended, Ended(chunks, false));
  }

  lemma FailedKnown(l: Link, s: Sending)
    ensures Known(Failed(l, s)) == EndedWrites(l.ended) + [s.chunks] + l.queue
  {
    hide EndedWrites;
    EndedWrite(l.ended, Ended(s.chunks, false));
  }

  lemma StepKnown(l: Link, a: Action)
    requires Enabled(l, a)
    ensures Known(Next(l, a)) == Known(l) + Writes([a])
  {
    hide EndedWrites, NextChunk, Failed;
    assert Writes([a]) == match a { case Write(chunks) => [chunks] case _ => [] };
    match a
    case Write(chunks) =>
    case Turn =>
      NextChunkKnown(l.(queue := l.queue[1..]), l.queue[0], 0);
      assert l.queue == [l.queue[0]] + l.queue[1..];
    case Take =>
      var s := l.sending.value;
      NextChunkKnown(l.(delivered := l.delivered + s.chunks[s.index]), s.chunks, s.index + 1);
    case Reject => FailedKnown(l, l.sending.value);
    case Wake => FailedKnown(l, l.sending.value.(attempt := l.sending.value.attempt + 1));
    case Close =>
  }

  /** Writes end in the order they were made, and none is lost or made twice. */
  lemma {:induction false} InOrder(l: Link, actions: seq<Action>, l': Link)
    requires Runs(l, actions, l')
    ensures Known(l') == Known(l) + Writes(actions)
    decreases |actions|
  {
    hide Known, Next, Enabled;
    if actions != [] {
      StepKnown(l, actions[0]);
      InOrder(Next(l, actions[0]), actions[1..], l');
      assert actions == [actions[0]] + actions[1..];
      assert Writes(actions) == Writes([actions[0]]) + Writes(actions[1..]);
    }
  }

  // ----- what the firmware reads -----

  /** The chunks are of one frame of the protocol. */
  ghost predicate Carries(chunks: Chunks, frame: F.Frame) {
    F.Encodable(frame) && Join(chunks) == F.EncodeFrame(frame)
  }

  /** The frames of the writes that succeeded. */
  ghost function Sent(ended: seq<Ended>, frameOf: Chunks -> F.Frame): seq<F.Frame>
    decreases |ended|
  {
    if ended == [] then []
    else
      var last := ended[|ended| - 1];
      Sent(ended[..|ended| - 1], frameOf) + if last.ok then [frameOf(last.chunks)] else []
  }

  lemma {:induction false} EncodingsMore(frames: seq<F.Frame>, frame: F.Frame)
    requires F.Encodable(frame) && forall f <- frames :: F.Encodable(f)
    ensures forall f <- frames + [frame] :: F.Encodable(f)
    ensures F.Encodings(frames + [frame]) == F.Encodings(frames) + F.EncodeFrame(frame)
    decreases |frames|
  {
    hide F.EncodeFrame, F.Encodable;
    if frames == [] {
      assert [frame][1..] == [];
      assert F.Encodings([frame]) == F.EncodeFrame(frame) + F.Encodings([]);
    } else {
      assert (frames + [frame])[1..] == frames[1..] + [frame];
      assert forall f <- frames[1..] :: f in frames;
      EncodingsMore(frames[1..], frame);
    }
  }

  lemma {:induction false} WholeEncodes(ended: seq<Ended>, frameOf: Chunks -> F.Frame)
    requires forall e <- ended :: Carries(e.chunks, frameOf(e.chunks))
    ensures forall f <- Sent(ended, frameOf) :: F.Encodable(f)
    ensures Whole(ended) == F.Encodings(Sent(ended, frameOf))
    decreases |ended|
  {
    hide F.Encodings, F.EncodeFrame, F.Encodable, Join;
    if ended == [] {
      NoEncodings();
    } else {
      var before, last := ended[..|ended| - 1], ended[|ended| - 1];
      assert last in ended && forall e <- before :: e in ended;
      WholeEncodes(before, frameOf);
      if last.ok {
        EncodingsMore(Sent(before, frameOf), frameOf(last.chunks));
      } else {
        assert Sent(ended, frameOf) == Sent(before, frameOf) && Whole(ended) == Whole(before);
      }
    }
  }

  lemma NoEncodings()
    ensures F.Encodings([]) == []
  {
  }

  /** Some but not all chunks are a proper part of the frame. */
  lemma {:induction false} ProperPart(chunks: Chunks, index: nat)
    requires index <= |chunks| && Pieces(chunks)
    ensures Join(chunks[..index]) <= Join(chunks) && (index < |chunks| ==> |Join(chunks[..index])| < |Join(chunks)|)
    decreases |chunks|
  {
    if index == |chunks| {
      assert chunks[..index] == chunks;
    } else {
      var before := chunks[..|chunks| - 1];
      assert forall c <- before :: c in chunks;
      assert chunks[|chunks| - 1] in chunks;
      assert before[..index] == chunks[..index];
      ProperPart(before, index);
    }
  }

  /** A proper part of a frame holds no frame. */
  lemma PartHoldsNone(part: seq<uint8>, frame: F.Frame)
    requires F.Encodable(frame) && part <= F.EncodeFrame(frame) && |part| < |F.EncodeFrame(frame)|
    ensures F.Scan(part).frames == []
  {
    var whole := F.EncodeFrame(frame);
    assert whole[3] == Le16(|frame.payload|)[0] && whole[4] == Le16(|frame.payload|)[1];
    assert |part| >= 2 ==> F.StartsWithMagic(part);
    if |part| >= F.HEADER_SIZE {
      assert part[3] == whole[3] && part[4] == whole[4];
      assert F.HeaderLength(part) == |frame.payload|;
    }
    F.RestScans(part);
  }

  /** What the other side reads from a link is exactly the frames of the writes that succeeded,
      whatever was rejected, retried, cut short, or closed. */
  lemma FramesArrive(actions: seq<Action>, l: Link, frameOf: Chunks -> F.Frame)
    requires Runs(Opened(), actions, l)
    requires forall chunks <- Known(l) :: Carries(chunks, frameOf(chunks))
    ensures F.Scan(l.delivered).frames == Sent(l.ended, frameOf)
  {
    hide Runs, F.Scan, F.Encodings, F.EncodeFrame, F.Encodable, Whole, Join, Sent;
    OpenedInv();
    RunKeeps(Opened(), actions, l);
    forall e | e in l.ended ensures Carries(e.chunks, frameOf(e.chunks)) {
      var i :| 0 <= i < |l.ended| && l.ended[i] == e;
      assert Known(l)[i] == e.chunks;
    }
    var frames := Sent(l.ended, frameOf);
    WholeEncodes(l.ended, frameOf);
    F.EncodingsScan(frames);
    F.ChunksAgree(Whole(l.ended), PartBytes(l));
    assert [] + PartBytes(l) == PartBytes(l);
    if Part(l).Some? {
      var (chunks, index) := Part(l).value;
      assert l.sending.Some? ==> Known(l)[|l.ended|] == chunks;
      ProperPart(chunks, index);
      PartHoldsNone(PartBytes(l), frameOf(chunks));
    } else {
      NoneInNothing();
    }
  }

  lemma NoneInNothing()
    ensures F.Scan([]).frames == []
  {
  }
}
