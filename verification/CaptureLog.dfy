/** What was recorded in a session, record by record: which were kept, what a delta was made
    from, and how the ring's items stand for a stretch of it (src/observer/capture.c). */
module CaptureLog {
  import opened Bytes
  import opened CaptureCodec
  import opened CaptureStore
  import D = CaptureDecoder
  import opened CaptureRoundTrip

  // ----- what was recorded -----

  /** A record submitted, at the index that is its sequence number, and whether it was
      stored and not discarded since. */
  datatype Entry = Entry(record: Record, kept: bool)

  type Log = seq<Entry>

  /** What record `n` would be encoded against as a delta: the newest frame below `n` with no
      dropped record and no entry after it. */
  ghost function BaseAt(log: Log, n: nat): Option<Base>
    requires n <= |log|
  {
    if n == 0 || !log[n - 1].kept then None
    else
      match log[n - 1].record
      case FrameRecord(f) => Some(BaseOf(f))
      case Entered(_) => None
      case _ => BaseAt(log, n - 1)
  }

  lemma {:induction false} BaseAtAgrees(log: Log, log': Log, n: nat)
    requires n <= |log| && n <= |log'| && log[..n] == log'[..n]
    ensures BaseAt(log, n) == BaseAt(log', n)
    decreases n
  {
    if n > 0 {
      assert log[n - 1] == log[..n][n - 1] == log'[..n][n - 1] == log'[n - 1];
      assert log[..n - 1] == log[..n][..n - 1] == log'[..n][..n - 1] == log'[..n - 1];
      BaseAtAgrees(log, log', n - 1);
    }
  }

  /** The kept records from number `from` up to `till`. */
  ghost function Kept(log: Log, from: nat, till: nat): seq<D.Numbered>
    requires from <= till <= |log|
    decreases till
  {
    if from == till then []
    else Kept(log, from, till - 1) + if log[till - 1].kept then [D.Numbered(Wrap32(till - 1), log[till - 1].record)] else []
  }

  lemma {:induction false} KeptSplit(log: Log, from: nat, mid: nat, till: nat)
    requires from <= mid <= till <= |log|
    ensures Kept(log, from, till) == Kept(log, from, mid) + Kept(log, mid, till)
    decreases till
  {
    if mid < till {
      KeptSplit(log, from, mid, till - 1);
    }
  }

  lemma {:induction false} KeptAgrees(log: Log, log': Log, from: nat, till: nat)
    requires from <= till <= |log| && till <= |log'| && log[..till] == log'[..till]
    ensures Kept(log, from, till) == Kept(log', from, till)
    decreases till
  {
    if from < till {
      assert log[till - 1] == log[..till][till - 1] == log'[..till][till - 1] == log'[till - 1];
      assert log[..till - 1] == log[..till][..till - 1] == log'[..till][..till - 1] == log'[..till - 1];
      KeptAgrees(log, log', from, till - 1);
    }
  }

  lemma {:induction false} NoneKept(log: Log, from: nat, till: nat)
    requires from <= till <= |log| && forall i | from <= i < till :: !log[i].kept
    ensures Kept(log, from, till) == []
    ensures from < till ==> BaseAt(log, till).None?
    decreases till
  {
    if from < till {
      NoneKept(log, from, till - 1);
    }
  }

  // ----- the ring against the log -----

  /** The item stands for the log from number `at` on. */
  ghost predicate Mirrors(item: Item, at: nat, log: Log) {
    match item
    case Gap(count) => at + count <= |log| && forall i | at <= i < at + count :: !log[i].kept
    case Stored(r, base) => at < |log| && log[at] == Entry(r, true) && (base.Some? ==> base == BaseAt(log, at))
  }

  ghost predicate AllMirror(items: seq<Item>, from: nat, log: Log) {
    forall k | 0 <= k < |items| :: Mirrors(items[k], from + Span(items[..k]), log)
  }

  lemma MirrorsAgrees(item: Item, at: nat, log: Log, log': Log, n: nat)
    requires n <= |log| && n <= |log'| && log[..n] == log'[..n]
    requires Mirrors(item, at, log) && at + (if item.Gap? then item.count else 1) <= n
    ensures Mirrors(item, at, log')
  {
    if item.Stored? {
      assert log[at] == log[..n][at] == log'[..n][at] == log'[at];
      assert log[..at] == log[..n][..at] == log'[..n][..at] == log'[..at];
      BaseAtAgrees(log, log', at);
    } else {
      forall i | at <= i < at + item.count ensures !log'[i].kept {
        assert log[i] == log[..n][i] == log'[..n][i] == log'[i];
      }
    }
  }
}
