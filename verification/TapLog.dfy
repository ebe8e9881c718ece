/** What a pipeline's capture tap submits in one recording, next to what was true at that
    moment (src/observer/capture.c, src/service/telemetry.c). */
module TapLog {
  import opened Bytes
  import opened CaptureCodec

  /** What held when a record was submitted: how often the stages had been reset, the hash of
      the settings in force, the press a guarded stage would be asked about, and, for a frame, the
      source it came from. */
  datatype Context = Context(epoch: nat, settings: uint32, press: Option<uint32>, source: Option<Record>)

  datatype Noted = Noted(record: Record, stored: bool, context: Context)

  type Log = seq<Noted>

  /** What replay runs: frames, flushes, and key presses. */
  predicate IsEvent(r: Record) {
    r.FrameRecord? || r.Flush? || r.Keypress?
  }

  predicate Processed(r: Record) {
    r.FrameRecord? || r.Flush?
  }

  /** The newest key press among some records. */
  ghost function LastPress(events: seq<Record>): Option<uint32> {
    if events == [] then None
    else if events[|events| - 1].Keypress? then Some(events[|events| - 1].timeMs)
    else LastPress(events[..|events| - 1])
  }

  /** The newest source record since the pipeline was last entered. */
  ghost function SourceAt(log: Log, n: nat): Option<Record>
    requires n <= |log|
  {
    if n == 0 then None
    else
      match log[n - 1].record
      case Source(_, _, _) => Some(log[n - 1].record)
      case Entered(_) => None
      case _ => SourceAt(log, n - 1)
  }

  /** The newest key press record since the pipeline was last entered. */
  ghost function KeypressAt(log: Log, n: nat): Option<uint32>
    requires n <= |log|
  {
    if n == 0 then None
    else
      match log[n - 1].record
      case Keypress(t) => Some(t)
      case Entered(_) => None
      case _ => KeypressAt(log, n - 1)
  }

  /** Something since the pipeline was last entered, that entry included, keeps replay from
      following: a record refused, a settings change, or a second source. */
  ghost predicate Broken(log: Log, n: nat)
    requires n <= |log|
  {
    n > 0 &&
    (!log[n - 1].stored ||
     match log[n - 1].record
     case Entered(_) => false
     case SettingsChanged => true
     case Source(_, _, _) => SourceAt(log, n - 1).Some? || Broken(log, n - 1)
     case _ => Broken(log, n - 1))
  }

  /** Record `i` says what was true when it was submitted. */
  ghost predicate Truthful(log: Log, i: nat)
    requires i < |log|
  {
    var r, c := log[i].record, log[i].context;
    && (r.Entered? ==> r.settingsHash == c.settings && forall k | 0 <= k < i :: log[k].context.epoch < c.epoch)
    && (IsEvent(r) || r.Source? ==> i > 0 ==>
          c.epoch == log[i - 1].context.epoch && c.settings == log[i - 1].context.settings)
    && (r.FrameRecord? ==> c.source.Some? && c.source == SourceAt(log, i))
    && (Processed(r) ==> c.press == KeypressAt(log, i))
  }

  ghost predicate AllTruthful(log: Log) {
    forall i | 0 <= i < |log| :: Truthful(log, i)
  }

  lemma {:induction false} PrefixAgrees(log: Log, log': Log, n: nat)
    requires n <= |log| && log <= log'
    ensures SourceAt(log', n) == SourceAt(log, n)
    ensures KeypressAt(log', n) == KeypressAt(log, n)
    ensures Broken(log', n) == Broken(log, n)
    decreases n
  {
    if n > 0 {
      assert log'[n - 1] == log[n - 1];
      PrefixAgrees(log, log', n - 1);
    }
  }

  lemma {:induction false} TruthfulStays(log: Log, more: Noted)
    requires AllTruthful(log) && Truthful(log + [more], |log|)
    ensures AllTruthful(log + [more])
  {
    hide SourceAt, KeypressAt;
    var log' := log + [more];
    forall i | 0 <= i < |log'| ensures Truthful(log', i) {
      if i < |log| {
        assert Truthful(log, i);
        PrefixAgrees(log, log', i);
      }
    }
  }

  /** What one more record changes. */
  lemma Appended(log: Log, more: Noted)
    ensures var log' := log + [more];
            SourceAt(log', |log'|) == match more.record {
              case Source(_, _, _) => Some(more.record)
              case Entered(_) => None
              case _ => SourceAt(log, |log|)
            }
    ensures var log' := log + [more];
            KeypressAt(log', |log'|) == match more.record {
              case Keypress(t) => Some(t)
              case Entered(_) => None
              case _ => KeypressAt(log, |log|)
            }
    ensures var log' := log + [more];
            Broken(log', |log'|) ==>
              || !more.stored || more.record.SettingsChanged?
              || (more.record.Source? && SourceAt(log, |log|).Some?)
              || (!more.record.Entered? && Broken(log, |log|))
  {
    PrefixAgrees(log, log + [more], |log|);
  }
}
