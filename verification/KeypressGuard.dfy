/** The keypress guard while it is recorded: atomic steps of the input thread interleaved with
    those of the key press listener (src/platform/zmk/keypress_suppression.c), and the freeze
    and thaw around every push and flush (src/observer/capture.c, src/core/pipeline.c). */
module KeypressGuard {
  import opened Bytes
  import opened Errno
  import opened ReplayGuard

  const RAW_MOTION: nat := 1

  datatype FrozenState = FROZEN_NONE | FROZEN_NO_KEYPRESS | FROZEN_KEYPRESS

  /** The stages' guard. Every access to a field is one atomic step; key presses may land
      before each. */
  class Guard {
    const window: uint32
    var lastKeypressMs: uint32
    var haveKeypress: bool
    var frozen: FrozenState
    var frozenMs: uint32

    /** Every time stamped so far, and how often the guard was frozen and thawed. */
    ghost var stamps: seq<uint32>
    ghost var freezes: nat
    ghost var thaws: nat

    ghost predicate Valid()
      reads this
    {
      && (stamps != [] ==> lastKeypressMs == stamps[|stamps| - 1])
      && (haveKeypress ==> stamps != [])
    }

    constructor (window: uint32)
      ensures Valid() && frozen == FROZEN_NONE && freezes == thaws && this.window == window
    {
      this.window := window;
      lastKeypressMs, haveKeypress, frozen, frozenMs := 0, false, FROZEN_NONE, 0;
      stamps, freezes, thaws := [], 0, 0;
    }

    /** The listener's steps for any number of key presses: the stamp first, then the flag; the
        last of them may have got no further than its stamp. */
    method KeyPresses()
      requires Valid()
      modifies this`lastKeypressMs, this`haveKeypress, this`stamps
      ensures Valid() && old(stamps) <= stamps && (old(haveKeypress) ==> haveKeypress)
    {
      var steps: nat := *;
      while steps > 0
        invariant Valid() && old(stamps) <= stamps && (old(haveKeypress) ==> haveKeypress)
      {
        lastKeypressMs := *;
        stamps := stamps + [lastKeypressMs];
        var flagged: bool := *;
        if flagged {
          haveKeypress := true;
        }
        steps := steps - 1;
      }
    }

    /** What the guard answers with while frozen. */
    function Frozen(): Option<uint32>
      reads this
    {
      if frozen == FROZEN_KEYPRESS then Some(frozenMs) else None
    }

    /** Freeze the newest key press, and say what it was. */
    method FreezeKeypress() returns (have: bool, timeMs: uint32)
      requires Valid() && frozen == FROZEN_NONE
      modifies this
      ensures Valid() && old(stamps) <= stamps
      ensures frozen != FROZEN_NONE && Frozen() == if have then Some(timeMs) else None
      ensures have ==> exists k :: |old(stamps)| - 1 <= k < |stamps| && 0 <= k && stamps[k] == timeMs
      ensures old(haveKeypress) ==> have
      ensures freezes == old(freezes) + 1 && thaws == old(thaws)
    {
      KeyPresses();
      have := haveKeypress;
      KeyPresses();
      var latest := lastKeypressMs;
      ghost var seen := stamps;
      KeyPresses();
      frozenMs := latest;
      KeyPresses();
      frozen := if have then FROZEN_KEYPRESS else FROZEN_NO_KEYPRESS;
      KeyPresses();
      timeMs := latest;
      freezes := freezes + 1;
      assert have ==> stamps[|seen| - 1] == timeMs;
    }

    method ThawKeypress()
      requires Valid()
      modifies this
      ensures Valid() && old(stamps) <= stamps && frozen == FROZEN_NONE
      ensures freezes == old(freezes) && thaws == old(thaws) + 1
    {
      KeyPresses();
      frozen := FROZEN_NONE;
      KeyPresses();
      thaws := thaws + 1;
    }

    /** A stage asks. Frozen, the answer is the frozen key press's; otherwise that of a key
        press stamped no earlier than the newest when the stage asked. */
    method IsSuppressed(nowMs: uint32) returns (suppressed: bool)
      requires Valid()
      modifies this`lastKeypressMs, this`haveKeypress, this`stamps
      ensures Valid() && old(stamps) <= stamps && (old(haveKeypress) ==> haveKeypress)
      ensures frozen != FROZEN_NONE ==> suppressed == Suppresses(Frozen(), nowMs, window)
      ensures frozen == FROZEN_NONE && suppressed ==>
        exists k :: |old(stamps)| - 1 <= k < |stamps| && 0 <= k && Suppresses(Some(stamps[k]), nowMs, window)
      ensures frozen == FROZEN_NONE && old(haveKeypress) && !suppressed ==>
        exists k :: |old(stamps)| - 1 <= k < |stamps| && 0 <= k && !Suppresses(Some(stamps[k]), nowMs, window)
    {
      KeyPresses();
      var state := frozen;
      KeyPresses();
      if state != FROZEN_NONE {
        return state == FROZEN_KEYPRESS && Wrap32(nowMs - frozenMs) < window;
      }
      var have := haveKeypress;
      KeyPresses();
      var latest := lastKeypressMs;
      assert have ==> stamps[|stamps| - 1] == latest;
      suppressed := have && Wrap32(nowMs - latest) < window;
    }
  }

  /** The rest of a stage's call: it asks the guard about a time and goes on by the answer, or
      returns. */
  datatype Talk = Return(code: int) | Ask(nowMs: uint32, suppressed: Talk, otherwise: Talk)

  /** How a call goes when every answer is that of one key press. */
  ghost function Follow(talk: Talk, view: Option<uint32>, window: uint32): int {
    match talk
    case Return(code) => code
    case Ask(nowMs, suppressed, otherwise) =>
      Follow(if Suppresses(view, nowMs, window) then suppressed else otherwise, view, window)
  }

  /** The calls a flush makes, up to the first that fails. */
  ghost function FollowAll(due: seq<Talk>, view: Option<uint32>, window: uint32): int
    decreases |due|
  {
    if due == [] then 0
    else
      var code := Follow(due[0], view, window);
      if code < 0 then code else FollowAll(due[1..], view, window)
  }

  /** A pipeline whose stages share one guard, and its tap. `tapHasGuard` says whether the tap
      found that guard freezable. */
  class RecordedPipeline {
    const guard: Guard
    const tapHasGuard: bool
    const inputKind: nat
    var validated: bool
    var active: bool
    var recording: bool
    var tapFrozen: bool

    ghost predicate Valid()
      reads this, guard
    {
      guard.Valid() && (tapFrozen <==> guard.frozen != FROZEN_NONE) && (tapFrozen ==> tapHasGuard)
    }

    /** Between operations the guard is live, thawed as often as it was frozen. */
    ghost predicate Idle()
      reads this, guard
    {
      Valid() && !tapFrozen && guard.freezes == guard.thaws
    }

    constructor (guard: Guard, tapHasGuard: bool, inputKind: nat)
      requires guard.Valid() && guard.frozen == FROZEN_NONE && guard.freezes == guard.thaws
      ensures Idle() && this.guard == guard && this.tapHasGuard == tapHasGuard && this.inputKind == inputKind
      ensures !validated && !active
    {
      this.guard, this.tapHasGuard, this.inputKind := guard, tapHasGuard, inputKind;
      validated, active, recording, tapFrozen := false, false, false, false;
    }

    /** The tap before the stages run; gives the key press recorded. */
    method RecordKeypress() returns (ghost view: Option<uint32>)
      requires Idle()
      modifies this`tapFrozen, guard
      ensures Valid() && guard.freezes == guard.thaws + (if tapFrozen then 1 else 0)
      ensures tapFrozen == tapHasGuard
      ensures tapFrozen ==> guard.Frozen() == view
      ensures guard.freezes == old(guard.freezes) + (if tapHasGuard then 1 else 0)
    {
      view := None;
      if !tapHasGuard {
        return;
      }
      var have, timeMs := guard.FreezeKeypress();
      tapFrozen := true;
      view := if have then Some(timeMs) else None;
    }

    /** The tap after the stages ran. The recording may have stopped meanwhile. */
    method Done()
      requires Valid() && guard.freezes == guard.thaws + (if tapFrozen then 1 else 0)
      modifies this`tapFrozen, this`recording, guard
      ensures Idle() && guard.freezes == old(guard.freezes)
    {
      recording := *;
      if tapFrozen {
        tapFrozen := false;
        guard.ThawKeypress();
      }
    }

    /** One stage call, each question asked when the stage gets there. */
    method CallStage(talk: Talk) returns (code: int)
      requires Valid()
      modifies guard`lastKeypressMs, guard`haveKeypress, guard`stamps
      ensures Valid() && (tapFrozen ==> code == Follow(talk, guard.Frozen(), guard.window))
      decreases talk
    {
      match talk
      case Return(result) => code := result;
      case Ask(nowMs, suppressed, otherwise) =>
        var answer := guard.IsSuppressed(nowMs);
        if answer {
          code := CallStage(suppressed);
        } else {
          code := CallStage(otherwise);
        }
    }

    /** The tap sees a signal only when it records, and records only raw motion. */
    predicate Records(kind: nat)
      reads this
    {
      recording && kind == RAW_MOTION && tapHasGuard
    }

    predicate Refuses(kind: nat)
      reads this
    {
      !validated || !active || kind != inputKind
    }

    /** A push: the checks, the tap, the stages, and the tap again, whatever the stages return. */
    method Push(kind: nat, stages: Talk) returns (ret: int, ghost view: Option<uint32>)
      requires Idle()
      modifies this`tapFrozen, this`recording, guard
      ensures Idle()
      ensures Refuses(kind) ==>
                && unchanged(this) && unchanged(guard)
                && ret == if !validated then EINVAL else if !active then EACCES else EPROTOTYPE
      ensures !Refuses(kind) ==> guard.freezes == old(guard.freezes) + (if old(Records(kind)) then 1 else 0)
      ensures !Refuses(kind) && old(Records(kind)) ==> ret == Follow(stages, view, guard.window)
    {
      view := None;
      if !validated {
        return EINVAL, view;
      }
      if !active {
        return EACCES, view;
      }
      if kind != inputKind {
        return EPROTOTYPE, view;
      }
      if recording && kind == RAW_MOTION {
        view := RecordKeypress();
      }
      ret := CallStage(stages);
      Done();
    }

    /** A flush of the stages whose deadline is due: the tap before the first of them, and after
        the last or the one that fails. */
    method Flush(due: seq<Talk>) returns (ret: int, ghost view: Option<uint32>)
      requires Idle()
      modifies this`tapFrozen, this`recording, guard
      ensures Idle()
      ensures !validated || !active || due == [] ==>
                && unchanged(this) && unchanged(guard)
                && ret == if !validated then EINVAL else if !active then EACCES else 0
      ensures validated && active && due != [] ==>
                && guard.freezes == old(guard.freezes) + (if old(recording) && tapHasGuard then 1 else 0)
                && (old(recording) && tapHasGuard ==> ret == FollowAll(due, view, guard.window))
    {
      ret, view := 0, None;
      if !validated {
        return EINVAL, view;
      }
      if !active {
        return EACCES, view;
      }
      if due == [] {
        return;
      }
      if recording {
        view := RecordKeypress();
      }
      for i := 0 to |due|
        invariant Valid() && guard.freezes == guard.thaws + (if tapFrozen then 1 else 0)
        invariant tapFrozen == (old(recording) && tapHasGuard)
        invariant guard.freezes == old(guard.freezes) + (if tapFrozen then 1 else 0)
        invariant tapFrozen ==>
                    && guard.Frozen() == view
                    && FollowAll(due, view, guard.window) == FollowAll(due[i..], view, guard.window)
      {
        assert due[i..][1..] == due[i + 1..];
        ret := CallStage(due[i]);
        if ret < 0 {
          Done();
          return;
        }
      }
      ret := 0;
      Done();
    }
  }
}
