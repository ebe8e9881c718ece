/** Route overrides by key position, the newest press winning (src/core/route_override.c). */
module RouteOverride {
  import opened Bytes
  import opened Errno

  // ----- the table as a list, oldest press first -----

  datatype Override = Override(position: uint32, pipeline: nat)

  function Without(list: seq<Override>, position: uint32): (rest: seq<Override>)
    ensures |rest| <= |list|
  {
    if list == [] then []
    else (if list[0].position == position then [] else [list[0]]) + Without(list[1..], position)
  }

  ghost predicate HasPosition(list: seq<Override>, position: uint32) {
    exists o <- list :: o.position == position
  }

  ghost predicate Distinct(list: seq<Override>) {
    forall i, j | 0 <= i < j < |list| :: list[i].position != list[j].position
  }

  datatype Event = Pressed(position: uint32, pipeline: nat) | Released(position: uint32)

  /** There is a slot for a press: its position's own, or one not in use. */
  ghost predicate Accepted(list: seq<Override>, capacity: nat, position: uint32) {
    HasPosition(list, position) || |list| < capacity
  }

  ghost function Apply(list: seq<Override>, capacity: nat, e: Event): seq<Override> {
    match e
    case Released(position) => Without(list, position)
    case Pressed(position, pipeline) =>
      if Accepted(list, capacity, position) then Without(list, position) + [Override(position, pipeline)] else list
  }

  lemma {:induction false} WithoutAt(list: seq<Override>, j: nat)
    requires j < |list| && Distinct(list)
    ensures Without(list, list[j].position) == list[..j] + list[j + 1..]
    decreases |list|
  {
    if j == 0 {
      WithoutNone(list[1..], list[0].position);
    } else {
      WithoutAt(list[1..], j - 1);
      assert list[..j] + list[j + 1..] == [list[0]] + (list[1..][..j - 1] + list[1..][j..]);
    }
  }

  lemma {:induction false} WithoutNone(list: seq<Override>, position: uint32)
    requires forall k | 0 <= k < |list| :: list[k].position != position
    ensures Without(list, position) == list
    decreases |list|
  {
    if list != [] {
      WithoutNone(list[1..], position);
    }
  }

  // ----- which presses are held -----

  /** The overrides after a run of presses and releases. */
  ghost function After(capacity: nat, events: seq<Event>): seq<Override>
    decreases |events|
  {
    if events == [] then []
    else Apply(After(capacity, events[..|events| - 1]), capacity, events[|events| - 1])
  }

  /** Press `i` holds its position after a run: it was accepted, and its position was neither
      released nor pressed again since. */
  ghost predicate HeldAfter(capacity: nat, events: seq<Event>, i: nat)
    requires i < |events|
  {
    && events[i].Pressed? && Accepted(After(capacity, events[..i]), capacity, events[i].position)
    && forall j | i < j < |events| :: events[j].position != events[i].position
  }

  /** The list is of those presses, in the order they were made. */
  ghost predicate Lists(list: seq<Override>, at: seq<nat>, capacity: nat, events: seq<Event>) {
    && |at| == |list|
    && (forall k | 0 <= k < |at| :: at[k] < |events| && events[at[k]] == Pressed(list[k].position, list[k].pipeline))
    && (forall j, k | 0 <= j < k < |at| :: at[j] < at[k])
    && (forall i | 0 <= i < |events| :: i in at <==> HeldAfter(capacity, events, i))
  }

  lemma HeldStays(capacity: nat, events: seq<Event>, e: Event, i: nat)
    requires i < |events|
    ensures HeldAfter(capacity, events + [e], i) <==> HeldAfter(capacity, events, i) && events[i].position != e.position
  {
    var more := events + [e];
    assert more[..i] == events[..i] && more[i] == events[i];
    if HeldAfter(capacity, more, i) {
      assert more[|events|] == e;
      forall j | i < j < |events| ensures events[j].position != events[i].position {
        assert more[j] == events[j];
      }
    }
  }

  /** The places of a list without the one at `j`. */
  function Skip(k: nat, j: nat): nat {
    if k < j then k else k + 1
  }

  /** Both lists without the place of one position, `j`; all of them if no place has it. */
  ghost predicate Dropped(list: seq<Override>, at: seq<nat>, rest: seq<Override>, left: seq<nat>, position: uint32, j: nat)
    requires |at| == |list|
  {
    && j <= |list| && |left| == |rest| == (if j < |list| then |list| - 1 else |list|)
    && (forall k | 0 <= k < |list| :: list[k].position == position <==> k == j)
    && (forall k | 0 <= k < |rest| :: rest[k] == list[Skip(k, j)])
    && (forall k | 0 <= k < |left| :: left[k] == at[Skip(k, j)])
  }

  lemma Drop(list: seq<Override>, at: seq<nat>, position: uint32) returns (left: seq<nat>, j: nat)
    requires Distinct(list) && |at| == |list|
    ensures Dropped(list, at, Without(list, position), left, position, j)
    ensures j < |list| <==> HasPosition(list, position)
    ensures HasPosition(list, position) ==> |Without(list, position)| < |list|
  {
    hide Without;
    if HasPosition(list, position) {
      var o :| o in list && o.position == position;
      j :| 0 <= j < |list| && list[j] == o;
      WithoutAt(list, j);
      left := at[..j] + at[j + 1..];
    } else {
      assert forall k | 0 <= k < |list| :: list[k] in list;
      WithoutNone(list, position);
      left, j := at, |list|;
    }
  }

  /** `rest` lists the presses of other positions that still hold theirs. */
  ghost predicate Remain(rest: seq<Override>, left: seq<nat>, capacity: nat, events: seq<Event>, position: uint32) {
    && Distinct(rest) && |left| == |rest| && (forall k | 0 <= k < |rest| :: rest[k].position != position)
    && (forall k | 0 <= k < |left| :: left[k] < |events| && events[left[k]] == Pressed(rest[k].position, rest[k].pipeline))
    && (forall j, k | 0 <= j < k < |left| :: left[j] < left[k])
    && (forall i | 0 <= i < |events| :: i in left <==> HeldAfter(capacity, events, i) && events[i].position != position)
  }

  /** Dropping a position's override leaves the presses of other positions, in order. */
  lemma DropLists(capacity: nat, events: seq<Event>, position: uint32, list: seq<Override>, at: seq<nat>,
                  rest: seq<Override>, left: seq<nat>, j: nat)
    requires |at| == |list| && Distinct(list) && Lists(list, at, capacity, events)
    requires Dropped(list, at, rest, left, position, j)
    ensures Remain(rest, left, capacity, events, position)
  {
    hide HeldAfter;
    forall i | 0 <= i < |events| ensures i in left <==> HeldAfter(capacity, events, i) && events[i].position != position {
      StillIn(capacity, events, position, list, at, rest, left, i, j);
    }
    DropApart(list, at, rest, left, position, j);
    DropInOrder(capacity, events, position, list, at, rest, left, j);
  }

  lemma DropApart(list: seq<Override>, at: seq<nat>, rest: seq<Override>, left: seq<nat>, position: uint32, j: nat)
    requires |at| == |list| && Distinct(list) && Dropped(list, at, rest, left, position, j)
    ensures Distinct(rest) && forall k | 0 <= k < |rest| :: rest[k].position != position
  {
    forall a, b | 0 <= a < b < |rest| ensures rest[a].position != rest[b].position {
      assert Skip(a, j) < Skip(b, j);
    }
  }

  lemma DropInOrder(capacity: nat, events: seq<Event>, position: uint32, list: seq<Override>, at: seq<nat>,
                    rest: seq<Override>, left: seq<nat>, j: nat)
    requires |at| == |list| && Lists(list, at, capacity, events)
    requires Dropped(list, at, rest, left, position, j)
    ensures forall k | 0 <= k < |left| :: left[k] < |events| && events[left[k]] == Pressed(rest[k].position, rest[k].pipeline)
    ensures forall a, b | 0 <= a < b < |left| :: left[a] < left[b]
  {
    hide HeldAfter;
    forall a, b | 0 <= a < b < |left| ensures left[a] < left[b] {
      assert Skip(a, j) < Skip(b, j);
    }
  }

  lemma StillIn(capacity: nat, events: seq<Event>, position: uint32, list: seq<Override>, at: seq<nat>,
                rest: seq<Override>, left: seq<nat>, i: nat, j: nat)
    requires |at| == |list| && Lists(list, at, capacity, events) && i < |events|
    requires Dropped(list, at, rest, left, position, j)
    ensures i in left <==> HeldAfter(capacity, events, i) && events[i].position != position
  {
    hide HeldAfter;
    if k :| 0 <= k < |left| && left[k] == i {
      assert at[Skip(k, j)] == i;
    }
    if k :| 0 <= k < |at| && at[k] == i && k != j {
      assert left[if k < j then k else k - 1] == i;
    }
  }

  /** The table holds exactly the presses that still hold their positions, in the order they
      were made, never more than its capacity, and no position twice. */
  lemma {:induction false} HoldsNewest(capacity: nat, events: seq<Event>) returns (at: seq<nat>)
    ensures Lists(After(capacity, events), at, capacity, events)
    ensures Distinct(After(capacity, events)) && |After(capacity, events)| <= capacity
    decreases |events|
  {
    if events == [] {
      at := [];
    } else {
      var before, e := events[..|events| - 1], events[|events| - 1];
      assert events == before + [e];
      at := HoldsNewest(capacity, before);
      at := Next(capacity, before, e, at);
    }
  }

  lemma Next(capacity: nat, events: seq<Event>, e: Event, at: seq<nat>) returns (at': seq<nat>)
    requires Lists(After(capacity, events), at, capacity, events)
    requires Distinct(After(capacity, events)) && |After(capacity, events)| <= capacity
    ensures Lists(Apply(After(capacity, events), capacity, e), at', capacity, events + [e])
    ensures Distinct(Apply(After(capacity, events), capacity, e)) && |Apply(After(capacity, events), capacity, e)| <= capacity
  {
    hide HeldAfter, HasPosition, After, Dropped, Lists, Distinct, Remain;
    var list := After(capacity, events);
    assert |at| == |list| by {
      SameLength(list, at, capacity, events);
    }
    var left, j := Drop(list, at, e.position);
    DropLists(capacity, events, e.position, list, at, Without(list, e.position), left, j);
    if e.Released? {
      at' := left;
      ReleasedLists(capacity, events, e, Without(list, e.position), left);
    } else if Accepted(list, capacity, e.position) {
      at' := left + [|events|];
      PressedLists(capacity, events, e, Without(list, e.position), left);
    } else {
      at' := at;
      RefusedLists(capacity, events, e, list, at);
    }
  }

  lemma SameLength(list: seq<Override>, at: seq<nat>, capacity: nat, events: seq<Event>)
    requires Lists(list, at, capacity, events)
    ensures |at| == |list|
  {
  }

  lemma HeldAfterOne(capacity: nat, events: seq<Event>, e: Event)
    ensures forall i | 0 <= i < |events| ::
      HeldAfter(capacity, events + [e], i) <==> HeldAfter(capacity, events, i) && events[i].position != e.position
  {
    forall i | 0 <= i < |events|
      ensures HeldAfter(capacity, events + [e], i) <==> HeldAfter(capacity, events, i) && events[i].position != e.position
    {
      HeldStays(capacity, events, e, i);
    }
  }

  lemma ReleasedLists(capacity: nat, events: seq<Event>, e: Event, rest: seq<Override>, left: seq<nat>)
    requires Remain(rest, left, capacity, events, e.position) && e.Released?
    ensures Lists(rest, left, capacity, events + [e]) && Distinct(rest)
  {
    hide HeldAfter;
    HeldAfterOne(capacity, events, e);
    HeldLast(capacity, events, e);
  }

  lemma PressedLists(capacity: nat, events: seq<Event>, e: Event, rest: seq<Override>, left: seq<nat>)
    requires Remain(rest, left, capacity, events, e.position) && e.Pressed?
    requires Accepted(After(capacity, events), capacity, e.position)
    ensures Lists(rest + [Override(e.position, e.pipeline)], left + [|events|], capacity, events + [e])
    ensures Distinct(rest + [Override(e.position, e.pipeline)])
  {
    hide HeldAfter, Accepted, After;
    HeldAfterOne(capacity, events, e);
    HeldLast(capacity, events, e);
  }

  lemma RefusedLists(capacity: nat, events: seq<Event>, e: Event, list: seq<Override>, at: seq<nat>)
    requires Lists(list, at, capacity, events) && list == After(capacity, events)
    requires e.Pressed? && !Accepted(list, capacity, e.position)
    ensures Lists(list, at, capacity, events + [e])
  {
    hide HeldAfter, HasPosition, After;
    HeldAfterOne(capacity, events, e);
    HeldLast(capacity, events, e);
    RefusedApart(capacity, events, e, list, at);
  }

  lemma HeldLast(capacity: nat, events: seq<Event>, e: Event)
    ensures HeldAfter(capacity, events + [e], |events|) <==> e.Pressed? && Accepted(After(capacity, events), capacity, e.position)
  {
    assert (events + [e])[..|events|] == events;
  }

  /** A press that is refused takes nothing away. */
  lemma RefusedApart(capacity: nat, events: seq<Event>, e: Event, list: seq<Override>, at: seq<nat>)
    requires |at| == |list| && Lists(list, at, capacity, events) && !HasPosition(list, e.position)
    ensures forall i | 0 <= i < |events| && HeldAfter(capacity, events, i) :: events[i].position != e.position
  {
    forall i | 0 <= i < |events| && HeldAfter(capacity, events, i) ensures events[i].position != e.position {
      var k :| 0 <= k < |at| && at[k] == i;
      assert list[k] in list;
    }
  }

  /** The selected override is the newest press that still holds its position; there is one
      exactly when some press does. */
  lemma NewestWins(capacity: nat, events: seq<Event>)
    ensures var list := After(capacity, events);
            if list == [] then forall i | 0 <= i < |events| :: !HeldAfter(capacity, events, i)
            else exists n | 0 <= n < |events| :: HeldAfter(capacity, events, n)
                   && list[|list| - 1] == Override(events[n].position, events[n].pipeline)
                   && forall i | n < i < |events| :: !HeldAfter(capacity, events, i)
  {
    hide After, HeldAfter, Lists;
    var at := HoldsNewest(capacity, events);
    LastListed(After(capacity, events), at, capacity, events);
  }

  lemma LastListed(list: seq<Override>, at: seq<nat>, capacity: nat, events: seq<Event>)
    requires Lists(list, at, capacity, events)
    ensures if list == [] then forall i | 0 <= i < |events| :: !HeldAfter(capacity, events, i)
            else exists n | 0 <= n < |events| :: HeldAfter(capacity, events, n)
                   && list[|list| - 1] == Override(events[n].position, events[n].pipeline)
                   && forall i | n < i < |events| :: !HeldAfter(capacity, events, i)
  {
    hide HeldAfter;
    if list != [] {
      var n := at[|at| - 1];
      assert n in at;
      NoneLater(at);
    }
  }

  lemma NoneLater(at: seq<nat>)
    requires at != [] && forall j, k | 0 <= j < k < |at| :: at[j] < at[k]
    ensures forall i <- at :: i <= at[|at| - 1]
  {
  }

  // ----- the table -----

  /** `struct zpt_route_override`. */
  datatype Slot = Slot(position: uint32, pipeline: nat, order: nat, active: bool)

  ghost predicate AllActive(slots: seq<Slot>, held: seq<nat>, nextOrder: nat) {
    forall k | 0 <= k < |held| :: held[k] < |slots| && slots[held[k]].active && slots[held[k]].order <= nextOrder
  }

  ghost predicate Rising(slots: seq<Slot>, held: seq<nat>)
    requires forall k | 0 <= k < |held| :: held[k] < |slots|
  {
    forall j, k | 0 <= j < k < |held| ::
      slots[held[j]].order < slots[held[k]].order && slots[held[j]].position != slots[held[k]].position
  }

  /** `held` names the active slots, oldest press first. */
  ghost predicate Ordered(slots: seq<Slot>, held: seq<nat>, nextOrder: nat) {
    && AllActive(slots, held, nextOrder) && Rising(slots, held)
    && (forall i | 0 <= i < |slots| && slots[i].active :: i in held)
  }

  ghost function Listed(slots: seq<Slot>, held: seq<nat>): seq<Override>
    requires forall k | 0 <= k < |held| :: held[k] < |slots|
  {
    seq(|held|, k requires 0 <= k < |held| => Override(slots[held[k]].position, slots[held[k]].pipeline))
  }

  /** `struct zpt_route_override_table`; its slots may be missing. */
  class Table {
    var slots: array?<Slot>
    var nextOrder: nat
    ghost var held: seq<nat>

    ghost predicate Valid()
      reads this, slots
    {
      slots != null && Ordered(slots[..], held, nextOrder)
    }

    ghost function Overrides(): seq<Override>
      reads this, slots
      requires Valid()
    {
      Listed(slots[..], held)
    }

    constructor Init(slots: array?<Slot>)
      modifies slots
      ensures this.slots == slots
      ensures slots != null ==> Valid() && Overrides() == []
    {
      this.slots, nextOrder, held := slots, 0, [];
      new;
      if slots != null {
        for i := 0 to slots.Length
          invariant this.slots == slots && held == [] && nextOrder == 0
          invariant forall k | 0 <= k < i :: slots[k] == Slot(0, 0, 0, false)
        {
          slots[i] := Slot(0, 0, 0, false);
        }
      }
    }

    /** The slot a press takes: the one its position has, or else the first free one. */
    method Available(position: uint32) returns (a: nat)
      requires slots != null
      ensures a <= slots.Length
      ensures if exists i | 0 <= i < slots.Length :: slots[i].active && slots[i].position == position
              then a < slots.Length && slots[a].active && slots[a].position == position
              else if a < slots.Length then !slots[a].active
              else forall i | 0 <= i < slots.Length :: slots[i].active
    {
      a := slots.Length;
      for i := 0 to slots.Length
        invariant a <= slots.Length
        invariant forall k | 0 <= k < i :: !(slots[k].active && slots[k].position == position)
        invariant if a < slots.Length then !slots[a].active else forall k | 0 <= k < i :: slots[k].active
      {
        if slots[i].active && slots[i].position == position {
          a := i;
          break;
        }
        if !slots[i].active && a == slots.Length {
          a := i;
        }
      }
    }

    method Press(position: uint32, pipeline: nat) returns (ret: int)
      requires slots != null ==> Valid()
      modifies this`nextOrder, this`held, slots
      ensures slots == null ==> ret == EINVAL
      ensures slots != null ==> Valid() && Overrides() == Apply(old(Overrides()), slots.Length, Pressed(position, pipeline))
      ensures slots != null ==> ret == if Accepted(old(Overrides()), slots.Length, position) then 0 else ENOSPC
    {
      hide Ordered, Listed, HasPosition, Without, Apply;
      if slots == null {
        return EINVAL;
      }
      var a := Available(position);
      if a == slots.Length {
        FullTable(slots[..], held, nextOrder, position, pipeline);
        return ENOSPC;
      }
      nextOrder := nextOrder + 1;
      ghost var was := slots[..];
      slots[a] := Slot(position, pipeline, nextOrder, true);
      assert slots[..] == was[a := Slot(position, pipeline, nextOrder, true)];
      held := PressSlot(was, held, nextOrder - 1, a, position, pipeline);
      ret := 0;
    }

    method Release(position: uint32) returns (ret: int)
      requires slots != null ==> Valid()
      modifies this`held, slots
      ensures slots == null ==> ret == EINVAL
      ensures slots != null ==> ret == 0 && Valid() && Overrides() == Apply(old(Overrides()), slots.Length, Released(position))
    {
      if slots == null {
        return EINVAL;
      }
      ret := 0;
      for i := 0 to slots.Length
        invariant slots[..] == old(slots[..]) && held == old(held)
        invariant forall k | 0 <= k < i :: !(slots[k].active && slots[k].position == position)
      {
        if slots[i].active && slots[i].position == position {
          ghost var was := slots[..];
          slots[i] := slots[i].(active := false);
          assert slots[..] == was[i := was[i].(active := false)];
          held := ReleaseSlot(was, held, nextOrder, i);
          return;
        }
      }
      NotHeld(slots[..], held, nextOrder, position);
    }

    method Selected() returns (found: bool, pipeline: nat)
      requires slots != null ==> Valid()
      ensures slots == null ==> !found
      ensures slots != null ==> found == (Overrides() != [])
      ensures found ==> slots != null && pipeline == Overrides()[|Overrides()| - 1].pipeline
    {
      found, pipeline := false, 0;
      if slots == null {
        return;
      }
      var selected: nat := slots.Length;
      for i := 0 to slots.Length
        invariant selected <= slots.Length
        invariant if selected < slots.Length then slots[selected].active &&
                    forall k | 0 <= k < i && slots[k].active :: slots[k].order <= slots[selected].order
                  else forall k | 0 <= k < i :: !slots[k].active
      {
        if slots[i].active && (selected == slots.Length || slots[i].order > slots[selected].order) {
          selected := i;
        }
      }
      if selected < slots.Length {
        found, pipeline := true, slots[selected].pipeline;
        NewestSlot(slots[..], held, nextOrder, selected);
      } else {
        NoneHeld(slots[..], held, nextOrder);
      }
    }
  }

  lemma NoneHeld(slots: seq<Slot>, held: seq<nat>, nextOrder: nat)
    requires Ordered(slots, held, nextOrder)
    ensures held == [] || exists i | 0 <= i < |slots| :: slots[i].active
  {
    if held != [] {
      assert slots[held[0]].active;
    }
  }

  lemma SlotHeld(slots: seq<Slot>, held: seq<nat>, nextOrder: nat, position: uint32)
    requires Ordered(slots, held, nextOrder)
    ensures Distinct(Listed(slots, held))
    ensures HasPosition(Listed(slots, held), position) <==>
      exists i | 0 <= i < |slots| :: slots[i].active && slots[i].position == position
  {
    hide Distinct, Rising;
    DistinctHeld(slots, held, nextOrder);
    var list := Listed(slots, held);
    if HasPosition(list, position) {
      var o :| o in list && o.position == position;
      var k :| 0 <= k < |list| && list[k] == o;
      assert slots[held[k]].active;
    }
    if i :| 0 <= i < |slots| && slots[i].active && slots[i].position == position {
      var k :| 0 <= k < |held| && held[k] == i;
      assert list[k] in list;
    }
  }

  lemma DistinctHeld(slots: seq<Slot>, held: seq<nat>, nextOrder: nat)
    requires Ordered(slots, held, nextOrder)
    ensures Distinct(Listed(slots, held))
  {
  }

  /** Distinct slots are held, so at most all of them. */
  lemma HeldCount(slots: seq<Slot>, held: seq<nat>, nextOrder: nat)
    requires Ordered(slots, held, nextOrder)
    ensures |held| <= |slots|
    ensures |held| == |slots| <==> forall i | 0 <= i < |slots| :: slots[i].active
  {
    var used := set k | 0 <= k < |held| :: held[k];
    var all := Below(|slots|);
    SetSize(held, used);
    Count(|slots|);
    forall i | i in used ensures i in all {
      var k :| 0 <= k < |held| && held[k] == i;
    }
    SubsetSize(used, all);
    SubsetSize(all, used);
    if forall i | 0 <= i < |slots| :: slots[i].active {
      forall i | i in all ensures i in used {
        assert slots[i].active;
      }
    }
    if |held| == |slots| {
      forall i | 0 <= i < |slots| ensures slots[i].active {
        assert i in used;
      }
    }
  }

  lemma {:induction false} SetSize(s: seq<nat>, elements: set<nat>)
    requires forall i, j | 0 <= i < j < |s| :: s[i] != s[j]
    requires elements == set k | 0 <= k < |s| :: s[k]
    ensures |elements| == |s|
    decreases |s|
  {
    if s != [] {
      var rest := s[..|s| - 1];
      var fewer := set k | 0 <= k < |rest| :: rest[k];
      SetSize(rest, fewer);
      assert elements == fewer + {s[|s| - 1]};
    }
  }

  ghost function Below(n: nat): set<nat> {
    if n == 0 then {} else Below(n - 1) + {n - 1}
  }

  lemma {:induction false} Count(n: nat)
    ensures |Below(n)| == n && forall i: nat :: i in Below(n) <==> i < n
  {
    if n > 0 {
      Count(n - 1);
    }
  }

  lemma SubsetSize(a: set<nat>, b: set<nat>)
    ensures a <= b ==> |a| <= |b| && (|a| == |b| ==> a == b)
  {
    if a <= b {
      assert b == a + (b - a);
    }
  }

  lemma FullTable(slots: seq<Slot>, held: seq<nat>, nextOrder: nat, position: uint32, pipeline: nat)
    requires Ordered(slots, held, nextOrder) && forall i | 0 <= i < |slots| :: slots[i].active
    requires forall i | 0 <= i < |slots| :: slots[i].position != position
    ensures !Accepted(Listed(slots, held), |slots|, position)
    ensures Apply(Listed(slots, held), |slots|, Pressed(position, pipeline)) == Listed(slots, held)
  {
    SlotHeld(slots, held, nextOrder, position);
    HeldCount(slots, held, nextOrder);
  }

  lemma NotHeld(slots: seq<Slot>, held: seq<nat>, nextOrder: nat, position: uint32)
    requires Ordered(slots, held, nextOrder)
    requires forall i | 0 <= i < |slots| :: !(slots[i].active && slots[i].position == position)
    ensures Without(Listed(slots, held), position) == Listed(slots, held)
  {
    var list := Listed(slots, held);
    forall k | 0 <= k < |list| ensures list[k].position != position {
      assert slots[held[k]].active;
    }
    WithoutNone(list, position);
  }

  lemma NewestSlot(slots: seq<Slot>, held: seq<nat>, nextOrder: nat, selected: nat)
    requires Ordered(slots, held, nextOrder) && selected < |slots| && slots[selected].active
    requires forall k | 0 <= k < |slots| && slots[k].active :: slots[k].order <= slots[selected].order
    ensures held != [] && held[|held| - 1] == selected
  {
    var k :| 0 <= k < |held| && held[k] == selected;
    assert slots[held[|held| - 1]].active;
  }

  /** The held slots but the one at `j`. */
  ghost predicate Skips(held: seq<nat>, j: nat, left: seq<nat>) {
    j < |held| && |left| == |held| - 1 && forall k | 0 <= k < |left| :: left[k] == held[Skip(k, j)]
  }

  lemma LeftOthers(slots: seq<Slot>, held: seq<nat>, nextOrder: nat, j: nat, left: seq<nat>, i: nat)
    requires Ordered(slots, held, nextOrder) && Skips(held, j, left) && i == held[j]
    ensures i !in left && forall n | 0 <= n < |slots| && n != i && slots[n].active :: n in left
  {
    forall k | 0 <= k < |left| ensures left[k] != i {
      assert slots[held[Skip(k, j)]].order != slots[held[j]].order;
    }
    forall n | 0 <= n < |slots| && n != i && slots[n].active ensures n in left {
      var k :| 0 <= k < |held| && held[k] == n;
      assert left[if k < j then k else k - 1] == n;
    }
  }

  lemma LeftRising(slots: seq<Slot>, slots': seq<Slot>, held: seq<nat>, nextOrder: nat, j: nat, left: seq<nat>)
    requires AllActive(slots, held, nextOrder) && Rising(slots, held) && Skips(held, j, left) && |slots'| == |slots|
    requires forall k | 0 <= k < |left| :: left[k] < |slots| && slots'[left[k]] == slots[left[k]]
    ensures Rising(slots', left) && AllActive(slots', left, nextOrder)
  {
    forall m, k | 0 <= m < k < |left|
      ensures slots'[left[m]].order < slots'[left[k]].order && slots'[left[m]].position != slots'[left[k]].position
    {
      assert Skip(m, j) < Skip(k, j);
    }
  }

  lemma LeftOrdered(slots: seq<Slot>, held: seq<nat>, nextOrder: nat, j: nat, left: seq<nat>, i: nat)
    requires Ordered(slots, held, nextOrder) && Skips(held, j, left) && i == held[j]
    ensures i !in left && Ordered(slots[i := slots[i].(active := false)], left, nextOrder)
  {
    hide Rising;
    var slots' := slots[i := slots[i].(active := false)];
    LeftOthers(slots, held, nextOrder, j, left, i);
    forall k | 0 <= k < |left| ensures left[k] < |slots| && slots'[left[k]] == slots[left[k]] {
      assert left[k] in left && left[k] == held[Skip(k, j)];
    }
    LeftRising(slots, slots', held, nextOrder, j, left);
  }

  lemma LeftListed(slots: seq<Slot>, held: seq<nat>, nextOrder: nat, j: nat, left: seq<nat>)
    requires Ordered(slots, held, nextOrder) && Skips(held, j, left)
    ensures Listed(slots, left) == Without(Listed(slots, held), slots[held[j]].position)
  {
    var list := Listed(slots, held);
    SlotHeld(slots, held, nextOrder, slots[held[j]].position);
    WithoutAt(list, j);
    assert Listed(slots, left) == list[..j] + list[j + 1..];
  }

  /** Slots that are not listed don't matter to the list. */
  lemma ListedAgrees(slots: seq<Slot>, slots': seq<Slot>, held: seq<nat>, i: nat)
    requires |slots| == |slots'| && i !in held && forall k | 0 <= k < |slots| && k != i :: slots'[k] == slots[k]
    requires forall k | 0 <= k < |held| :: held[k] < |slots|
    ensures Listed(slots', held) == Listed(slots, held)
  {
  }

  /** A slot set inactive leaves the list without its override. */
  lemma ReleaseSlot(slots: seq<Slot>, held: seq<nat>, nextOrder: nat, i: nat) returns (left: seq<nat>)
    requires Ordered(slots, held, nextOrder) && i < |slots| && slots[i].active
    ensures i !in left && Ordered(slots[i := slots[i].(active := false)], left, nextOrder)
    ensures forall k | 0 <= k < |left| :: left[k] < |slots|
    ensures Listed(slots[i := slots[i].(active := false)], left) == Without(Listed(slots, held), slots[i].position)
  {
    hide Ordered, Without;
    var j := HeldAt(slots, held, nextOrder, i);
    left := held[..j] + held[j + 1..];
    LeftOrdered(slots, held, nextOrder, j, left, i);
    InRange(slots[i := slots[i].(active := false)], left, nextOrder);
    LeftListed(slots, held, nextOrder, j, left);
    ListedAgrees(slots, slots[i := slots[i].(active := false)], left, i);
  }

  lemma HeldAt(slots: seq<Slot>, held: seq<nat>, nextOrder: nat, i: nat) returns (j: nat)
    requires Ordered(slots, held, nextOrder) && i < |slots| && slots[i].active
    ensures j < |held| && held[j] == i
    ensures forall k | 0 <= k < |held| :: held[k] < |slots|
  {
    j :| 0 <= j < |held| && held[j] == i;
  }

  lemma InRange(slots: seq<Slot>, held: seq<nat>, nextOrder: nat)
    requires Ordered(slots, held, nextOrder)
    ensures forall k | 0 <= k < |held| :: held[k] < |slots|
  {
  }

  /** An inactive slot, pressed at a position no other slot has, comes last. */
  lemma PressFree(slots: seq<Slot>, held: seq<nat>, order: nat, a: nat, position: uint32, pipeline: nat)
    requires Ordered(slots, held, order) && a < |slots| && !slots[a].active
    requires forall i | 0 <= i < |slots| && slots[i].active :: slots[i].position != position
    ensures Ordered(slots[a := Slot(position, pipeline, order + 1, true)], held + [a], order + 1)
    ensures Listed(slots[a := Slot(position, pipeline, order + 1, true)], held + [a])
         == Listed(slots, held) + [Override(position, pipeline)]
  {
    var slots' := slots[a := Slot(position, pipeline, order + 1, true)];
    assert a !in held by {
      forall k | 0 <= k < |held| ensures held[k] != a {
        assert slots[held[k]].active;
      }
    }
    forall i | 0 <= i < |slots'| && slots'[i].active ensures i in held + [a] {
      if i != a {
        assert slots[i].active;
      }
    }
    forall k | 0 <= k < |held| ensures slots'[held[k]] == slots[held[k]] && slots[held[k]].position != position {
      assert slots[held[k]].active;
    }
  }

  lemma OnlyOne(slots: seq<Slot>, held: seq<nat>, order: nat, a: nat)
    requires Ordered(slots, held, order) && a < |slots| && slots[a].active
    ensures forall i | 0 <= i < |slots| && i != a && slots[i].active :: slots[i].position != slots[a].position
  {
    forall i | 0 <= i < |slots| && i != a && slots[i].active ensures slots[i].position != slots[a].position {
      var j := HeldAt(slots, held, order, i);
      var k := HeldAt(slots, held, order, a);
      assert j < k || k < j;
    }
  }

  /** A slot pressed goes to the end of the list. */
  lemma PressSlot(slots: seq<Slot>, held: seq<nat>, order: nat, a: nat, position: uint32, pipeline: nat) returns (held': seq<nat>)
    requires Ordered(slots, held, order) && a < |slots|
    requires if exists i | 0 <= i < |slots| :: slots[i].active && slots[i].position == position
             then slots[a].active && slots[a].position == position else !slots[a].active
    ensures Ordered(slots[a := Slot(position, pipeline, order + 1, true)], held', order + 1)
    ensures forall k | 0 <= k < |held| :: held[k] < |slots|
    ensures forall k | 0 <= k < |held'| :: held'[k] < |slots|
    ensures Accepted(Listed(slots, held), |slots|, position)
    ensures Listed(slots[a := Slot(position, pipeline, order + 1, true)], held')
         == Apply(Listed(slots, held), |slots|, Pressed(position, pipeline))
  {
    hide Ordered, Without, HasPosition;
    InRange(slots, held, order);
    SlotHeld(slots, held, order, position);
    HeldCount(slots, held, order);
    if slots[a].active {
      var left := ReleaseSlot(slots, held, order, a);
      var freed := slots[a := slots[a].(active := false)];
      OnlyOne(slots, held, order, a);
      PressFree(freed, left, order, a, position, pipeline);
      assert freed[a := Slot(position, pipeline, order + 1, true)] == slots[a := Slot(position, pipeline, order + 1, true)];
      held' := left + [a];
    } else {
      NotHeld(slots, held, order, position);
      PressFree(slots, held, order, a, position, pipeline);
      held' := held + [a];
    }
  }
}
