/** The watcher slots of the engine (pkg/engine/watchermanager.go): a slice with reuse and lazy removal,
    proved to behave as a set of live watchers.

    Whether a watcher is finished is asked once per slot and scan, so each call takes the answers of
    that scan as a function; the answers may differ from scan to scan.
 */
module Watchers {
  import opened Text

  type Id = nat

  type Slots = seq<Option<Id>>

  function CountUsed(slots: Slots): nat {
    if slots == [] then 0
    else CountUsed(slots[..|slots| - 1]) + if slots[|slots| - 1].Some? then 1 else 0
  }

  /* ---------- what the two operations do to the slots ---------- */

  predicate Keeps(slot: Option<Id>, drop: Id -> bool) {
    slot.Some? && !drop(slot.value)
  }

  /** The slots with the dropped watchers removed. */
  function Cleared(slots: Slots, drop: Id -> bool): (r: Slots)
    ensures |r| == |slots|
    ensures forall i :: 0 <= i < |slots| ==> r[i] == if Keeps(slots[i], drop) then slots[i] else None
  {
    seq(|slots|, i requires 0 <= i < |slots| => if Keeps(slots[i], drop) then slots[i] else None)
  }

  function FirstFree(slots: Slots): (i: nat)
    ensures i <= |slots| && (i < |slots| ==> slots[i].None?)
    ensures forall j :: 0 <= j < i ==> slots[j].Some?
  {
    if slots == [] || slots[0].None? then 0
    else
      var r := 1 + FirstFree(slots[1..]);
      assert forall j :: 1 <= j < r ==> slots[j] == slots[1..][j - 1];
      r
  }

  /** The new watcher takes the first free slot, or a new one at the end. */
  function Placed(slots: Slots, w: Id): Slots {
    var i := FirstFree(slots);
    if i < |slots| then slots[i := Some(w)] else slots + [Some(w)]
  }

  function AfterWatch(slots: Slots, w: Id, done: Id -> bool): Slots {
    Placed(Cleared(slots, done), w)
  }

  function Stops(done: Id -> bool, keepGoing: Id -> bool): Id -> bool {
    (x: Id) => done(x) || !keepGoing(x)
  }

  function AfterNotify(slots: Slots, done: Id -> bool, keepGoing: Id -> bool): Slots {
    Cleared(slots, Stops(done, keepGoing))
  }

  /** The watchers called by a notification, in slot order. */
  function Called(slots: Slots, done: Id -> bool): seq<Id> {
    if slots == [] then []
    else
      var last := slots[|slots| - 1];
      Called(slots[..|slots| - 1], done) + if Keeps(last, done) then [last.value] else []
  }

  /* ---------- the scan, slot by slot ---------- */

  /** A slot that is free once the finished watchers are gone lies below i. */
  ghost predicate FreeBelow(was: Slots, done: Id -> bool, i: int) {
    FirstFree(Cleared(was, done)) < i
  }

  /** What the scan leaves in slot j: the new watcher in the first free one. */
  function SlotAfter(was: Slots, w: Id, done: Id -> bool, j: int): Option<Id>
    requires 0 <= j < |was|
  {
    if j == FirstFree(Cleared(was, done)) then Some(w) else Cleared(was, done)[j]
  }

  /** The slots below i are done, the others as they were. */
  ghost predicate Scanned(slots: Slots, was: Slots, w: Id, done: Id -> bool, i: int) {
    && |slots| == |was|
    && (forall j :: 0 <= j < i && j < |was| ==> slots[j] == SlotAfter(was, w, done, j))
    && forall j :: i <= j < |was| && 0 <= j ==> slots[j] == was[j]
  }

  lemma NothingScanned(was: Slots, w: Id, done: Id -> bool)
    ensures Scanned(was, was, w, done, 0) && !FreeBelow(was, done, 0) && CountUsed(was[..0]) == 0
  {
  }

  lemma ScanSlot(slots: Slots, was: Slots, w: Id, done: Id -> bool, i: int)
    requires 0 <= i < |was| && Scanned(slots, was, w, done, i)
    ensures var free := slots[i].None? || done(slots[i].value);
            var next := if !free then slots[i] else if FreeBelow(was, done, i) then None else Some(w);
            && Scanned(slots[i := next], was, w, done, i + 1)
            && (FreeBelow(was, done, i + 1) <==> FreeBelow(was, done, i) || free)
            && slots[i := slots[i]] == slots
  {
    hide FirstFree, Cleared;
    var free := slots[i].None? || done(slots[i].value);
    var next := if !free then slots[i] else if FreeBelow(was, done, i) then None else Some(w);
    SlotIs(was, w, done, i);
    hide SlotAfter, FreeBelow;
    assert slots[i := slots[i]] == slots;
    assert next == SlotAfter(was, w, done, i);
  }

  lemma SlotIs(was: Slots, w: Id, done: Id -> bool, i: int)
    requires 0 <= i < |was|
    ensures var free := was[i].None? || done(was[i].value);
            && SlotAfter(was, w, done, i) == (if !free then was[i] else if FreeBelow(was, done, i) then None else Some(w))
            && (FreeBelow(was, done, i + 1) <==> FreeBelow(was, done, i) || free)
  {
    hide FirstFree, Cleared;
    var cleared := Cleared(was, done);
    assert cleared[i].None? <==> was[i].None? || done(was[i].value);
    assert i < FirstFree(cleared) ==> cleared[i].Some?;
  }

  lemma CountNext(before: Slots, after: Slots, i: int)
    requires 0 <= i < |before| == |after| && forall j :: 0 <= j < i ==> after[j] == before[j]
    ensures CountUsed(after[..i + 1]) == CountUsed(before[..i]) + if after[i].Some? then 1 else 0
  {
    assert after[..i + 1][..i] == before[..i];
  }

  lemma AllScanned(slots: Slots, was: Slots, w: Id, done: Id -> bool)
    requires Scanned(slots, was, w, done, |was|)
    ensures slots[..|slots|] == slots
    ensures AfterWatch(was, w, done) == if FreeBelow(was, done, |was|) then slots else slots + [Some(w)]
  {
    hide FirstFree, Cleared;
  }

  lemma CountAppended(slots: Slots, w: Id)
    ensures CountUsed(slots + [Some(w)]) == CountUsed(slots) + 1
  {
    assert (slots + [Some(w)])[..|slots|] == slots;
  }

  class WatcherManager {
    var watchers: Slots

    constructor ()
      ensures watchers == []
    {
      watchers := [];
    }

    /** WatchPackageRevisions: one scan that removes finished watchers and slots the new one in. */
    method WatchPackageRevisions(w: Id, done: Id -> bool) returns (active: nat)
      modifies this
      ensures watchers == AfterWatch(old(watchers), w, done)
      ensures active == CountUsed(watchers)
    {
      hide *;
      ghost var was := watchers;
      active := 0;
      var inserted := false;
      NothingScanned(was, w, done);
      for i := 0 to |watchers|
        invariant |watchers| == |was|
        invariant Scanned(watchers, was, w, done, i)
        invariant inserted <==> FreeBelow(was, done, i)
        invariant active == CountUsed(watchers[..i])
      {
        ghost var before := watchers;
        ScanSlot(before, was, w, done, i);
        match watchers[i] {
          case Some(x) =>
            if done(x) {
              if !inserted {
                watchers := watchers[i := Some(w)];
                inserted := true;
                active := active + 1;
              } else {
                watchers := watchers[i := None];
              }
            } else {
              active := active + 1;
            }
          case None =>
            if !inserted {
              active := active + 1;
              watchers := watchers[i := Some(w)];
              inserted := true;
            }
        }
        CountNext(before, watchers, i);
      }
      AllScanned(watchers, was, w, done);
      if !inserted {
        CountAppended(watchers, w);
        active := active + 1;
        watchers := watchers + [Some(w)];
      }
    }

    /** NotifyPackageRevisionChange; `calls` are the callbacks made. */
    method NotifyPackageRevisionChange(done: Id -> bool, keepGoing: Id -> bool) returns (sent: nat, calls: seq<Id>)
      modifies this
      ensures watchers == AfterNotify(old(watchers), done, keepGoing)
      ensures calls == Called(old(watchers), done) && sent == |calls|
    {
      ghost var was := watchers;
      ghost var target := AfterNotify(was, done, keepGoing);
      sent, calls := 0, [];
      for i := 0 to |watchers|
        invariant |watchers| == |was|
        invariant forall j :: 0 <= j < i ==> watchers[j] == target[j]
        invariant forall j :: i <= j < |was| ==> watchers[j] == was[j]
        invariant calls == Called(was[..i], done) && sent == |calls|
      {
        assert was[..i + 1][..i] == was[..i];
        match watchers[i] {
          case None =>
          case Some(x) =>
            if done(x) {
              watchers := watchers[i := None];
            } else {
              calls := calls + [x];
              if !keepGoing(x) { watchers := watchers[i := None]; }
              sent := sent + 1;
            }
        }
      }
      assert was[..|was|] == was;
    }
  }

  /* ---------- slots as a set ---------- */

  ghost predicate Distinct(slots: Slots) {
    forall i, j :: 0 <= i < j < |slots| && slots[i].Some? && slots[j].Some? ==> slots[i] != slots[j]
  }

  ghost function Live(slots: Slots): set<Id> {
    set s | s in slots && s.Some? :: s.value
  }

  lemma ClearedLive(slots: Slots, drop: Id -> bool)
    requires Distinct(slots)
    ensures Distinct(Cleared(slots, drop))
    ensures Live(Cleared(slots, drop)) == set x | x in Live(slots) && !drop(x)
  {
  }

  lemma PlacedLive(slots: Slots, w: Id)
    requires Distinct(slots) && w !in Live(slots)
    ensures Distinct(Placed(slots, w)) && Live(Placed(slots, w)) == Live(slots) + {w}
  {
  }

  lemma LiveFront(slots: Slots)
    requires slots != [] && Distinct(slots)
    ensures var front, last := slots[..|slots| - 1], slots[|slots| - 1];
            && Distinct(front)
            && Live(slots) == Live(front) + (if last.Some? then {last.value} else {})
            && (last.Some? ==> last.value !in Live(front))
  {
  }

  lemma {:induction false} UsedIsLive(slots: Slots)
    requires Distinct(slots)
    ensures CountUsed(slots) == |Live(slots)|
  {
    if slots == [] {
      assert Live(slots) == {};
    } else {
      hide Live, Distinct;
      LiveFront(slots);
      UsedIsLive(slots[..|slots| - 1]);
    }
  }

  lemma {:induction false} UsedAtMostSlots(slots: Slots)
    ensures CountUsed(slots) <= |slots|
    ensures (forall i :: 0 <= i < |slots| ==> slots[i].Some?) ==> CountUsed(slots) == |slots|
  {
    if slots != [] { UsedAtMostSlots(slots[..|slots| - 1]); }
  }

  /** A notification calls each live, unfinished watcher exactly once. */
  lemma {:induction false} CalledOnce(slots: Slots, done: Id -> bool)
    requires Distinct(slots)
    ensures forall x :: multiset(Called(slots, done))[x] == if x in Live(slots) && !done(x) then 1 else 0
  {
    if slots != [] {
      hide Live, Distinct;
      LiveFront(slots);
      CalledOnce(slots[..|slots| - 1], done);
    }
  }

  /* ---------- runs ---------- */

  datatype Op =
    | Register(w: Id, done: Id -> bool)
    | Notify(done: Id -> bool, keepGoing: Id -> bool)

  function Apply(slots: Slots, op: Op): Slots {
    match op
    case Register(w, done) => AfterWatch(slots, w, done)
    case Notify(done, keepGoing) => AfterNotify(slots, done, keepGoing)
  }

  /** The specification: the live watchers, those seen finished or having declined, and the largest
      number ever active together. */
  datatype Spec = Spec(live: set<Id>, gone: set<Id>, peak: nat)

  function Step(s: Spec, op: Op): Spec {
    var finished := set x | x in s.live && op.done(x);
    match op
    case Register(w, _) =>
      var live := s.live - finished + {w};
      Spec(live, s.gone + finished, if |live| > s.peak then |live| else s.peak)
    case Notify(_, keepGoing) =>
      var declined := set x | x in s.live - finished && !keepGoing(x);
      Spec(s.live - finished - declined, s.gone + finished + declined, s.peak)
  }

  /** Every registration brings a watcher of its own. */
  predicate Enabled(s: Spec, op: Op) {
    op.Register? ==> op.w !in s.live && op.w !in s.gone
  }

  function RunSlots(ops: seq<Op>): Slots {
    if ops == [] then [] else Apply(RunSlots(ops[..|ops| - 1]), ops[|ops| - 1])
  }

  function RunSpec(ops: seq<Op>): Spec {
    if ops == [] then Spec({}, {}, 0) else Step(RunSpec(ops[..|ops| - 1]), ops[|ops| - 1])
  }

  predicate Possible(ops: seq<Op>) {
    ops == [] || (Possible(ops[..|ops| - 1]) && Enabled(RunSpec(ops[..|ops| - 1]), ops[|ops| - 1]))
  }

  ghost predicate Refines(slots: Slots, s: Spec) {
    Distinct(slots) && Live(slots) == s.live && s.live !! s.gone && |slots| == s.peak
  }

  lemma StepRefines(slots: Slots, s: Spec, op: Op)
    requires Refines(slots, s) && Enabled(s, op)
    ensures Refines(Apply(slots, op), Step(s, op))
  {
    hide Distinct, Live, Cleared, Placed;
    match op {
      case Register(w, done) => RegisterRefines(slots, s, w, done);
      case Notify(done, keepGoing) =>
        ClearedLive(slots, Stops(done, keepGoing));
        assert Step(s, op).live == set x | x in Live(slots) && !Stops(done, keepGoing)(x);
    }
  }

  lemma RegisterRefines(slots: Slots, s: Spec, w: Id, done: Id -> bool)
    requires Refines(slots, s) && w !in s.live && w !in s.gone
    ensures Refines(AfterWatch(slots, w, done), Step(s, Register(w, done)))
  {
    hide Distinct, Live;
    var cleared := Cleared(slots, done);
    ClearedLive(slots, done);
    PlacedLive(cleared, w);
    var after := Placed(cleared, w);
    assert Live(after) == s.live - (set x | x in s.live && done(x)) + {w};
    UsedIsLive(after);
    UsedAtMostSlots(after);
    if FirstFree(cleared) == |slots| {
      assert forall i :: 0 <= i < |after| ==> after[i].Some?;
    }
  }

  /** Over every run of registrations and notifications, with watchers finishing and declining at any
      time: no watcher is in two slots, the slots hold exactly the live ones, none that was seen
      finished or declined is among them, and the number of slots is the largest number ever active
      together. */
  lemma {:induction false} SlotsRefineSet(ops: seq<Op>)
    requires Possible(ops)
    ensures Refines(RunSlots(ops), RunSpec(ops))
  {
    hide Refines, Apply, Step;
    if ops == [] {
      EmptyRefines();
    } else {
      SlotsRefineSet(ops[..|ops| - 1]);
      StepRefines(RunSlots(ops[..|ops| - 1]), RunSpec(ops[..|ops| - 1]), ops[|ops| - 1]);
    }
  }

  lemma EmptyRefines()
    ensures Refines([], Spec({}, {}, 0))
  {
  }

  /** A notification after any run: its callbacks are the live, unfinished watchers, once each; no
      callback goes to a watcher seen finished or having declined before. */
  lemma NotificationCalls(ops: seq<Op>, done: Id -> bool)
    requires Possible(ops)
    ensures var calls, s := Called(RunSlots(ops), done), RunSpec(ops);
            && (forall x :: multiset(calls)[x] == if x in s.live && !done(x) then 1 else 0)
            && |calls| == |set x | x in s.live && !done(x)|
            && forall x | x in s.gone :: x !in calls
  {
    SlotsRefineSet(ops);
    var slots, s := RunSlots(ops), RunSpec(ops);
    CalledOnce(slots, done);
    var calls := Called(slots, done);
    forall x ensures x in calls <==> x in s.live && !done(x) {
      assert x in calls <==> x in multiset(calls);
    }
    OnceEach(calls, set x | x in s.live && !done(x));
  }

  lemma {:induction false} OnceEach(xs: seq<Id>, ids: set<Id>)
    requires forall x :: multiset(xs)[x] == if x in ids then 1 else 0
    ensures |xs| == |ids|
  {
    if xs == [] {
      assert forall x :: multiset(xs)[x] == 0;
      assert ids == {};
    } else {
      var n := |xs| - 1;
      assert xs == xs[..n] + [xs[n]];
      assert multiset(xs)[xs[n]] >= 1;
      OnceEach(xs[..n], ids - {xs[n]});
    }
  }
}
