/**
 * The lock order of the page cache avoids deadlock.
 *
 * A task waits for a slot lock only while it holds none, and whoever holds one can always move on, so a slot that is
 * waited for can always be given up by those who hold it.
 */
module PageCacheProgress {
  import opened Basics
  import opened PageCacheTypes
  import opened Pages
  import opened PageCacheProtocol
  import opened PageCacheInvariant
  import opened PageCacheTheorems
  import opened PageCacheLocked

  /** An upper bound on the steps of its own a task needs to give up the slot it is on; zero if it is on none. */
  function Rank(pc: Pc): nat {
    match pc
    case Evicting(_, _, _) => 10
    case Unmapped(_, _, _) => 9
    case Vacant(_, _, _) => 8
    case Mapped(_, _, _) => 7
    case Filling(_, _, _) => 6
    case Undoing(_, _, _) => 5
    case Undone(_, _) => 4
    case Checking(_, _, _, _) => 3
    case Reading(_, _, _, _) => 2
    case Releasing(_, _) => 1
    case _ => 0
  }

  /** The next step of a task on a slot on its way to giving it up. */
  function Move(pc: Pc): Step
    requires Rank(pc) > 0
  {
    match pc
    case Evicting(_, _, _) => Evict
    case Unmapped(_, _, _) => ClearKey
    case Vacant(_, _, _) => Insert
    case Mapped(_, _, _) => SetKey
    case Filling(_, _, _) => DropGuard
    case Undoing(_, _, _) => UndoKey
    case Undone(_, _) => UndoRelease
    case Checking(_, _, _, _) => Check
    case Reading(_, _, _, _) => DropPermit
    case Releasing(_, _) => DropLock
  }

  lemma OnSlotHasRank(pc: Pc, i: nat)
    requires OnSlot(pc, i)
    ensures Rank(pc) > 0 && HasSlot(pc) && pc.slot == i
  {
  }

  /** A task on a slot is never blocked. */
  lemma HolderCanMove(truth: CacheKey -> Page, s: State, u: TaskId)
    requires LockInv(s) && u in s.tasks && Rank(s.tasks[u]) > 0
    ensures Enabled(truth, s, u, Move(s.tasks[u]))
  {
    assert InRange(s.tasks[u], |s.slots|);
  }

  /**
   * Every step of a task on a slot, except filling it, brings it closer to giving the slot up; it takes no other slot.
   */
  lemma StepsRelease(truth: CacheKey -> Page, s: State, u: TaskId, step: Step)
    requires Enabled(truth, s, u, step) && Rank(s.tasks[u]) > 0 && !step.Fill?
    ensures Rank(NextPc(truth, s, u, step)) < Rank(s.tasks[u])
    ensures forall i: nat | OnSlot(NextPc(truth, s, u, step), i) :: OnSlot(s.tasks[u], i)
  {
  }

  /** Whoever waits for a slot can have it, or someone on the slot can move on. */
  lemma WaiterOrHolderMoves(truth: CacheKey -> Page, s: State, t: TaskId)
    requires Reachable(truth, s) && t in s.tasks && s.tasks[t].Waiting?
    ensures Enabled(truth, s, t, Lock)
         || exists u <- s.tasks :: OnSlot(s.tasks[u], s.tasks[t].slot) && Enabled(truth, s, u, Move(s.tasks[u]))
  {
    ReachableInv(truth, s);
    var i := s.tasks[t].slot;
    assert InRange(s.tasks[t], |s.slots|);
    if !Unlocked(s.slots[i]) {
      var u := SomeHolder(s, i);
      OnSlotHasRank(s.tasks[u], i);
      HolderCanMove(truth, s, u);
    }
  }

  lemma SomeHolder(s: State, i: nat) returns (u: TaskId)
    requires LockInv(s) && i < |s.slots| && !Unlocked(s.slots[i])
    ensures u in s.tasks && OnSlot(s.tasks[u], i)
  {
    assert LockShape(s.slots[i], s.tasks.Keys);
    u :| u in s.tasks && (u in s.slots[i].readers || s.slots[i].writer == Some(u));
    assert LockAgrees(s.tasks[u], s.slots[i], u, i);
  }

  // Giving up locks

  lemma SlotCountStays(truth: CacheKey -> Page, s: State, t: TaskId, step: Step)
    requires Enabled(truth, s, t, step)
    ensures |Apply(truth, s, t, step).slots| == |s.slots|
  {
  }

  /** `s'` differs from `s` in the place of task `u` only, as far as tasks and the number of slots go. */
  ghost predicate OnlyMoves(s: State, s': State, u: TaskId, pc: Pc) {
    |s'.slots| == |s.slots| && s'.tasks == s.tasks[u := pc]
  }

  lemma MoveOnce(truth: CacheKey -> Page, s: State, u: TaskId) returns (s': State, pc: Pc)
    requires Reachable(truth, s) && u in s.tasks && Rank(s.tasks[u]) > 0
    ensures Reachable(truth, s') && OnlyMoves(s, s', u, pc)
    ensures Rank(pc) < Rank(s.tasks[u]) && forall i: nat | OnSlot(pc, i) :: OnSlot(s.tasks[u], i)
  {
    ReachableInv(truth, s);
    var step := Move(s.tasks[u]);
    HolderCanMove(truth, s, u);
    StepsRelease(truth, s, u, step);
    OnlyOwnPcMoves(truth, s, u, step);
    SlotCountStays(truth, s, u, step);
    s' := Take(truth, s, u, step);
    pc := NextPc(truth, s, u, step);
  }

  lemma {:induction false} Release(truth: CacheKey -> Page, s: State, u: TaskId) returns (s': State, pc: Pc)
    requires Reachable(truth, s) && u in s.tasks
    ensures Reachable(truth, s') && OnlyMoves(s, s', u, pc) && Rank(pc) == 0
    decreases if u in s.tasks then Rank(s.tasks[u]) else 0
  {
    if Rank(s.tasks[u]) == 0 {
      s', pc := s, s.tasks[u];
      assert s.tasks == s.tasks[u := pc];
    } else {
      var s1, pc1 := MoveOnce(truth, s, u);
      s', pc := Release(truth, s1, u);
      assert s.tasks[u := pc1][u := pc] == s.tasks[u := pc];
    }
  }

  ghost function Holders(s: State, i: nat): set<TaskId> { set t <- s.tasks | OnSlot(s.tasks[t], i) }

  /** Those on slot `i` can give it up, without any other task moving. */
  lemma {:induction false} FreeSlot(truth: CacheKey -> Page, s: State, i: nat) returns (s': State)
    requires Reachable(truth, s)
    ensures Reachable(truth, s') && |s'.slots| == |s.slots| && s'.tasks.Keys == s.tasks.Keys && Holders(s', i) == {}
    ensures forall t <- s.tasks | t !in Holders(s, i) :: s'.tasks[t] == s.tasks[t]
    decreases |Holders(s, i)|
  {
    if Holders(s, i) == {} {
      s' := s;
    } else {
      var u :| u in Holders(s, i);
      var s1, pc := Release(truth, s, u);
      assert Holders(s1, i) == Holders(s, i) - {u};
      s' := FreeSlot(truth, s1, i);
    }
  }

  lemma LockedHasHolder(s: State, i: nat)
    requires LockInv(s) && i < |s.slots|
    ensures Unlocked(s.slots[i]) || Holders(s, i) != {}
  {
    if !Unlocked(s.slots[i]) {
      var u := SomeHolder(s, i);
      assert u in Holders(s, i);
    }
  }

  /** No deadlock: whoever waits for a slot can get it, once those on the slot have moved on and nobody else has to. */
  lemma WaiterCanLock(truth: CacheKey -> Page, s: State, t: TaskId) returns (s': State)
    requires Reachable(truth, s) && t in s.tasks && s.tasks[t].Waiting?
    ensures Reachable(truth, s') && t in s'.tasks && s'.tasks[t] == s.tasks[t] && Enabled(truth, s', t, Lock)
    ensures s'.tasks.Keys == s.tasks.Keys
    ensures forall u <- s.tasks | u !in Holders(s, s.tasks[t].slot) :: s'.tasks[u] == s.tasks[u]
  {
    ReachableInv(truth, s);
    var i := s.tasks[t].slot;
    assert InRange(s.tasks[t], |s.slots|);
    s' := FreeSlot(truth, s, i);
    assert t !in Holders(s, i);
    ReachableInv(truth, s');
    LockedHasHolder(s', i);
  }

  /** A task in the clock can get any slot it likes in the same way. */
  lemma ClockCanSeize(truth: CacheKey -> Page, s: State, t: TaskId, i: nat) returns (s': State)
    requires Reachable(truth, s) && t in s.tasks && s.tasks[t].Clock? && i < |s.slots|
    ensures Reachable(truth, s') && t in s'.tasks && s'.tasks[t] == s.tasks[t] && Enabled(truth, s', t, TryWrite(i))
    ensures s'.tasks.Keys == s.tasks.Keys
    ensures forall u <- s.tasks | u !in Holders(s, i) :: s'.tasks[u] == s.tasks[u]
  {
    s' := FreeSlot(truth, s, i);
    assert t !in Holders(s, i);
    ReachableInv(truth, s');
    LockedHasHolder(s', i);
  }
}
