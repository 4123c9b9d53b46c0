/**
 * When a task in `find_victim` finds every slot locked.
 *
 * A read guard drops its permit before its lock, so for a moment its slot is locked without a permit.  For every
 * cache size this module says exactly how many such slots there can be, and for how many permit holders without a slot,
 * in a state in which all slots are locked.
 */
module PageCacheLocked {
  import opened Basics
  import opened PageCacheTypes
  import opened Pages
  import opened PageCacheProtocol
  import opened PageCacheInvariant
  import opened PageCacheTheorems

  /**
   * `t` is in the clock, `departing` slots are locked without a permit, `idle` permits are with tasks without a slot.
   */
  ghost predicate InClock(s: State, t: TaskId, departing: nat, idle: nat) {
    && t in s.tasks && s.tasks[t].Clock?
    && |DepartingSlots(s)| == departing
    && |IdlePermits(s)| == idle
  }

  ghost predicate AllLocked(s: State) { forall i | 0 <= i < |s.slots| :: !Unlocked(s.slots[i]) }

  ghost predicate EverythingLocked(s: State, t: TaskId, departing: nat, idle: nat) {
    AllLocked(s) && InClock(s, t, departing, idle)
  }

  // Steps as they are used below

  lemma Take(truth: CacheKey -> Page, s: State, t: TaskId, step: Step) returns (s': State)
    requires Reachable(truth, s) && Enabled(truth, s, t, step)
    ensures s' == Apply(truth, s, t, step) && Reachable(truth, s')
  {
    s' := Apply(truth, s, t, step);
    var states: seq<State>, labels :| IsRun(truth, states, labels) && states[|labels|] == s;
    var states', labels' := states + [s'], labels + [(t, step)];
    forall i | 0 <= i < |labels'|
      ensures RunStep(truth, states', labels', i)
    {
      if i < |labels| {
        assert RunStep(truth, states, labels, i);
      }
    }
    assert IsRun(truth, states', labels') && states'[|labels'|] == s';
  }

  /** A task without a page gets a permit and enters the clock. */
  lemma EnterClock(truth: CacheKey -> Page, s: State, t: TaskId, req: Request) returns (s': State)
    requires Reachable(truth, s) && t in s.tasks && s.tasks[t].Idle? && |s.live| < |s.slots|
    requires req.ReadFile? && WellTyped(req) && req.key !in s.mapping
    ensures Reachable(truth, s')
    ensures s' == s.(tasks := s.tasks[t := Clock(req, s.nextPermit)], live := s.live + {s.nextPermit},
                     nextPermit := s.nextPermit + 1)
  {
    s' := Take(truth, s, t, Begin(req));
    s' := Take(truth, s', t, Miss);
  }

  /** ... seizes an unused slot and claims it for the page. */
  lemma Claim(truth: CacheKey -> Page, s: State, t: TaskId, i: nat) returns (s': State)
    requires Reachable(truth, s) && t in s.tasks && s.tasks[t].Clock?
    requires s.tasks[t].req.key.ImmutableFilePage? && s.tasks[t].req.key !in s.mapping
    requires i < |s.slots| && Unlocked(s.slots[i]) && s.slots[i].key.None?
    ensures Reachable(truth, s')
    ensures var req, permit := s.tasks[t].req, s.tasks[t].permit;
            s' == s.(tasks := s.tasks[t := Mapped(req, permit, i)],
                     slots := s.slots[i := s.slots[i].(writer := Some(t))],
                     mapping := s.mapping[req.key := i], immutableBytes := s.immutableBytes + PAGE_SZ)
  {
    s' := Take(truth, s, t, TryWrite(i));
    s' := Take(truth, s', t, Evict);
    s' := Take(truth, s', t, Insert);
  }

  /** ... fills it and marks it valid. */
  lemma Publish(truth: CacheKey -> Page, s: State, t: TaskId) returns (s': State)
    requires Reachable(truth, s) && t in s.tasks && s.tasks[t].Mapped? && s.tasks[t].slot < |s.slots|
    ensures Reachable(truth, s')
    ensures var req, permit, i := s.tasks[t].req, s.tasks[t].permit, s.tasks[t].slot;
            s' == s.(tasks := s.tasks[t := Reading(req, permit, req.key, i)],
                     slots := s.slots[i := Slot(Some(req.key), truth(req.key), s.slots[i].registered, {t}, None)])
  {
    s' := Take(truth, s, t, SetKey);
    s' := Take(truth, s', t, Fill(truth(s.tasks[t].req.key)));
    s' := Take(truth, s', t, MarkValid);
  }

  // A run that locks `filled` slots, departs from the first `gone` of them and sends `idle` tasks into the clock

  function BlockKey(t: nat): CacheKey { ImmutableFilePage(1, t) }

  function BlockRequest(t: nat): Request { ReadFile(BlockKey(t)) }

  predicate StageOk(n: nat, filled: nat, gone: nat, idle: nat) {
    gone <= filled <= n && idle <= gone && (gone > 0 ==> filled == n)
  }

  /** Task `t` has permit `t`; tasks below `n` fill the slot of their number. */
  function StagePc(n: nat, filled: nat, gone: nat, idle: nat, t: nat): Pc {
    if t < gone then Releasing(BlockKey(t), t)
    else if t < filled then Reading(BlockRequest(t), t, BlockKey(t), t)
    else if n <= t < n + idle then Clock(BlockRequest(t), t)
    else Idle
  }

  ghost predicate StageSlot(slot: Slot, filled: nat, i: nat) {
    if i < filled then
      slot.key == Some(BlockKey(i)) && slot.registered.None? && slot.readers == {i} && slot.writer.None?
    else slot.key.None? && slot.registered.None? && Unlocked(slot)
  }

  ghost predicate TaskAt(s: State, n: nat, tasks: nat, filled: nat, gone: nat, idle: nat, t: nat) {
    (t in s.tasks <==> t < tasks) && (t in s.tasks ==> s.tasks[t] == StagePc(n, filled, gone, idle, t))
  }

  ghost predicate LiveAt(s: State, n: nat, filled: nat, gone: nat, idle: nat, p: nat) {
    p in s.live <==> gone <= p < filled || n <= p < n + idle
  }

  ghost predicate KeyAt(s: State, filled: nat, k: CacheKey) {
    k in s.mapping ==> k.ImmutableFilePage? && k.blkno < filled
  }

  ghost predicate Stage(s: State, n: nat, tasks: nat, filled: nat, gone: nat, idle: nat) {
    && |s.slots| == n
    && (forall t: nat {:trigger TaskAt(s, n, tasks, filled, gone, idle, t)} ::
          TaskAt(s, n, tasks, filled, gone, idle, t))
    && (forall i: nat {:trigger StageSlot(s.slots[i], filled, i)} | i < n :: StageSlot(s.slots[i], filled, i))
    && (forall k {:trigger KeyAt(s, filled, k)} :: KeyAt(s, filled, k))
    && (forall p: nat {:trigger LiveAt(s, n, filled, gone, idle, p)} :: LiveAt(s, n, filled, gone, idle, p))
    && |s.live| == filled - gone + idle
    && s.nextPermit == filled + idle
  }

  lemma Start(truth: CacheKey -> Page, n: nat, tasks: nat) returns (s: State)
    requires 0 < n
    ensures Reachable(truth, s) && Stage(s, n, tasks, 0, 0, 0)
  {
    var idle := map t <- Indices(tasks) :: Idle;
    s := State(idle, seq(n, _ => Slot(None, [], None, {}, None)), map[], {}, 0, 0, 0);
    assert IsRun(truth, [s], []);
  }

  lemma FillNext(truth: CacheKey -> Page, s: State, n: nat, tasks: nat, filled: nat) returns (s': State)
    requires filled < n <= tasks && Reachable(truth, s) && Stage(s, n, tasks, filled, 0, 0)
    ensures Reachable(truth, s') && Stage(s', n, tasks, filled + 1, 0, 0)
  {
    assert TaskAt(s, n, tasks, filled, 0, 0, filled) && StageSlot(s.slots[filled], filled, filled);
    assert KeyAt(s, filled, BlockKey(filled)) && LiveAt(s, n, filled, 0, 0, filled);
    var s1 := EnterClock(truth, s, filled, BlockRequest(filled));
    var s2 := Claim(truth, s1, filled, filled);
    s' := Publish(truth, s2, filled);
    FilledStage(truth, s, s', n, tasks, filled);
  }

  lemma FilledStage(truth: CacheKey -> Page, s: State, s': State, n: nat, tasks: nat, filled: nat)
    requires filled < n <= tasks && Stage(s, n, tasks, filled, 0, 0)
    requires s'.tasks == s.tasks[filled := StagePc(n, filled + 1, 0, 0, filled)]
    requires s'.slots == s.slots[filled := Slot(Some(BlockKey(filled)), truth(BlockKey(filled)),
                                                s.slots[filled].registered, {filled}, None)]
    requires s'.mapping == s.mapping[BlockKey(filled) := filled]
    requires s'.live == s.live + {filled} && s'.nextPermit == filled + 1
    ensures Stage(s', n, tasks, filled + 1, 0, 0)
  {
    var next := filled + 1;
    assert TaskAt(s, n, tasks, filled, 0, 0, filled) && LiveAt(s, n, filled, 0, 0, filled);
    forall t: nat
      ensures TaskAt(s', n, tasks, next, 0, 0, t)
    {
      assert TaskAt(s, n, tasks, filled, 0, 0, t);
    }
    forall i: nat | i < n
      ensures StageSlot(s'.slots[i], next, i)
    {
      assert StageSlot(s.slots[i], filled, i);
    }
    forall k
      ensures KeyAt(s', next, k)
    {
      assert KeyAt(s, filled, k);
    }
    forall p: nat
      ensures LiveAt(s', n, next, 0, 0, p)
    {
      assert LiveAt(s, n, filled, 0, 0, p);
    }
  }

  lemma DepartNext(truth: CacheKey -> Page, s: State, n: nat, tasks: nat, gone: nat) returns (s': State)
    requires gone < n <= tasks && Reachable(truth, s) && Stage(s, n, tasks, n, gone, 0)
    ensures Reachable(truth, s') && Stage(s', n, tasks, n, gone + 1, 0)
  {
    assert TaskAt(s, n, tasks, n, gone, 0, gone);
    s' := Take(truth, s, gone, DropPermit);
    forall u <- s.tasks | u != gone
      ensures Held(s.tasks[u]) != Some(gone)
    {
      assert TaskAt(s, n, tasks, n, gone, 0, u);
    }
    DepartedStage(s, s', n, tasks, gone);
  }

  lemma DepartedStage(s: State, s': State, n: nat, tasks: nat, gone: nat)
    requires gone < n <= tasks && Stage(s, n, tasks, n, gone, 0)
    requires s' == s.(tasks := s.tasks[gone := StagePc(n, n, gone + 1, 0, gone)], live := s.live - {gone})
    ensures Stage(s', n, tasks, n, gone + 1, 0)
  {
    var next := gone + 1;
    assert TaskAt(s, n, tasks, n, gone, 0, gone) && LiveAt(s, n, n, gone, 0, gone);
    forall t: nat
      ensures TaskAt(s', n, tasks, n, next, 0, t)
    {
      assert TaskAt(s, n, tasks, n, gone, 0, t);
    }
    forall i: nat | i < n
      ensures StageSlot(s'.slots[i], n, i)
    {
      assert StageSlot(s.slots[i], n, i);
    }
    forall k
      ensures KeyAt(s', n, k)
    {
      assert KeyAt(s, n, k);
    }
    forall p: nat
      ensures LiveAt(s', n, n, next, 0, p)
    {
      assert LiveAt(s, n, n, gone, 0, p);
    }
  }

  lemma WaitNext(truth: CacheKey -> Page, s: State, n: nat, tasks: nat, gone: nat, idle: nat) returns (s': State)
    requires idle < gone <= n && n + idle < tasks && Reachable(truth, s) && Stage(s, n, tasks, n, gone, idle)
    ensures Reachable(truth, s') && Stage(s', n, tasks, n, gone, idle + 1)
  {
    assert TaskAt(s, n, tasks, n, gone, idle, n + idle) && KeyAt(s, n, BlockKey(n + idle));
    s' := EnterClock(truth, s, n + idle, BlockRequest(n + idle));
    WaitedStage(s, s', n, tasks, gone, idle);
  }

  lemma WaitedStage(s: State, s': State, n: nat, tasks: nat, gone: nat, idle: nat)
    requires idle < gone <= n && n + idle < tasks && Stage(s, n, tasks, n, gone, idle)
    requires s' == s.(tasks := s.tasks[n + idle := StagePc(n, n, gone, idle + 1, n + idle)],
                      live := s.live + {n + idle},
                      nextPermit := n + idle + 1)
    ensures Stage(s', n, tasks, n, gone, idle + 1)
  {
    var next := idle + 1;
    assert TaskAt(s, n, tasks, n, gone, idle, n + idle) && LiveAt(s, n, n, gone, idle, n + idle);
    forall t: nat
      ensures TaskAt(s', n, tasks, n, gone, next, t)
    {
      assert TaskAt(s, n, tasks, n, gone, idle, t);
    }
    forall i: nat | i < n
      ensures StageSlot(s'.slots[i], n, i)
    {
      assert StageSlot(s.slots[i], n, i);
    }
    forall k
      ensures KeyAt(s', n, k)
    {
      assert KeyAt(s, n, k);
    }
    forall p: nat
      ensures LiveAt(s', n, n, gone, next, p)
    {
      assert LiveAt(s, n, n, gone, idle, p);
    }
  }

  lemma {:induction false} ReachStage(truth: CacheKey -> Page, n: nat, tasks: nat, filled: nat, gone: nat, idle: nat)
    returns (s: State)
    requires 0 < n && StageOk(n, filled, gone, idle) && n + idle <= tasks
    ensures Reachable(truth, s) && Stage(s, n, tasks, filled, gone, idle)
    decreases filled + gone + idle
  {
    if idle > 0 {
      s := ReachStage(truth, n, tasks, filled, gone, idle - 1);
      s := WaitNext(truth, s, n, tasks, gone, idle - 1);
    } else if gone > 0 {
      s := ReachStage(truth, n, tasks, filled, gone - 1, 0);
      s := DepartNext(truth, s, n, tasks, gone - 1);
    } else if filled > 0 {
      s := ReachStage(truth, n, tasks, filled - 1, 0, 0);
      s := FillNext(truth, s, n, tasks, filled - 1);
    } else {
      s := Start(truth, n, tasks);
    }
  }

  // What the last stage looks like

  lemma StageBacked(s: State, n: nat, tasks: nat, gone: nat, idle: nat, i: nat)
    requires idle <= gone <= i < n <= tasks && Stage(s, n, tasks, n, gone, idle)
    ensures i in s.live && Backs(s, i, i)
  {
    assert TaskAt(s, n, tasks, n, gone, idle, i) && LiveAt(s, n, n, gone, idle, i);
    assert OnSlot(s.tasks[i], i) && Held(s.tasks[i]) == Some(i);
  }

  lemma StageNotBacked(s: State, n: nat, tasks: nat, gone: nat, idle: nat, i: nat, p: nat)
    requires i < gone <= n <= tasks && Stage(s, n, tasks, n, gone, idle)
    ensures !Backs(s, p, i)
  {
    forall t | t in s.tasks && OnSlot(s.tasks[t], i)
      ensures Held(s.tasks[t]) != Some(p)
    {
      assert TaskAt(s, n, tasks, n, gone, idle, t);
    }
  }

  lemma StageDeparting(s: State, n: nat, tasks: nat, gone: nat, idle: nat)
    requires idle <= gone <= n <= tasks && Stage(s, n, tasks, n, gone, idle)
    ensures |DepartingSlots(s)| == gone
  {
    forall i: nat | i < n
      ensures i in DepartingSlots(s) <==> i < gone
    {
      assert StageSlot(s.slots[i], n, i);
      if i >= gone {
        StageBacked(s, n, tasks, gone, idle, i);
      } else {
        forall p | p in s.live
          ensures !Backs(s, p, i)
        {
          StageNotBacked(s, n, tasks, gone, idle, i, p);
        }
      }
    }
    assert DepartingSlots(s) == Indices(gone);
  }

  lemma {:induction false} RangeSize(r: set<nat>, a: nat, count: nat)
    requires forall p: nat :: p in r <==> a <= p < a + count
    ensures |r| == count
  {
    if count == 0 {
      assert r == {};
    } else {
      RangeSize(r - {a + count - 1}, a, count - 1);
    }
  }

  lemma StageIdle(s: State, n: nat, tasks: nat, gone: nat, idle: nat)
    requires idle <= gone <= n && n + idle <= tasks && Stage(s, n, tasks, n, gone, idle)
    ensures |IdlePermits(s)| == idle
  {
    forall p: nat
      ensures p in IdlePermits(s) <==> n <= p < n + idle
    {
      assert LiveAt(s, n, n, gone, idle, p) && TaskAt(s, n, tasks, n, gone, idle, p);
      if p < n {
        forall t <- s.tasks | Held(s.tasks[t]) == Some(p)
          ensures OnSlot(s.tasks[t], p)
        {
          assert TaskAt(s, n, tasks, n, gone, idle, t);
        }
      }
    }
    RangeSize(IdlePermits(s), n, idle);
  }

  /**
   * For every cache size: all slots can be locked, with a task in the clock, `departing` slots locked without a permit
   * and `idle` permit holders without a slot, exactly if 1 <= idle <= departing <= n.
   */
  lemma EverythingLockedExactly(truth: CacheKey -> Page, n: nat, departing: nat, idle: nat)
    requires 0 < n
    ensures (exists s, t :: Reachable(truth, s) && |s.slots| == n && EverythingLocked(s, t, departing, idle))
       <==> 1 <= idle <= departing <= n
  {
    if 1 <= idle <= departing <= n {
      var s := ReachStage(truth, n, n + idle, n, departing, idle);
      StageIsLocked(s, n, departing, idle);
    }
    if s, t :| Reachable(truth, s) && |s.slots| == n && EverythingLocked(s, t, departing, idle) {
      LockedIsBounded(truth, s, t, departing, idle);
    }
  }

  lemma StageAllLocked(s: State, n: nat, tasks: nat, gone: nat, idle: nat)
    requires Stage(s, n, tasks, n, gone, idle)
    ensures AllLocked(s)
  {
    forall i | 0 <= i < n
      ensures !Unlocked(s.slots[i])
    {
      assert StageSlot(s.slots[i], n, i);
    }
  }

  lemma StageHasClock(s: State, n: nat, tasks: nat, gone: nat, idle: nat)
    requires 1 <= idle <= gone <= n && n + idle <= tasks && Stage(s, n, tasks, n, gone, idle)
    ensures n in s.tasks && s.tasks[n].Clock?
  {
    assert TaskAt(s, n, tasks, n, gone, idle, n);
  }

  lemma StageIsLocked(s: State, n: nat, departing: nat, idle: nat)
    requires 1 <= idle <= departing <= n && Stage(s, n, n + idle, n, departing, idle)
    ensures EverythingLocked(s, n, departing, idle)
  {
    StageAllLocked(s, n, n + idle, departing, idle);
    StageDeparting(s, n, n + idle, departing, idle);
    StageIdle(s, n, n + idle, departing, idle);
    StageHasClock(s, n, n + idle, departing, idle);
  }

  lemma LockedIsBounded(truth: CacheKey -> Page, s: State, t: TaskId, departing: nat, idle: nat)
    requires Reachable(truth, s) && EverythingLocked(s, t, departing, idle)
    ensures 1 <= idle <= departing <= |s.slots|
  {
    ReachableInv(truth, s);
    assert HeldIn(s.tasks[t], s.live) && s.tasks[t].permit in IdlePermits(s);
    AllLockedNeedsDeparting(truth, s);
    SubsetSize(DepartingSlots(s), Indices(|s.slots|));
  }

  /**
   * A task in the clock can find every slot locked with `departing` of them departing exactly if 1 <= departing <= n.
   */
  lemma DepartingExactly(truth: CacheKey -> Page, n: nat, departing: nat)
    requires 0 < n
    ensures (exists s, t, idle: nat :: Reachable(truth, s) && |s.slots| == n && EverythingLocked(s, t, departing, idle))
       <==> 1 <= departing <= n
  {
    if 1 <= departing <= n {
      EverythingLockedExactly(truth, n, departing, 1);
    }
    if s, t, idle: nat :| Reachable(truth, s) && |s.slots| == n && EverythingLocked(s, t, departing, idle) {
      LockedIsBounded(truth, s, t, departing, idle);
    }
  }

  /**
   * A task in the clock is sure to have an unlocked slot exactly if fewer slots are departing than permits are idle.
   */
  lemma UnlockedSlotExactly(truth: CacheKey -> Page, n: nat, departing: nat, idle: nat)
    requires 1 <= idle && departing <= n && 0 < n
    ensures (forall s, t | Reachable(truth, s) && |s.slots| == n && InClock(s, t, departing, idle) :: !AllLocked(s))
       <==> departing < idle
  {
    EverythingLockedExactly(truth, n, departing, idle);
    if departing < idle {
      forall s, t | Reachable(truth, s) && |s.slots| == n && InClock(s, t, departing, idle)
        ensures !AllLocked(s)
      {
        assert !EverythingLocked(s, t, departing, idle);
      }
    } else {
      var s, t :| Reachable(truth, s) && |s.slots| == n && EverythingLocked(s, t, departing, idle);
      assert InClock(s, t, departing, idle) && AllLocked(s);
    }
  }
}
