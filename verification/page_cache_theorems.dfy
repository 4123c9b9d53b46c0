/** What the page cache guarantees in every state that any interleaving of any number of tasks can reach. */
module PageCacheTheorems {
  import opened Basics
  import opened PageCacheTypes
  import opened Pages
  import opened PageCacheProtocol
  import opened PageCacheInvariant

  ghost predicate Reachable(truth: CacheKey -> Page, s: State) {
    exists states: seq<State>, labels: seq<(TaskId, Step)> :: IsRun(truth, states, labels) && states[|labels|] == s
  }

  lemma ReachableInv(truth: CacheKey -> Page, s: State)
    requires Reachable(truth, s)
    ensures Inv(truth, s)
  {
    var states: seq<State>, labels :| IsRun(truth, states, labels) && states[|labels|] == s;
    RunKeepsInv(truth, states, labels, |labels|);
  }

  // Contents

  /** A read guard always exposes exactly the page of its key, and that key answers the request. */
  lemma ReadGuardExposesTruth(truth: CacheKey -> Page, s: State, t: TaskId)
    requires Reachable(truth, s) && t in s.tasks && s.tasks[t].Reading?
    ensures s.tasks[t].slot < |s.slots|
    ensures s.slots[s.tasks[t].slot].buf == truth(s.tasks[t].found)
    ensures Serves(s.tasks[t].req, s.tasks[t].found)
  {
    ReachableInv(truth, s);
    var i := s.tasks[t].slot;
    assert InRange(s.tasks[t], |s.slots|);
    Facts(truth, s, t, i);
  }

  /** No assertion of the source fails and no mapping that must be there is missing, whatever step is taken next. */
  lemma NoPanics(truth: CacheKey -> Page, s: State, t: TaskId, step: Step)
    requires Reachable(truth, s) && Enabled(truth, s, t, step)
    ensures !Panics(truth, s, t, step)
  {
    ReachableInv(truth, s);
    if step.Check? || step.Evict? || step.SetKey? || step.MarkValid? || step.DropGuard? {
      var i := s.tasks[t].slot;
      Facts(truth, s, t, i);
      assert Typed(s.tasks[t]);
      if s.slots[i].writer.Some? {
        WriterSeesNoPermit(truth, s, i);
      }
    }
  }

  // Refinement of reading the pages directly

  /** A task as its caller sees it: what it has asked for, what was chosen for it, and what it sees. */
  datatype Reader =
    | Away
    | Asking(req: Request)
    | Chosen(req: Request, key: CacheKey)
    | Seeing(req: Request, key: CacheKey, page: Page)
    | Done

  function ReaderOf(s: State, t: TaskId): Reader
    requires t in s.tasks
  {
    match s.tasks[t]
    case Idle => Away
    case Waiting(req, _, found, _) => Chosen(req, found)
    case Checking(req, _, found, _) => Chosen(req, found)
    case Reading(req, _, found, slot) => if slot < |s.slots| then Seeing(req, found, s.slots[slot].buf) else Done
    case Undoing(_, _, _) => Done
    case Undone(_, _) => Done
    case Releasing(_, _) => Done
    case Leaving(_) => Done
    case pc => Asking(pc.req)
  }

  /**
   * The specification.  A request is answered by the best match among the cached keys at the moment of the choice,
   * or by its own key; what is then seen is the true page of that key.
   */
  ghost predicate DirectRead(truth: CacheKey -> Page, cached: map<CacheKey, nat>, before: Reader, after: Reader) {
    match before
    case Away => after == Away || after.Asking?
    case Asking(req) =>
      || after == before
      || (after.Chosen? && after.req == req && MappingHit(cached, req, after.key))
      || (!req.Lookup? && after == Seeing(req, req.key, truth(req.key)))
      || after == Done
    case Chosen(req, key) =>
      || after == before
      || after == Seeing(req, key, truth(key))
      || (!req.Lookup? && after == Asking(req))
      || after == Done
    case Seeing(_, _, _) => after == before || after == Done
    case Done => after == before || after == Away
  }

  /** Whatever a task sees is the true page of a key that answers its request. */
  lemma SeenIsTruth(truth: CacheKey -> Page, s: State, u: TaskId)
    requires Inv(truth, s) && u in s.tasks && s.tasks[u].Reading?
    ensures ReaderOf(s, u) == Seeing(s.tasks[u].req, s.tasks[u].found, truth(s.tasks[u].found))
    ensures Serves(s.tasks[u].req, s.tasks[u].found)
  {
    assert InRange(s.tasks[u], |s.slots|);
    Facts(truth, s, u, s.tasks[u].slot);
  }

  lemma SeesTheSame(truth: CacheKey -> Page, s: State, s': State, u: TaskId)
    requires Inv(truth, s) && Inv(truth, s') && u in s.tasks && u in s'.tasks && s'.tasks[u] == s.tasks[u]
    ensures ReaderOf(s', u) == ReaderOf(s, u)
  {
    if s.tasks[u].Reading? {
      SeenIsTruth(truth, s, u);
      SeenIsTruth(truth, s', u);
    }
  }

  /** The steps that do not lead to a read guard. */
  lemma OwnStep(truth: CacheKey -> Page, s: State, s': State, t: TaskId, step: Step)
    requires Enabled(truth, s, t, step) && Typed(s.tasks[t]) && !step.Check? && !step.MarkValid?
    requires t in s'.tasks && s'.tasks[t] == NextPc(truth, s, t, step)
    ensures DirectRead(truth, s.mapping, ReaderOf(s, t), ReaderOf(s', t))
  {
  }

  lemma OwnCheckStep(truth: CacheKey -> Page, s: State, s': State, t: TaskId)
    requires Inv(truth, s') && Enabled(truth, s, t, Check) && t in s'.tasks && s'.tasks[t] == NextPc(truth, s, t, Check)
    ensures DirectRead(truth, s.mapping, ReaderOf(s, t), ReaderOf(s', t))
  {
    if s'.tasks[t].Reading? {
      SeenIsTruth(truth, s', t);
    }
  }

  lemma OwnMarkValidStep(truth: CacheKey -> Page, s: State, s': State, t: TaskId)
    requires Inv(truth, s') && Enabled(truth, s, t, MarkValid) && Typed(s.tasks[t])
    requires t in s'.tasks && s'.tasks[t] == NextPc(truth, s, t, MarkValid)
    ensures DirectRead(truth, s.mapping, ReaderOf(s, t), ReaderOf(s', t))
  {
    SeenIsTruth(truth, s', t);
  }

  /** Every step of the cache is a step of the direct reader for its task, and invisible to all others. */
  lemma StepRefinesDirectRead(truth: CacheKey -> Page, s: State, t: TaskId, step: Step, u: TaskId)
    requires Reachable(truth, s) && Enabled(truth, s, t, step) && u in s.tasks
    ensures u in Apply(truth, s, t, step).tasks
    ensures DirectRead(truth, s.mapping, ReaderOf(s, u), ReaderOf(Apply(truth, s, t, step), u))
    ensures u != t ==> ReaderOf(Apply(truth, s, t, step), u) == ReaderOf(s, u)
  {
    ReachableInv(truth, s);
    InvStepRefines(truth, s, Apply(truth, s, t, step), t, step, u);
  }

  lemma InvStepRefines(truth: CacheKey -> Page, s: State, s': State, t: TaskId, step: Step, u: TaskId)
    requires Inv(truth, s) && StepTo(truth, s, (t, step), s') && u in s.tasks
    ensures u in s'.tasks && DirectRead(truth, s.mapping, ReaderOf(s, u), ReaderOf(s', u))
    ensures u != t ==> ReaderOf(s', u) == ReaderOf(s, u)
  {
    StepKeepsInv(truth, s, t, step);
    OnlyOwnPcMoves(truth, s, t, step);
    assert Typed(s.tasks[t]);
    if u != t {
      SeesTheSame(truth, s, s', u);
    } else if step.Check? {
      OwnCheckStep(truth, s, s', t);
    } else if step.MarkValid? {
      OwnMarkValidStep(truth, s, s', t);
    } else {
      OwnStep(truth, s, s', t, step);
    }
  }

  /** In a run, state `j` is where the key that task `t` sees in state `i` was chosen for it. */
  ghost predicate ChosenAt(states: seq<State>, t: TaskId, req: Request, key: CacheKey, j: nat) {
    && j < |states| && t in states[j].tasks
    && ReaderOf(states[j], t) == Asking(req)
    && (MappingHit(states[j].mapping, req, key) || (key == req.key && !req.Lookup?))
  }

  lemma RunRefines(truth: CacheKey -> Page, states: seq<State>, labels: seq<(TaskId, Step)>, i: nat, t: TaskId)
    requires IsRun(truth, states, labels) && i < |labels| && t in states[i + 1].tasks
    ensures t in states[i].tasks
    ensures DirectRead(truth, states[i].mapping, ReaderOf(states[i], t), ReaderOf(states[i + 1], t))
  {
    RunKeepsInv(truth, states, labels, i);
    assert RunStep(truth, states, labels, i);
    OnlyOwnPcMoves(truth, states[i], labels[i].0, labels[i].1);
    InvStepRefines(truth, states[i], states[i + 1], labels[i].0, labels[i].1, t);
  }

  lemma StartsAway(truth: CacheKey -> Page, states: seq<State>, labels: seq<(TaskId, Step)>, t: TaskId)
    requires IsRun(truth, states, labels) && t in states[0].tasks
    ensures ReaderOf(states[0], t) == Away
  {
    assert states[0].tasks[t].Idle?;
  }

  /** A key a task sees was the best match among the cached ones when it was chosen, or is the key asked for. */
  lemma {:induction false} SeenWasBest(truth: CacheKey -> Page, states: seq<State>, labels: seq<(TaskId, Step)>, i: nat,
                                       t: TaskId)
    returns (j: nat)
    requires IsRun(truth, states, labels) && i < |states| && t in states[i].tasks
    requires ReaderOf(states[i], t).Chosen? || ReaderOf(states[i], t).Seeing?
    ensures j < i && ChosenAt(states, t, ReaderOf(states[i], t).req, ReaderOf(states[i], t).key, j)
  {
    if i == 0 {
      StartsAway(truth, states, labels, t);
    }
    RunRefines(truth, states, labels, i - 1, t);
    if ReaderOf(states[i - 1], t).Asking? {
      j := i - 1;
    } else {
      j := SeenWasBest(truth, states, labels, i - 1, t);
    }
  }

  // Mappings

  /** No two keys share a slot, and on a slot that no writer holds the mapping and the slot key say the same. */
  lemma MappingsMatchSlots(truth: CacheKey -> Page, s: State)
    requires Reachable(truth, s)
    ensures forall k <- s.mapping, l <- s.mapping | s.mapping[k] == s.mapping[l] :: k == l
    ensures forall k, i | 0 <= i < |s.slots| && s.slots[i].writer.None? ::
              s.slots[i].key == Some(k) <==> MapsTo(s, k, i)
  {
    ReachableInv(truth, s);
    forall k <- s.mapping, l <- s.mapping | s.mapping[k] == s.mapping[l]
      ensures k == l
    {
      assert KeyAgrees(s, k) && KeyAgrees(s, l) && SlotAgrees(s, s.mapping[k]);
    }
    forall k, i | 0 <= i < |s.slots| && s.slots[i].writer.None?
      ensures s.slots[i].key == Some(k) <==> MapsTo(s, k, i)
    {
      assert SlotAgrees(s, i);
      assert k in s.mapping ==> KeyAgrees(s, k);
    }
  }

  /** The two gauges count the mappings of their kind, and together never exceed the size of the cache. */
  lemma GaugesWithinBounds(truth: CacheKey -> Page, s: State)
    requires Reachable(truth, s)
    ensures s.materializedBytes == PAGE_SZ * |Mats(s.mapping)| && s.immutableBytes == PAGE_SZ * |Files(s.mapping)|
    ensures s.materializedBytes + s.immutableBytes <= PAGE_SZ * |s.slots|
  {
    ReachableInv(truth, s);
    PageBytesIs(|Mats(s.mapping)|);
    PageBytesIs(|Files(s.mapping)|);
    MappedPagesFit(truth, s);
  }

  lemma MappedPagesFit(truth: CacheKey -> Page, s: State)
    requires Reachable(truth, s)
    ensures |Mats(s.mapping)| + |Files(s.mapping)| <= |s.slots|
  {
    ReachableInv(truth, s);
    MappingsMatchSlots(truth, s);
    assert Mats(s.mapping) + Files(s.mapping) == s.mapping.Keys;
    assert Mats(s.mapping) !! Files(s.mapping);
    var used := set k <- s.mapping :: s.mapping[k];
    InjectiveImage(s.mapping, s.mapping.Keys);
    forall i <- used
      ensures 0 <= i < |s.slots|
    {
      var k :| k in s.mapping && s.mapping[k] == i;
      assert KeyAgrees(s, k);
    }
    SubsetSize(used, Indices(|s.slots|));
  }

  lemma {:induction false} InjectiveImage(m: map<CacheKey, nat>, keys: set<CacheKey>)
    requires keys <= m.Keys
    requires forall k <- m, l <- m | m[k] == m[l] :: k == l
    ensures |set k <- keys :: m[k]| == |keys|
    decreases keys
  {
    if keys != {} {
      var k :| k in keys;
      InjectiveImage(m, keys - {k});
      assert (set l <- keys :: m[l]) == (set l <- keys - {k} :: m[l]) + {m[k]};
    }
  }

  // Permits

  /** Whoever holds a write lock finds no live permit registered in the slot. */
  lemma WriterSeesNoPermit(truth: CacheKey -> Page, s: State, i: nat)
    requires Inv(truth, s) && i < |s.slots| && s.slots[i].writer.Some?
    ensures !PermitAlive(s, s.slots[i])
  {
    assert LockShape(s.slots[i], s.tasks.Keys);
    forall u <- s.tasks
      ensures Held(s.tasks[u]).None? || Held(s.tasks[u]) != s.slots[i].registered
    {
      assert RegisteredOk(s.slots[i], i, s.tasks[u]) && LockAgrees(s.tasks[u], s.slots[i], u, i);
    }
  }

  ghost predicate Backs(s: State, p: Permit, i: nat) {
    exists t <- s.tasks :: OnSlot(s.tasks[t], i) && Held(s.tasks[t]) == Some(p)
  }

  /** The slots locked by someone who holds a permit. */
  ghost function BackedSlots(s: State): set<nat> {
    set i <- Indices(|s.slots|) | exists p <- s.live :: Backs(s, p, i)
  }

  /** The permits of tasks that have no slot: searching, waiting for a slot lock, in the clock, or leaving. */
  ghost function IdlePermits(s: State): set<Permit> {
    set p <- s.live | exists t <- s.tasks :: Held(s.tasks[t]) == Some(p) && !OnSomeSlot(s, s.tasks[t])
  }

  ghost predicate OnSomeSlot(s: State, pc: Pc) { exists i :: 0 <= i < |s.slots| && OnSlot(pc, i) }

  /** The slots locked only by read guards that have dropped their permit and not yet their lock. */
  ghost function DepartingSlots(s: State): set<nat> {
    set i <- Indices(|s.slots|) | !Unlocked(s.slots[i]) && i !in BackedSlots(s)
  }

  /** Different slots are backed by different permits, none of which belongs to a task without a slot. */
  lemma PermitsBackSlots(truth: CacheKey -> Page, s: State, i: nat, j: nat, p: Permit)
    requires Inv(truth, s) && i < |s.slots| && j < |s.slots| && Backs(s, p, i)
    ensures p !in IdlePermits(s)
    ensures Backs(s, p, j) ==> i == j
  {
    var t :| t in s.tasks && OnSlot(s.tasks[t], i) && Held(s.tasks[t]) == Some(p);
    forall u <- s.tasks | Held(s.tasks[u]) == Some(p)
      ensures OnSlot(s.tasks[u], i)
    {
      if u != t {
        assert Shareable(s.tasks[t], s.tasks[u]);
      }
    }
  }

  lemma {:induction false} CountBacked(truth: CacheKey -> Page, s: State, slots: set<nat>, permits: set<Permit>)
    requires Inv(truth, s) && slots <= BackedSlots(s)
    requires forall i <- slots, p <- s.live | Backs(s, p, i) :: p in permits
    ensures |slots| <= |permits|
    decreases slots
  {
    if slots != {} {
      var i :| i in slots;
      var p :| p in s.live && Backs(s, p, i);
      forall j <- slots - {i}, q <- s.live | Backs(s, q, j)
        ensures q in permits - {p}
      {
        PermitsBackSlots(truth, s, j, i, q);
      }
      CountBacked(truth, s, slots - {i}, permits - {p});
    }
  }

  /** Locked slots and tasks without a slot compete for the same permits; only departing guards escape the count. */
  lemma PermitBudget(truth: CacheKey -> Page, s: State)
    requires Reachable(truth, s)
    ensures |BackedSlots(s)| + |IdlePermits(s)| <= |s.slots|
  {
    ReachableInv(truth, s);
    forall i <- BackedSlots(s), p <- s.live | Backs(s, p, i)
      ensures p in s.live - IdlePermits(s)
    {
      PermitsBackSlots(truth, s, i, i, p);
    }
    CountBacked(truth, s, BackedSlots(s), s.live - IdlePermits(s));
  }

  /** Only a read guard between its two drops can hold a slot without a permit. */
  lemma DepartingSlotsHaveReleasing(truth: CacheKey -> Page, s: State, i: nat)
    requires Reachable(truth, s) && i in DepartingSlots(s)
    ensures exists t <- s.tasks :: s.tasks[t].Releasing? && s.tasks[t].slot == i
  {
    ReachableInv(truth, s);
    assert LockShape(s.slots[i], s.tasks.Keys);
    var t :| t in s.tasks && (t in s.slots[i].readers || s.slots[i].writer == Some(t));
    assert LockAgrees(s.tasks[t], s.slots[i], t, i) && HeldIn(s.tasks[t], s.live);
    if Held(s.tasks[t]).Some? {
      assert Backs(s, Held(s.tasks[t]).value, i);
      assert false;
    }
  }

  /** All slots can be locked only if departing guards hold a slot for every permit holder without one. */
  lemma AllLockedNeedsDeparting(truth: CacheKey -> Page, s: State)
    requires Reachable(truth, s)
    requires forall i | 0 <= i < |s.slots| :: !Unlocked(s.slots[i])
    ensures |IdlePermits(s)| <= |DepartingSlots(s)|
  {
    PermitBudget(truth, s);
    assert BackedSlots(s) + DepartingSlots(s) == Indices(|s.slots|);
    assert BackedSlots(s) !! DepartingSlots(s);
  }

  /** If no read guard is between its two drops, a task in `find_victim` has an unlocked slot to find. */
  lemma ClockHasUnlockedSlot(truth: CacheKey -> Page, s: State, t: TaskId)
    requires Reachable(truth, s) && t in s.tasks && s.tasks[t].Clock?
    requires forall u <- s.tasks :: !s.tasks[u].Releasing?
    ensures exists i :: 0 <= i < |s.slots| && Unlocked(s.slots[i])
  {
    ReachableInv(truth, s);
    assert HeldIn(s.tasks[t], s.live) && s.tasks[t].permit in IdlePermits(s);
    forall i | i in DepartingSlots(s)
      ensures false
    {
      DepartingSlotsHaveReleasing(truth, s, i);
    }
    assert DepartingSlots(s) == {};
    if forall i | 0 <= i < |s.slots| :: !Unlocked(s.slots[i]) {
      AllLockedNeedsDeparting(truth, s);
    }
  }
}
