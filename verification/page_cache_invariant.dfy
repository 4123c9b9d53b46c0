/** What every step of the page cache protocol keeps. */
module PageCacheInvariant {
  import opened Basics
  import opened PageCacheTypes
  import opened Pages
  import opened PageCacheProtocol

  // The inductive invariant

  ghost predicate Inv(truth: CacheKey -> Page, s: State) {
    LockInv(s) && MapInv(s) && DataInv(truth, s) && PermitInv(s) && GaugeInv(s) && TypeInv(s)
  }

  /** Slot locks are held by exactly the tasks whose program counter says so, and writers exclude everyone else. */
  ghost predicate LockInv(s: State) {
    && (forall t <- s.tasks, i | 0 <= i < |s.slots| :: LockAgrees(s.tasks[t], s.slots[i], t, i))
    && (forall i | 0 <= i < |s.slots| :: LockShape(s.slots[i], s.tasks.Keys))
    && (forall t {:trigger InRange(s.tasks[t], |s.slots|)} | t in s.tasks :: InRange(s.tasks[t], |s.slots|))
  }

  ghost predicate LockAgrees(pc: Pc, slot: Slot, t: TaskId, i: nat) {
    && (t in slot.readers <==> HoldsRead(pc, i))
    && (slot.writer == Some(t) <==> HoldsWrite(pc, i))
  }

  ghost predicate LockShape(slot: Slot, tasks: set<TaskId>) {
    && slot.readers <= tasks
    && (slot.writer.Some? ==> slot.writer.value in tasks && slot.readers == {})
  }

  predicate HasSlot(pc: Pc) { !pc.Idle? && !pc.Searching? && !pc.Clock? && !pc.Leaving? }

  predicate InRange(pc: Pc, n: nat) { HasSlot(pc) ==> pc.slot < n }

  /** Mappings and slot keys agree one to one, up to the slot a writer is just changing. */
  ghost predicate MapInv(s: State) {
    && |s.slots| > 0
    && (forall i | 0 <= i < |s.slots| :: SlotAgrees(s, i))
    && (forall k {:trigger KeyAgrees(s, k)} | k in s.mapping :: KeyAgrees(s, k))
  }

  function WriterPc(s: State, i: nat): Pc
    requires i < |s.slots|
  {
    var w := s.slots[i].writer;
    if w.Some? && w.value in s.tasks then s.tasks[w.value] else Idle
  }

  predicate MapsTo(s: State, k: CacheKey, i: nat) { k in s.mapping && s.mapping[k] == i }

  ghost predicate SlotAgrees(s: State, i: nat)
    requires i < |s.slots|
  {
    var key := s.slots[i].key;
    match WriterPc(s, i)
    case Unmapped(_, _, _) => key.Some? && !MapsTo(s, key.value, i)
    case Undoing(_, _, _) => key.Some? && !MapsTo(s, key.value, i)
    case Vacant(_, _, _) => key.None?
    case Undone(_, _) => key.None?
    case Mapped(req, _, _) => key.None? && MapsTo(s, req.key, i)
    case Filling(req, _, _) => key == Some(req.key) && MapsTo(s, req.key, i)
    case _ => key.Some? ==> MapsTo(s, key.value, i)
  }

  ghost predicate KeyAgrees(s: State, k: CacheKey)
    requires k in s.mapping
  {
    var i := s.mapping[k];
    && i < |s.slots|
    && (s.slots[i].key == Some(k) || (WriterPc(s, i).Mapped? && WriterPc(s, i).req.key == k))
  }

  /** A slot with a key holds that key's page, unless its writer is still filling it or undoing that. */
  ghost predicate DataInv(truth: CacheKey -> Page, s: State) {
    && (forall i | 0 <= i < |s.slots| :: Content(truth, s, i))
    && (forall t {:trigger GuardOk(s, s.tasks[t])} | t in s.tasks :: GuardOk(s, s.tasks[t]))
  }

  ghost predicate Content(truth: CacheKey -> Page, s: State, i: nat)
    requires i < |s.slots|
  {
    (s.slots[i].key.Some? && !WriterPc(s, i).Filling? && !WriterPc(s, i).Undoing?)
      ==> s.slots[i].buf == truth(s.slots[i].key.value)
  }

  /** A read guard is on a slot that carries its key, and the key is an answer to the request. */
  ghost predicate GuardOk(s: State, pc: Pc) {
    && (pc.Reading? || pc.Releasing? ==> pc.slot < |s.slots| && s.slots[pc.slot].key == Some(pc.found))
    && (pc.Waiting? || pc.Checking? || pc.Reading? ==> Serves(pc.req, pc.found))
  }

  predicate Serves(req: Request, found: CacheKey) {
    if req.Memorize? then found == req.key else Satisfies(found, req.key)
  }

  /** Live permits are exactly those some task holds; only read guards of one slot share a permit. */
  ghost predicate PermitInv(s: State) {
    && |s.live| <= |s.slots|
    && (forall p <- s.live :: p < s.nextPermit && HasHolder(s.tasks, p))
    && (forall t {:trigger HeldIn(s.tasks[t], s.live)} | t in s.tasks :: HeldIn(s.tasks[t], s.live))
    && (forall t, u {:trigger Shareable(s.tasks[t], s.tasks[u])} | t in s.tasks && u in s.tasks && t != u ::
          Shareable(s.tasks[t], s.tasks[u]))
    && (forall i, t {:trigger RegisteredOk(s.slots[i], i, s.tasks[t])} | 0 <= i < |s.slots| && t in s.tasks ::
          RegisteredOk(s.slots[i], i, s.tasks[t]))
    && (forall i | 0 <= i < |s.slots| && s.slots[i].registered.Some? :: s.slots[i].registered.value < s.nextPermit)
  }

  ghost predicate HasHolder(tasks: map<TaskId, Pc>, p: Permit) {
    exists t <- tasks :: Held(tasks[t]) == Some(p)
  }

  ghost predicate HeldIn(pc: Pc, live: set<Permit>) { Held(pc).Some? ==> Held(pc).value in live }

  ghost predicate Shareable(a: Pc, b: Pc) {
    Held(a).Some? && Held(a) == Held(b) ==> a.Reading? && b.Reading? && a.slot == b.slot
  }

  ghost predicate RegisteredOk(slot: Slot, i: nat, pc: Pc) {
    slot.registered.Some? && Held(pc) == slot.registered ==> pc.Reading? && pc.slot == i
  }

  ghost predicate GaugeInv(s: State) {
    && s.materializedBytes == PageBytes(|Mats(s.mapping)|)
    && s.immutableBytes == PageBytes(|Files(s.mapping)|)
  }

  /** Files are read by block, everything else is about materialized pages, and a look-up never claims a slot. */
  ghost predicate TypeInv(s: State) {
    forall t {:trigger Typed(s.tasks[t])} | t in s.tasks :: Typed(s.tasks[t])
  }

  predicate Typed(pc: Pc) {
    HasRequest(pc) ==> WellTyped(pc.req) && (Claims(pc) ==> !pc.req.Lookup?)
  }

  /** On the way to a page of its own: looking for a slot, or preparing one. */
  predicate Claims(pc: Pc) { HasRequest(pc) && !pc.Searching? && !pc.Waiting? && !pc.Checking? && !pc.Reading? }

  // Locality: a step of `t` changes one slot, and the mapping only at keys of that slot

  /** The slot a step is about: the one it seizes, or else the one its task is on. */
  function Focus(pc: Pc, step: Step): nat {
    if step.TryWrite? then step.slot else if HasSlot(pc) then pc.slot else 0
  }

  ghost predicate Local(s: State, s': State, t: TaskId, i: nat) {
    && t in s.tasks && i < |s.slots| == |s'.slots|
    && t in s'.tasks && s'.tasks == s.tasks[t := s'.tasks[t]]
    && s'.slots == s.slots[i := s'.slots[i]]
    && (forall j | 0 <= j < |s.slots| && j != i :: !OnSlot(s.tasks[t], j) && !OnSlot(s'.tasks[t], j))
    && InRange(s'.tasks[t], |s.slots|)
    && (forall k <- s.mapping | s.mapping[k] != i :: k in s'.mapping && s'.mapping[k] == s.mapping[k])
    && (forall k <- s'.mapping | s'.mapping[k] != i :: k in s.mapping && s.mapping[k] == s'.mapping[k])
  }

  lemma OtherSlots(s: State, s': State, t: TaskId, i: nat, j: nat)
    requires LockInv(s) && Local(s, s', t, i) && j < |s.slots| && j != i
    ensures s'.slots[j] == s.slots[j] && WriterPc(s', j) == WriterPc(s, j)
  {
    assert LockAgrees(s.tasks[t], s.slots[j], t, j);
  }

  lemma LockLocal(s: State, s': State, t: TaskId, i: nat)
    requires LockInv(s) && Local(s, s', t, i)
    requires LockAgrees(s'.tasks[t], s'.slots[i], t, i) && LockShape(s'.slots[i], s.tasks.Keys)
    requires s'.slots[i].readers - {t} == s.slots[i].readers - {t}
    requires s'.slots[i].writer == s.slots[i].writer
          || (s.slots[i].writer.None? && s'.slots[i].writer == Some(t))
          || (s.slots[i].writer == Some(t) && s'.slots[i].writer.None?)
    ensures LockInv(s')
  {
    forall u <- s'.tasks, j | 0 <= j < |s'.slots|
      ensures LockAgrees(s'.tasks[u], s'.slots[j], u, j)
    {
      assert LockAgrees(s.tasks[u], s.slots[j], u, j);
      if u != t && j == i {
        assert u in s'.slots[i].readers - {t} <==> u in s.slots[i].readers - {t};
      }
    }
    forall j | 0 <= j < |s'.slots|
      ensures LockShape(s'.slots[j], s'.tasks.Keys)
    {
      assert LockShape(s.slots[j], s.tasks.Keys);
    }
  }

  lemma MapLocal(s: State, s': State, t: TaskId, i: nat)
    requires LockInv(s) && MapInv(s) && Local(s, s', t, i)
    requires SlotAgrees(s', i)
    requires forall k <- s'.mapping | s'.mapping[k] == i :: KeyAgrees(s', k)
    ensures MapInv(s')
  {
    forall j | 0 <= j < |s'.slots|
      ensures SlotAgrees(s', j)
    {
      if j != i {
        assert SlotAgrees(s, j);
        OtherSlots(s, s', t, i, j);
      }
    }
    forall k <- s'.mapping
      ensures KeyAgrees(s', k)
    {
      if s'.mapping[k] != i {
        assert KeyAgrees(s, k);
        OtherSlots(s, s', t, i, s'.mapping[k]);
      }
    }
  }

  lemma DataLocal(truth: CacheKey -> Page, s: State, s': State, t: TaskId, i: nat)
    requires LockInv(s) && DataInv(truth, s) && Local(s, s', t, i)
    requires Content(truth, s', i) && GuardOk(s', s'.tasks[t])
    requires s'.slots[i].key == s.slots[i].key || s.slots[i].readers == {}
    ensures DataInv(truth, s')
  {
    forall j | 0 <= j < |s'.slots|
      ensures Content(truth, s', j)
    {
      if j != i {
        assert Content(truth, s, j);
        OtherSlots(s, s', t, i, j);
      }
    }
    forall u <- s'.tasks
      ensures GuardOk(s', s'.tasks[u])
    {
      if u != t {
        assert GuardOk(s, s.tasks[u]) && LockAgrees(s.tasks[u], s.slots[i], u, i);
      }
    }
  }

  /** What the invariant says about one task and one slot. */
  lemma Facts(truth: CacheKey -> Page, s: State, t: TaskId, i: nat)
    requires LockInv(s) && MapInv(s) && DataInv(truth, s) && t in s.tasks && i < |s.slots|
    ensures LockAgrees(s.tasks[t], s.slots[i], t, i) && LockShape(s.slots[i], s.tasks.Keys)
    ensures InRange(s.tasks[t], |s.slots|)
    ensures SlotAgrees(s, i) && Content(truth, s, i) && GuardOk(s, s.tasks[t])
    ensures forall k <- s.mapping | s.mapping[k] == i :: KeyAgrees(s, k)
  {
    forall k <- s.mapping | s.mapping[k] == i
      ensures KeyAgrees(s, k)
    {
    }
  }

  ghost predicate Core(truth: CacheKey -> Page, s: State) { LockInv(s) && MapInv(s) && DataInv(truth, s) }

  /** A step that changes neither slots nor mapping, of a task that holds no slot before or after. */
  lemma QuietFrame(truth: CacheKey -> Page, s: State, s': State, t: TaskId)
    requires Core(truth, s) && t in s.tasks && t in s'.tasks
    requires s'.tasks == s.tasks[t := s'.tasks[t]] && s'.slots == s.slots && s'.mapping == s.mapping
    requires forall j | 0 <= j < |s.slots| :: !OnSlot(s.tasks[t], j) && !OnSlot(s'.tasks[t], j)
    requires InRange(s'.tasks[t], |s.slots|) && GuardOk(s', s'.tasks[t])
    ensures Core(truth, s')
  {
    Facts(truth, s, t, 0);
    LockLocal(s, s', t, 0);
    MapLocal(s, s', t, 0);
    DataLocal(truth, s, s', t, 0);
  }

  predicate Quiet(step: Step) {
    step.Begin? || step.Hit? || step.Miss? || step.Cancel? || step.Bail? || step.Leave?
  }

  lemma QuietStep(truth: CacheKey -> Page, s: State, t: TaskId, step: Step)
    requires Core(truth, s) && Enabled(truth, s, t, step) && Quiet(step)
    ensures Core(truth, Apply(truth, s, t, step))
  {
    Facts(truth, s, t, 0);
    if step.Hit? {
      assert KeyAgrees(s, step.found);
    }
    QuietFrame(truth, s, Apply(truth, s, t, step), t);
  }

  /** The three `Local` lemmas together. */
  lemma CoreLocal(truth: CacheKey -> Page, s: State, s': State, t: TaskId, i: nat)
    requires Core(truth, s) && Local(s, s', t, i)
    requires LockAgrees(s'.tasks[t], s'.slots[i], t, i) && LockShape(s'.slots[i], s.tasks.Keys)
    requires s'.slots[i].readers - {t} == s.slots[i].readers - {t}
    requires s'.slots[i].writer == s.slots[i].writer
          || (s.slots[i].writer.None? && s'.slots[i].writer == Some(t))
          || (s.slots[i].writer == Some(t) && s'.slots[i].writer.None?)
    requires SlotAgrees(s', i) && Content(truth, s', i) && GuardOk(s', s'.tasks[t])
    requires forall k <- s'.mapping | s'.mapping[k] == i :: KeyAgrees(s', k)
    requires s'.slots[i].key == s.slots[i].key || s.slots[i].readers == {}
    ensures Core(truth, s')
  {
    LockLocal(s, s', t, i);
    MapLocal(s, s', t, i);
    DataLocal(truth, s, s', t, i);
  }

  lemma LockStep(truth: CacheKey -> Page, s: State, t: TaskId, step: Step)
    requires Core(truth, s) && Enabled(truth, s, t, step) && step.Lock?
    ensures Core(truth, Apply(truth, s, t, step))
  {
    var s', i := Apply(truth, s, t, step), Focus(s.tasks[t], step);
    Facts(truth, s, t, i);
    CoreLocal(truth, s, s', t, i);
  }

  lemma CheckStep(truth: CacheKey -> Page, s: State, t: TaskId, step: Step)
    requires Core(truth, s) && Enabled(truth, s, t, step) && step.Check? && !s.tasks[t].req.Memorize?
    ensures Core(truth, Apply(truth, s, t, step))
  {
    var s', i := Apply(truth, s, t, step), Focus(s.tasks[t], step);
    Facts(truth, s, t, i);
    CoreLocal(truth, s, s', t, i);
  }

  lemma CheckWriteStep(truth: CacheKey -> Page, s: State, t: TaskId, step: Step)
    requires Core(truth, s) && Enabled(truth, s, t, step) && step.Check? && s.tasks[t].req.Memorize?
    ensures Core(truth, Apply(truth, s, t, step))
  {
    var s', i := Apply(truth, s, t, step), Focus(s.tasks[t], step);
    Facts(truth, s, t, i);
    CoreLocal(truth, s, s', t, i);
  }

  lemma SeizeStep(truth: CacheKey -> Page, s: State, t: TaskId, step: Step)
    requires Core(truth, s) && Enabled(truth, s, t, step) && (step.TryWrite? || step.ClearKey?)
    ensures Core(truth, Apply(truth, s, t, step))
  {
    var s', i := Apply(truth, s, t, step), Focus(s.tasks[t], step);
    Facts(truth, s, t, i);
    CoreLocal(truth, s, s', t, i);
  }

  lemma EvictStep(truth: CacheKey -> Page, s: State, t: TaskId, step: Step)
    requires Core(truth, s) && Enabled(truth, s, t, step) && step.Evict?
    ensures Core(truth, Apply(truth, s, t, step))
  {
    var s', i := Apply(truth, s, t, step), Focus(s.tasks[t], step);
    Facts(truth, s, t, i);
    CoreLocal(truth, s, s', t, i);
  }

  lemma InsertStep(truth: CacheKey -> Page, s: State, t: TaskId, step: Step)
    requires Core(truth, s) && Enabled(truth, s, t, step) && step.Insert? && s.tasks[t].req.key !in s.mapping
    ensures Core(truth, Apply(truth, s, t, step))
  {
    var s', i := Apply(truth, s, t, step), Focus(s.tasks[t], step);
    Facts(truth, s, t, i);
    CoreLocal(truth, s, s', t, i);
  }

  lemma GiveBackStep(truth: CacheKey -> Page, s: State, t: TaskId, step: Step)
    requires Core(truth, s) && Enabled(truth, s, t, step) && step.Insert? && s.tasks[t].req.key in s.mapping
    ensures Core(truth, Apply(truth, s, t, step))
  {
    var s', i := Apply(truth, s, t, step), Focus(s.tasks[t], step);
    Facts(truth, s, t, i);
    CoreLocal(truth, s, s', t, i);
  }

  lemma SetKeyStep(truth: CacheKey -> Page, s: State, t: TaskId, step: Step)
    requires Core(truth, s) && Enabled(truth, s, t, step) && step.SetKey?
    ensures Core(truth, Apply(truth, s, t, step))
  {
    var s', i := Apply(truth, s, t, step), Focus(s.tasks[t], step);
    Facts(truth, s, t, i);
    CoreLocal(truth, s, s', t, i);
  }

  lemma FillStep(truth: CacheKey -> Page, s: State, t: TaskId, step: Step)
    requires Core(truth, s) && Enabled(truth, s, t, step) && (step.Fill? || step.MarkValid?)
    ensures Core(truth, Apply(truth, s, t, step))
  {
    var s', i := Apply(truth, s, t, step), Focus(s.tasks[t], step);
    Facts(truth, s, t, i);
    CoreLocal(truth, s, s', t, i);
  }

  lemma UndoStep(truth: CacheKey -> Page, s: State, t: TaskId, step: Step)
    requires Core(truth, s) && Enabled(truth, s, t, step) && step.DropGuard?
    ensures Core(truth, Apply(truth, s, t, step))
  {
    var s', i := Apply(truth, s, t, step), Focus(s.tasks[t], step);
    Facts(truth, s, t, i);
    CoreLocal(truth, s, s', t, i);
  }

  lemma UndoKeyStep(truth: CacheKey -> Page, s: State, t: TaskId, step: Step)
    requires Core(truth, s) && Enabled(truth, s, t, step) && step.UndoKey?
    ensures Core(truth, Apply(truth, s, t, step))
  {
    var s', i := Apply(truth, s, t, step), Focus(s.tasks[t], step);
    Facts(truth, s, t, i);
    CoreLocal(truth, s, s', t, i);
  }

  lemma UndoReleaseStep(truth: CacheKey -> Page, s: State, t: TaskId, step: Step)
    requires Core(truth, s) && Enabled(truth, s, t, step) && step.UndoRelease?
    ensures Core(truth, Apply(truth, s, t, step))
  {
    var s', i := Apply(truth, s, t, step), Focus(s.tasks[t], step);
    Facts(truth, s, t, i);
    CoreLocal(truth, s, s', t, i);
  }

  lemma ReleaseStep(truth: CacheKey -> Page, s: State, t: TaskId, step: Step)
    requires Core(truth, s) && Enabled(truth, s, t, step) && (step.DropPermit? || step.DropLock?)
    ensures Core(truth, Apply(truth, s, t, step))
  {
    assert InRange(s.tasks[t], |s.slots|);
    var s', i := Apply(truth, s, t, step), Focus(s.tasks[t], step);
    Facts(truth, s, t, i);
    CoreLocal(truth, s, s', t, i);
  }

  // Permits

  /** A step that neither takes nor gives up a permit nor registers one. */
  lemma PermitFrame(s: State, s': State, t: TaskId)
    requires PermitInv(s) && t in s.tasks && t in s'.tasks && s'.tasks == s.tasks[t := s'.tasks[t]]
    requires s'.live == s.live && s'.nextPermit == s.nextPermit && |s'.slots| == |s.slots|
    requires Held(s'.tasks[t]) == Held(s.tasks[t]) && !s.tasks[t].Reading?
    requires forall i | 0 <= i < |s.slots| :: s'.slots[i].registered == s.slots[i].registered
    ensures PermitInv(s')
  {
    forall p <- s'.live
      ensures p < s'.nextPermit && HasHolder(s'.tasks, p)
    {
      var u :| u in s.tasks && Held(s.tasks[u]) == Some(p);
      assert u in s'.tasks && Held(s'.tasks[u]) == Some(p);
    }
    forall u <- s'.tasks
      ensures HeldIn(s'.tasks[u], s'.live)
    {
      assert HeldIn(s.tasks[u], s.live);
    }
    forall u <- s'.tasks, v <- s'.tasks | u != v
      ensures Shareable(s'.tasks[u], s'.tasks[v])
    {
      assert Shareable(s.tasks[u], s.tasks[v]);
    }
    forall i, u <- s'.tasks | 0 <= i < |s'.slots|
      ensures RegisteredOk(s'.slots[i], i, s'.tasks[u])
    {
      assert RegisteredOk(s.slots[i], i, s.tasks[u]);
    }
  }

  /** Giving up a reference, possibly taking another reference to the permit of a fellow reader. */
  lemma PermitDrop(s: State, s': State, t: TaskId)
    requires PermitInv(s) && t in s.tasks && t in s'.tasks && s'.tasks == s.tasks[t := s'.tasks[t]]
    requires Held(s.tasks[t]).Some? && s'.live == DropRef(s, t)
    requires s'.nextPermit == s.nextPermit && s'.slots == s.slots
    requires Held(s'.tasks[t]).None? ||
             (&& s'.tasks[t].Reading? && !s.tasks[t].Reading? && s'.tasks[t].slot < |s.slots|
              && s.slots[s'.tasks[t].slot].registered == Some(s'.tasks[t].permit) && s'.tasks[t].permit in s.live)
    ensures PermitInv(s')
  {
    var p := Held(s.tasks[t]).value;
    assert HeldIn(s.tasks[t], s.live);
    if Held(s'.tasks[t]).Some? {
      assert RegisteredOk(s.slots[s'.tasks[t].slot], s'.tasks[t].slot, s.tasks[t]);
    }
    forall q <- s'.live
      ensures q < s'.nextPermit && HasHolder(s'.tasks, q)
    {
      var u :| u in s.tasks && Held(s.tasks[u]) == Some(q) && (q == p ==> u != t);
      assert u in s'.tasks && Held(s'.tasks[u]) == Some(q);
    }
    forall u <- s'.tasks
      ensures HeldIn(s'.tasks[u], s'.live)
    {
      assert HeldIn(s.tasks[u], s.live);
    }
    forall i, u <- s'.tasks | 0 <= i < |s'.slots|
      ensures RegisteredOk(s'.slots[i], i, s'.tasks[u])
    {
      assert RegisteredOk(s.slots[i], i, s.tasks[u]);
      if u == t && Held(s'.tasks[t]).Some? {
        SharedSlot(s, t, s'.tasks[t], i);
      }
    }
    forall u <- s'.tasks, v <- s'.tasks | u != v
      ensures Shareable(s'.tasks[u], s'.tasks[v])
    {
      assert Shareable(s.tasks[u], s.tasks[v]);
      var pc := s'.tasks[t];
      if Held(pc).Some? && (u == t || v == t) {
        assert RegisteredOk(s.slots[pc.slot], pc.slot, s.tasks[if u == t then v else u]);
      }
    }
  }

  /** A live permit is registered in at most one slot. */
  lemma SharedSlot(s: State, t: TaskId, pc: Pc, i: nat)
    requires PermitInv(s) && pc.Reading? && pc.slot < |s.slots| && i < |s.slots|
    requires s.slots[pc.slot].registered == Some(pc.permit) && pc.permit in s.live
    ensures RegisteredOk(s.slots[i], i, pc)
  {
    var u :| u in s.tasks && Held(s.tasks[u]) == Some(pc.permit);
    assert RegisteredOk(s.slots[pc.slot], pc.slot, s.tasks[u]);
    assert RegisteredOk(s.slots[i], i, s.tasks[u]);
  }

  lemma PermitBegin(s: State, s': State, t: TaskId)
    requires PermitInv(s) && t in s.tasks && t in s'.tasks && s'.tasks == s.tasks[t := s'.tasks[t]]
    requires s.tasks[t].Idle? && Held(s'.tasks[t]) == Some(s.nextPermit) && |s.live| < |s.slots|
    requires s'.live == s.live + {s.nextPermit} && s'.nextPermit == s.nextPermit + 1 && s'.slots == s.slots
    ensures PermitInv(s')
  {
    assert s.nextPermit !in s.live;
    forall q <- s'.live
      ensures q < s'.nextPermit && HasHolder(s'.tasks, q)
    {
      if q in s.live {
        var u :| u in s.tasks && Held(s.tasks[u]) == Some(q);
        assert u in s'.tasks && Held(s'.tasks[u]) == Some(q);
      } else {
        assert t in s'.tasks && Held(s'.tasks[t]) == Some(q);
      }
    }
    forall u <- s'.tasks
      ensures HeldIn(s'.tasks[u], s'.live)
    {
      assert HeldIn(s.tasks[u], s.live);
    }
    forall u <- s'.tasks, v <- s'.tasks | u != v
      ensures Shareable(s'.tasks[u], s'.tasks[v])
    {
      assert Shareable(s.tasks[u], s.tasks[v]) && HeldIn(s.tasks[u], s.live) && HeldIn(s.tasks[v], s.live);
    }
    forall i, u <- s'.tasks | 0 <= i < |s'.slots|
      ensures RegisteredOk(s'.slots[i], i, s'.tasks[u])
    {
      assert RegisteredOk(s.slots[i], i, s.tasks[u]);
    }
  }

  /** A reader whose slot has no live registered permit registers its own. */
  lemma PermitRegister(s: State, s': State, t: TaskId, i: nat)
    requires PermitInv(s) && t in s.tasks && t in s'.tasks && s'.tasks == s.tasks[t := s'.tasks[t]]
    requires s'.live == s.live && s'.nextPermit == s.nextPermit && i < |s.slots|
    requires Held(s'.tasks[t]) == Held(s.tasks[t]) && Held(s.tasks[t]).Some? && !s.tasks[t].Reading?
    requires s'.tasks[t].Reading? && s'.tasks[t].slot == i
    requires |s'.slots| == |s.slots| && s'.slots == s.slots[i := s'.slots[i]]
    requires s'.slots[i].registered == Held(s.tasks[t])
    ensures PermitInv(s')
  {
    assert HeldIn(s.tasks[t], s.live);
    forall p <- s'.live
      ensures p < s'.nextPermit && HasHolder(s'.tasks, p)
    {
      var u :| u in s.tasks && Held(s.tasks[u]) == Some(p);
      assert u in s'.tasks && Held(s'.tasks[u]) == Some(p);
    }
    forall u <- s'.tasks
      ensures HeldIn(s'.tasks[u], s'.live)
    {
      assert HeldIn(s.tasks[u], s.live);
    }
    forall u <- s'.tasks, v <- s'.tasks | u != v
      ensures Shareable(s'.tasks[u], s'.tasks[v])
    {
      assert Shareable(s.tasks[u], s.tasks[v]);
    }
    forall j, u <- s'.tasks | 0 <= j < |s'.slots|
      ensures RegisteredOk(s'.slots[j], j, s'.tasks[u])
    {
      assert RegisteredOk(s.slots[j], j, s.tasks[u]);
      if u != t {
        assert Shareable(s.tasks[u], s.tasks[t]);
      }
    }
  }

  lemma PermitBeginStep(truth: CacheKey -> Page, s: State, t: TaskId, step: Step)
    requires PermitInv(s) && Enabled(truth, s, t, step) && step.Begin?
    ensures PermitInv(Apply(truth, s, t, step))
  {
    PermitBegin(s, Apply(truth, s, t, step), t);
  }

  lemma PermitDropStep(truth: CacheKey -> Page, s: State, t: TaskId, step: Step)
    requires PermitInv(s) && Enabled(truth, s, t, step) && (step.DropPermit? || step.Leave?)
    ensures PermitInv(Apply(truth, s, t, step))
  {
    PermitDrop(s, Apply(truth, s, t, step), t);
  }

  lemma PermitSearchStep(truth: CacheKey -> Page, s: State, t: TaskId, step: Step)
    requires PermitInv(s) && Enabled(truth, s, t, step)
    requires step.DropLock? || step.Lock? || step.TryWrite? || (Quiet(step) && !step.Begin? && !step.Leave?)
    ensures PermitInv(Apply(truth, s, t, step))
  {
    PermitFrame(s, Apply(truth, s, t, step), t);
  }

  lemma PermitEvictStep(truth: CacheKey -> Page, s: State, t: TaskId, step: Step)
    requires PermitInv(s) && Enabled(truth, s, t, step)
    requires step.Evict? || step.ClearKey? || step.Insert? || step.SetKey?
    ensures PermitInv(Apply(truth, s, t, step))
  {
    PermitFrame(s, Apply(truth, s, t, step), t);
  }

  lemma PermitGuardStep(truth: CacheKey -> Page, s: State, t: TaskId, step: Step)
    requires PermitInv(s) && Enabled(truth, s, t, step)
    requires step.Fill? || step.MarkValid? || step.DropGuard? || step.UndoKey? || step.UndoRelease?
    ensures PermitInv(Apply(truth, s, t, step))
  {
    PermitFrame(s, Apply(truth, s, t, step), t);
  }

  lemma PermitCheckStep(truth: CacheKey -> Page, s: State, t: TaskId)
    requires PermitInv(s) && Enabled(truth, s, t, Check)
    ensures PermitInv(Apply(truth, s, t, Check))
  {
    var s', pc := Apply(truth, s, t, Check), s.tasks[t];
    if !s'.tasks[t].Reading? {
      PermitFrame(s, s', t);
    } else if PermitAlive(s, s.slots[pc.slot]) {
      PermitDrop(s, s', t);
    } else {
      PermitRegister(s, s', t, pc.slot);
    }
  }

  // Size gauges

  lemma GaugeUnmap(s: State, k: CacheKey)
    requires GaugeInv(s)
    ensures GaugeInv(Unmap(s, k))
  {
    CountRemove(s.mapping, k);
  }

  lemma GaugeMap(s: State, k: CacheKey, i: nat)
    requires GaugeInv(s) && k !in s.mapping
    ensures GaugeInv(Map(s, k, i))
  {
    CountInsert(s.mapping, k, i);
  }

  predicate Unmaps(step: Step) { step.Evict? || step.DropGuard? }

  lemma GaugeUnmapStep(truth: CacheKey -> Page, s: State, t: TaskId, step: Step)
    requires GaugeInv(s) && Enabled(truth, s, t, step) && Unmaps(step)
    ensures GaugeInv(Apply(truth, s, t, step))
  {
    var pc, next := s.tasks[t], Go(s, t, NextPc(truth, s, t, step));
    if s.slots[pc.slot].key.Some? {
      GaugeUnmap(next, s.slots[pc.slot].key.value);
    }
  }

  lemma GaugeInsertStep(truth: CacheKey -> Page, s: State, t: TaskId)
    requires GaugeInv(s) && Enabled(truth, s, t, Insert)
    ensures GaugeInv(Apply(truth, s, t, Insert))
  {
    var pc, next := s.tasks[t], Go(s, t, NextPc(truth, s, t, Insert));
    if pc.req.key !in s.mapping {
      GaugeMap(next, pc.req.key, pc.slot);
    }
  }

  /** All other steps leave mapping and gauges alone. */
  lemma GaugesStay(truth: CacheKey -> Page, s: State, t: TaskId, step: Step)
    requires Enabled(truth, s, t, step) && !Unmaps(step) && !step.Insert?
    ensures var s' := Apply(truth, s, t, step);
      s'.mapping == s.mapping && s'.materializedBytes == s.materializedBytes && s'.immutableBytes == s.immutableBytes
  {
  }

  lemma GaugeStep(truth: CacheKey -> Page, s: State, t: TaskId, step: Step)
    requires GaugeInv(s) && Enabled(truth, s, t, step)
    ensures GaugeInv(Apply(truth, s, t, step))
  {
    if Unmaps(step) {
      GaugeUnmapStep(truth, s, t, step);
    } else if step.Insert? {
      GaugeInsertStep(truth, s, t);
    } else {
      GaugesStay(truth, s, t, step);
    }
  }

  // Every step, every run

  /** A step moves only the program counter of its own task. */
  lemma OnlyOwnPcMoves(truth: CacheKey -> Page, s: State, t: TaskId, step: Step)
    requires Enabled(truth, s, t, step)
    ensures Apply(truth, s, t, step).tasks == s.tasks[t := NextPc(truth, s, t, step)]
  {
  }

  lemma StaysTyped(truth: CacheKey -> Page, s: State, t: TaskId, step: Step)
    requires Enabled(truth, s, t, step) && Typed(s.tasks[t])
    ensures Typed(NextPc(truth, s, t, step))
  {
  }

  lemma TypeStep(truth: CacheKey -> Page, s: State, t: TaskId, step: Step)
    requires TypeInv(s) && Enabled(truth, s, t, step)
    ensures TypeInv(Apply(truth, s, t, step))
  {
    assert Typed(s.tasks[t]);
    OnlyOwnPcMoves(truth, s, t, step);
    StaysTyped(truth, s, t, step);
  }

  lemma CoreStep(truth: CacheKey -> Page, s: State, t: TaskId, step: Step)
    requires Core(truth, s) && Enabled(truth, s, t, step)
    ensures Core(truth, Apply(truth, s, t, step))
  {
    match step
    case Lock => LockStep(truth, s, t, step);
    case Check =>
      if s.tasks[t].req.Memorize? {
        CheckWriteStep(truth, s, t, step);
      } else {
        CheckStep(truth, s, t, step);
      }
    case TryWrite(_) => SeizeStep(truth, s, t, step);
    case ClearKey => SeizeStep(truth, s, t, step);
    case Evict => EvictStep(truth, s, t, step);
    case Insert =>
      if s.tasks[t].req.key in s.mapping {
        GiveBackStep(truth, s, t, step);
      } else {
        InsertStep(truth, s, t, step);
      }
    case SetKey => SetKeyStep(truth, s, t, step);
    case Fill(_) => FillStep(truth, s, t, step);
    case MarkValid => FillStep(truth, s, t, step);
    case DropGuard => UndoStep(truth, s, t, step);
    case UndoKey => UndoKeyStep(truth, s, t, step);
    case UndoRelease => UndoReleaseStep(truth, s, t, step);
    case DropPermit => ReleaseStep(truth, s, t, step);
    case DropLock => ReleaseStep(truth, s, t, step);
    case _ => QuietStep(truth, s, t, step);
  }

  lemma PermitStep(truth: CacheKey -> Page, s: State, t: TaskId, step: Step)
    requires PermitInv(s) && Enabled(truth, s, t, step)
    ensures PermitInv(Apply(truth, s, t, step))
  {
    if step.Begin? {
      PermitBeginStep(truth, s, t, step);
    } else if step.DropPermit? || step.Leave? {
      PermitDropStep(truth, s, t, step);
    } else if step.Check? {
      PermitCheckStep(truth, s, t);
    } else if step.Evict? || step.ClearKey? || step.Insert? || step.SetKey? {
      PermitEvictStep(truth, s, t, step);
    } else if step.Fill? || step.MarkValid? || step.DropGuard? || step.UndoKey? || step.UndoRelease? {
      PermitGuardStep(truth, s, t, step);
    } else {
      PermitSearchStep(truth, s, t, step);
    }
  }

  lemma StepKeepsInv(truth: CacheKey -> Page, s: State, t: TaskId, step: Step)
    requires Inv(truth, s) && Enabled(truth, s, t, step)
    ensures Inv(truth, Apply(truth, s, t, step))
  {
    CoreStep(truth, s, t, step);
    PermitStep(truth, s, t, step);
    GaugeStep(truth, s, t, step);
    TypeStep(truth, s, t, step);
  }

  lemma InitInv(truth: CacheKey -> Page, s: State)
    requires Init(s)
    ensures Inv(truth, s)
  {
  }

  /** Every state of every run, of any number of tasks in any interleaving, satisfies the invariant. */
  lemma {:induction false} RunKeepsInv(truth: CacheKey -> Page, states: seq<State>, labels: seq<(TaskId, Step)>, i: nat)
    requires IsRun(truth, states, labels) && i < |states|
    ensures Inv(truth, states[i])
  {
    if i == 0 {
      InitInv(truth, states[0]);
    } else {
      RunKeepsInv(truth, states, labels, i - 1);
      assert RunStep(truth, states, labels, i - 1);
      StepKeepsInv(truth, states[i - 1], labels[i - 1].0, labels[i - 1].1);
    }
  }
}
