/**
 * The page cache as a system of interleaved steps.
 *
 * Any number of tasks run against one set of slots.  Every step is one atomic action of one task:
 * a critical section of the mapping lock, an action on a slot under its lock, or an operation on
 * the permit semaphore.  The mapping lock is never held across two steps, so a slot found in the
 * mapping may be recycled before its lock is obtained.
 *
 * The choice of the victim is left open: a task in `find_victim` may seize any unlocked slot.  Every
 * behaviour of the clock hand and the usage counters is among these choices.
 */
module PageCacheProtocol {
  import opened Basics
  import opened PageCacheTypes
  import opened Pages

  type TaskId = nat
  type Permit = nat

  datatype Request =
    | Lookup(key: CacheKey)    // lookup_materialized_page
    | Memorize(key: CacheKey)  // memorize_materialized_page
    | ReadFile(key: CacheKey)  // read_immutable_buf, lock_for_read

  predicate WellTyped(req: Request) {
    req.ReadFile? <==> req.key.ImmutableFilePage?
  }

  datatype Pc =
    | Idle
    | Searching(req: Request, permit: Permit)                            // about to search the mapping
    | Waiting(req: Request, permit: Permit, found: CacheKey, slot: nat)  // mapping lock released, slot lock awaited
    | Checking(req: Request, permit: Permit, found: CacheKey, slot: nat) // slot lock held, key not yet compared
    | Clock(req: Request, permit: Permit)                                // in find_victim, no lock held
    | Evicting(req: Request, permit: Permit, slot: nat)                  // try_write succeeded
    | Unmapped(req: Request, permit: Permit, slot: nat)                  // mapping removed, old key still in the slot
    | Vacant(req: Request, permit: Permit, slot: nat)                    // find_victim has returned
    | Mapped(req: Request, permit: Permit, slot: nat)                    // mapping inserted, key not yet in the slot
    | Filling(req: Request, permit: Permit, slot: nat)                   // PageWriteGuard, Invalid
    | Undoing(req: Request, permit: Permit, slot: nat)                   // write guard dropped: mapping removed
    | Undone(permit: Permit, slot: nat)                                  // write guard dropped: key cleared
    | Reading(req: Request, permit: Permit, found: CacheKey, slot: nat)  // PageReadGuard
    | Releasing(found: CacheKey, slot: nat)                              // PageReadGuard with its permit dropped
    | Leaving(permit: Permit)                                            // slot lock gone, permit still held

  datatype Slot = Slot(key: Option<CacheKey>, buf: Page, registered: Option<Permit>,
                       readers: set<TaskId>, writer: Option<TaskId>)

  datatype State = State(
    tasks: map<TaskId, Pc>,
    slots: seq<Slot>,
    mapping: map<CacheKey, nat>,
    live: set<Permit>,
    nextPermit: nat,
    materializedBytes: int,
    immutableBytes: int)

  datatype Step =
    | Begin(req: Request)
    | Hit(found: CacheKey)
    | Miss
    | Cancel
    | Lock
    | Check
    | TryWrite(slot: nat)
    | Bail
    | Evict
    | ClearKey
    | Insert
    | SetKey
    | Fill(bytes: Page)
    | MarkValid
    | DropGuard
    | UndoKey
    | UndoRelease
    | DropPermit
    | DropLock
    | Leave

  // Which request, locks and permits a program counter stands for

  predicate HasRequest(pc: Pc) { !pc.Idle? && !pc.Undone? && !pc.Releasing? && !pc.Leaving? }

  predicate OnSlot(pc: Pc, i: nat) {
    match pc
    case Checking(_, _, _, slot) => slot == i
    case Evicting(_, _, slot) => slot == i
    case Unmapped(_, _, slot) => slot == i
    case Vacant(_, _, slot) => slot == i
    case Mapped(_, _, slot) => slot == i
    case Filling(_, _, slot) => slot == i
    case Undoing(_, _, slot) => slot == i
    case Undone(_, slot) => slot == i
    case Reading(_, _, _, slot) => slot == i
    case Releasing(_, slot) => slot == i
    case _ => false
  }

  predicate ReadMode(pc: Pc) {
    pc.Reading? || pc.Releasing? || (pc.Checking? && !pc.req.Memorize?)
  }

  predicate HoldsRead(pc: Pc, i: nat) { OnSlot(pc, i) && ReadMode(pc) }

  predicate HoldsWrite(pc: Pc, i: nat) { OnSlot(pc, i) && !ReadMode(pc) }

  function Held(pc: Pc): Option<Permit> {
    match pc
    case Idle => None
    case Releasing(_, _) => None
    case _ => Some(pc.permit)
  }

  // Steps

  predicate Unlocked(slot: Slot) { slot.writer.None? && slot.readers == {} }

  predicate Enabled(truth: CacheKey -> Page, s: State, t: TaskId, step: Step) {
    && t in s.tasks
    && var pc := s.tasks[t];
       match step
       case Begin(req) => pc.Idle? && WellTyped(req) && |s.live| < |s.slots|
       case Hit(found) => pc.Searching? && MappingHit(s.mapping, pc.req, found)
       case Miss => pc.Searching? && MappingMiss(s.mapping, pc.req)
       case Cancel => pc.Waiting?
       case Lock => pc.Waiting? && pc.slot < |s.slots| && s.slots[pc.slot].writer.None?
                    && (pc.req.Memorize? ==> s.slots[pc.slot].readers == {})
       case Check => pc.Checking? && pc.slot < |s.slots|
       case TryWrite(i) => pc.Clock? && i < |s.slots| && Unlocked(s.slots[i])
       case Bail => pc.Clock?
       case Evict => pc.Evicting? && pc.slot < |s.slots|
       case ClearKey => pc.Unmapped? && pc.slot < |s.slots|
       case Insert => pc.Vacant? && pc.slot < |s.slots|
       case SetKey => pc.Mapped? && pc.slot < |s.slots|
       case Fill(_) => pc.Filling? && pc.slot < |s.slots|
       case MarkValid => pc.Filling? && pc.slot < |s.slots| && s.slots[pc.slot].buf == truth(pc.req.key)
       case DropGuard => pc.Filling? && pc.slot < |s.slots|
       case UndoKey => pc.Undoing? && pc.slot < |s.slots|
       case UndoRelease => pc.Undone? && pc.slot < |s.slots|
       case DropPermit => pc.Reading?
       case DropLock => pc.Releasing? && pc.slot < |s.slots|
       case Leave => pc.Leaving?
  }

  /** `search_mapping` for look-ups, `search_mapping_exact` for memorizing. */
  predicate MappingHit(mapping: map<CacheKey, nat>, req: Request, found: CacheKey) {
    if req.Memorize? then found in mapping && found == req.key else BestMatch(mapping, req.key, found)
  }

  predicate MappingMiss(mapping: map<CacheKey, nat>, req: Request) {
    if req.Memorize? then req.key !in mapping else NoMatch(mapping, req.key)
  }

  function Go(s: State, t: TaskId, pc: Pc): State { s.(tasks := s.tasks[t := pc]) }

  function SetSlot(s: State, i: nat, slot: Slot): State
    requires i < |s.slots|
  {
    s.(slots := s.slots[i := slot])
  }

  /** The live permits once `t` gives up its reference: a shared permit lives on with its other holders. */
  function DropRef(s: State, t: TaskId): set<Permit>
    requires t in s.tasks && Held(s.tasks[t]).Some?
  {
    var p := Held(s.tasks[t]).value;
    if exists u <- s.tasks :: u != t && Held(s.tasks[u]) == Some(p) then s.live else s.live - {p}
  }

  /** `remove_mapping`: the gauge of the page's kind goes down only if a mapping was there. */
  function Unmap(s: State, k: CacheKey): State {
    if k !in s.mapping then s
    else if k.MaterializedPage? then
      s.(mapping := s.mapping - {k}, materializedBytes := s.materializedBytes - PAGE_SZ)
    else
      s.(mapping := s.mapping - {k}, immutableBytes := s.immutableBytes - PAGE_SZ)
  }

  /** `try_insert_mapping` in the case that the key is not mapped yet. */
  function Map(s: State, k: CacheKey, i: nat): State {
    if k.MaterializedPage? then
      s.(mapping := s.mapping[k := i], materializedBytes := s.materializedBytes + PAGE_SZ)
    else
      s.(mapping := s.mapping[k := i], immutableBytes := s.immutableBytes + PAGE_SZ)
  }

  /** Where a request goes when the cache does not have its page: a look-up gives up, the others look for a victim. */
  function AfterMiss(req: Request, permit: Permit): Pc {
    if req.Lookup? then Leaving(permit) else Clock(req, permit)
  }

  /** Where a step takes its task. */
  function NextPc(truth: CacheKey -> Page, s: State, t: TaskId, step: Step): Pc
    requires Enabled(truth, s, t, step)
  {
    var pc := s.tasks[t];
    match step
    case Begin(req) => Searching(req, s.nextPermit)
    case Hit(found) => Waiting(pc.req, pc.permit, found, s.mapping[found])
    case Miss => AfterMiss(pc.req, pc.permit)
    case Cancel => Leaving(pc.permit)
    case Lock => Checking(pc.req, pc.permit, pc.found, pc.slot)
    case Check => CheckedPc(s, pc)
    case TryWrite(i) => Evicting(pc.req, pc.permit, i)
    case Bail => Leaving(pc.permit)
    case Evict =>
      if s.slots[pc.slot].key.None? then Vacant(pc.req, pc.permit, pc.slot) else Unmapped(pc.req, pc.permit, pc.slot)
    case ClearKey => Vacant(pc.req, pc.permit, pc.slot)
    case Insert => if pc.req.key in s.mapping then Searching(pc.req, pc.permit) else Mapped(pc.req, pc.permit, pc.slot)
    case SetKey => Filling(pc.req, pc.permit, pc.slot)
    case Fill(_) => pc
    case MarkValid => Reading(pc.req, pc.permit, pc.req.key, pc.slot)
    case DropGuard => Undoing(pc.req, pc.permit, pc.slot)
    case UndoKey => Undone(pc.permit, pc.slot)
    case UndoRelease => Leaving(pc.permit)
    case DropPermit => Releasing(pc.found, pc.slot)
    case DropLock => Idle
    case Leave => Idle
  }

  /** The re-check: only a slot that still carries the expected key is used. */
  function CheckedPc(s: State, pc: Pc): Pc
    requires pc.Checking? && pc.slot < |s.slots|
  {
    var slot := s.slots[pc.slot];
    if pc.req.Memorize? then
      if slot.key == Some(pc.found) then Leaving(pc.permit) else Clock(pc.req, pc.permit)
    else if slot.key != Some(pc.found) then AfterMiss(pc.req, pc.permit)
    // coalesce_readers_permit: share the registered permit if it is alive
    else Reading(pc.req, if PermitAlive(s, slot) then slot.registered.value else pc.permit, pc.found, pc.slot)
  }

  function Apply(truth: CacheKey -> Page, s: State, t: TaskId, step: Step): State
    requires Enabled(truth, s, t, step)
  {
    Effect(truth, s, Go(s, t, NextPc(truth, s, t, step)), t, step)
  }

  /** What a step does besides moving its task: `s` is the state before it, `next` has that already. */
  function Effect(truth: CacheKey -> Page, s: State, next: State, t: TaskId, step: Step): State
    requires Enabled(truth, s, t, step) && |next.slots| == |s.slots|
  {
    var pc := s.tasks[t];
    match step
    case Begin(_) => next.(live := s.live + {s.nextPermit}, nextPermit := s.nextPermit + 1)
    case Lock =>
      var slot := s.slots[pc.slot];
      SetSlot(next, pc.slot, if pc.req.Memorize? then slot.(writer := Some(t))
                             else slot.(readers := slot.readers + {t}))
    case Check => CheckEffect(s, next, t, pc)
    case TryWrite(i) => SetSlot(next, i, s.slots[i].(writer := Some(t)))
    case Evict => if s.slots[pc.slot].key.None? then next else Unmap(next, s.slots[pc.slot].key.value)
    case ClearKey => SetSlot(next, pc.slot, s.slots[pc.slot].(key := None))
    case Insert =>
      if pc.req.key in s.mapping then SetSlot(next, pc.slot, s.slots[pc.slot].(writer := None))
      else Map(next, pc.req.key, pc.slot)
    case SetKey => SetSlot(next, pc.slot, s.slots[pc.slot].(key := Some(pc.req.key)))
    case Fill(bytes) => SetSlot(next, pc.slot, s.slots[pc.slot].(buf := bytes))
    case MarkValid => SetSlot(next, pc.slot, s.slots[pc.slot].(writer := None, readers := {t}))
    case DropGuard => if s.slots[pc.slot].key.None? then next else Unmap(next, s.slots[pc.slot].key.value)
    case UndoKey => SetSlot(next, pc.slot, s.slots[pc.slot].(key := None))
    case UndoRelease => SetSlot(next, pc.slot, s.slots[pc.slot].(writer := None))
    case DropPermit => next.(live := DropRef(s, t))
    case DropLock => SetSlot(next, pc.slot, s.slots[pc.slot].(readers := s.slots[pc.slot].readers - {t}))
    case Leave => next.(live := DropRef(s, t))
    case _ => next
  }

  /** A task that stops at the re-check gives the lock back; a reader shares or registers its permit. */
  function CheckEffect(s: State, next: State, t: TaskId, pc: Pc): State
    requires t in s.tasks && s.tasks[t] == pc && pc.Checking? && pc.slot < |s.slots| == |next.slots|
  {
    var slot := s.slots[pc.slot];
    if pc.req.Memorize? then SetSlot(next, pc.slot, slot.(writer := None))
    else if slot.key != Some(pc.found) then SetSlot(next, pc.slot, slot.(readers := slot.readers - {t}))
    else if PermitAlive(s, slot) then next.(live := DropRef(s, t))
    else SetSlot(next, pc.slot, slot.(registered := Some(pc.permit)))
  }

  /** The assertions and panics of the source that lie on the path of a step. */
  predicate Panics(truth: CacheKey -> Page, s: State, t: TaskId, step: Step)
    requires Enabled(truth, s, t, step)
  {
    var pc := s.tasks[t];
    match step
    case Check =>
      var slot := s.slots[pc.slot];
      && slot.key == Some(pc.found)
      && ((pc.req.Memorize? && (PermitAlive(s, slot) || slot.buf != truth(pc.found)))
          || (pc.req.Lookup? && !pc.found.MaterializedPage?))
    case Evict => s.slots[pc.slot].key.Some? && s.slots[pc.slot].key.value !in s.mapping
    case SetKey => PermitAlive(s, s.slots[pc.slot])
    case MarkValid => s.slots[pc.slot].key.None?
    case DropGuard => s.slots[pc.slot].key.None? || s.slots[pc.slot].key.value !in s.mapping
    case _ => false
  }

  predicate PermitAlive(s: State, slot: Slot) { slot.registered.Some? && slot.registered.value in s.live }

  // Runs

  /** `new`: every slot is empty and unlocked, nothing is mapped, no permit is out. */
  predicate Init(s: State) {
    && |s.slots| > 0
    && (forall t <- s.tasks :: s.tasks[t].Idle?)
    && (forall i | 0 <= i < |s.slots| ::
          var slot := s.slots[i];
          slot.key.None? && slot.registered.None? && slot.readers == {} && slot.writer.None?)
    && s.mapping == map[]
    && s.live == {}
    && s.materializedBytes == 0 && s.immutableBytes == 0
  }

  predicate StepTo(truth: CacheKey -> Page, s: State, move: (TaskId, Step), s': State) {
    Enabled(truth, s, move.0, move.1) && s' == Apply(truth, s, move.0, move.1)
  }

  /** A run: a start state, and a step of some task from each state to the next. */
  predicate IsRun(truth: CacheKey -> Page, states: seq<State>, labels: seq<(TaskId, Step)>) {
    && |states| == |labels| + 1
    && Init(states[0])
    && forall i {:trigger RunStep(truth, states, labels, i)} | 0 <= i < |labels| :: RunStep(truth, states, labels, i)
  }

  predicate RunStep(truth: CacheKey -> Page, states: seq<State>, labels: seq<(TaskId, Step)>, i: nat)
    requires i < |labels| < |states|
  {
    StepTo(truth, states[i], labels[i], states[i + 1])
  }
}
