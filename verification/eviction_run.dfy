/** Phase 2 of disk-usage eviction: running the eviction jobs with bounded concurrency, and a whole iteration. */
module EvictionRun {
  import opened Basics
  import opened EvictionOrdering
  import opened EvictionPlan

  const LIMIT := 1000

  datatype Outcome = Evicted | Failed | Panicked

  datatype LayerCount = LayerCount(fileSizes: nat, count: nat)

  /** How the job of each victim, named by its position, ended. */
  type Outcomes = map<nat, Outcome>

  ghost function BytesWith(victims: seq<Candidate>, outcomes: Outcomes, o: Outcome, k: nat): nat
    requires k <= |victims|
  {
    if k == 0 then 0
    else BytesWith(victims, outcomes, o, k - 1)
         + if k - 1 in outcomes && outcomes[k - 1] == o then victims[k - 1].layer.size else 0
  }

  ghost function CountWith(outcomes: Outcomes, o: Outcome, k: nat): nat {
    if k == 0 then 0
    else CountWith(outcomes, o, k - 1) + if k - 1 in outcomes && outcomes[k - 1] == o then 1 else 0
  }

  lemma {:induction false} JobEnds(victims: seq<Candidate>, outcomes: Outcomes, j: nat, r: Outcome, o: Outcome, k: nat)
    requires k <= |victims| && j < |victims| && j !in outcomes
    ensures BytesWith(victims, outcomes[j := r], o, k)
         == BytesWith(victims, outcomes, o, k) + if j < k && r == o then victims[j].layer.size else 0
    ensures CountWith(outcomes[j := r], o, k) == CountWith(outcomes, o, k) + if j < k && r == o then 1 else 0
  {
    if k > 0 {
      JobEnds(victims, outcomes, j, r, o, k - 1);
    }
  }

  lemma {:induction false} NothingEnded(victims: seq<Candidate>, o: Outcome, k: nat)
    requires k <= |victims|
    ensures BytesWith(victims, map[], o, k) == 0 && CountWith(map[], o, k) == 0
  {
    if k > 0 {
      NothingEnded(victims, o, k - 1);
    }
  }

  /** No byte is lost or counted twice, whatever the order in which the jobs end. */
  lemma {:induction false} EveryByteAccounted(victims: seq<Candidate>, outcomes: Outcomes, k: nat)
    requires k <= |victims| && forall i: nat | i < k :: i in outcomes
    ensures Freed(victims, k)
         == BytesWith(victims, outcomes, Evicted, k) + BytesWith(victims, outcomes, Failed, k)
            + BytesWith(victims, outcomes, Panicked, k)
  {
    if k > 0 {
      EveryByteAccounted(victims, outcomes, k - 1);
    }
  }

  lemma {:induction false} NoPanicNoBytes(victims: seq<Candidate>, outcomes: Outcomes, k: nat)
    requires k <= |victims| && Panicked !in outcomes.Values
    ensures BytesWith(victims, outcomes, Panicked, k) == 0
  {
    if k > 0 {
      NoPanicNoBytes(victims, outcomes, k - 1);
    }
  }

  /** Evicting a layer of a secondary tenant cannot fail; any job may panic. */
  predicate CanEnd(tenants: seq<Tenant>, c: Candidate, o: Outcome)
    requires c.tenant < |tenants|
  {
    o.Failed? ==> tenants[c.tenant].Attached?
  }

  ghost predicate Plausible(tenants: seq<Tenant>, victims: seq<Candidate>, outcomes: Outcomes) {
    forall i | i in outcomes ::
      i < |victims| && victims[i].tenant < |tenants| && CanEnd(tenants, victims[i], outcomes[i])
  }

  ghost predicate Accounted(victims: seq<Candidate>, pre: Usage, outcomes: Outcomes, assumed: Usage,
                            failed: LayerCount) {
    && assumed == AddAvailableBytes(pre, BytesWith(victims, outcomes, Evicted, |victims|))
    && failed.fileSizes == BytesWith(victims, outcomes, Failed, |victims|)
    && failed.count == CountWith(outcomes, Failed, |victims|)
  }

  method HowItEnds(tenants: seq<Tenant>, c: Candidate) returns (o: Outcome)
    requires c.tenant < |tenants|
    ensures CanEnd(tenants, c, o)
  {
    if {
      case true => o := Evicted;
      case tenants[c.tenant].Attached? => o := Failed;
      case true => o := Panicked;
    }
  }

  // Traces of the eviction loop

  /** What the loop does to its join set: the job of victim `i` is spawned, or its result taken. */
  datatype Event = Spawned(i: nat) | Joined(i: nat, outcome: Outcome)

  /** The jobs spawned in a trace, in order. */
  ghost function Spawns(trace: seq<Event>): seq<nat> {
    if trace == [] then []
    else
      var front, last := trace[..|trace| - 1], trace[|trace| - 1];
      if last.Spawned? then Spawns(front) + [last.i] else Spawns(front)
  }

  /** The outcomes of the jobs joined in a trace. */
  ghost function OutcomesOf(trace: seq<Event>): Outcomes {
    if trace == [] then map[]
    else
      var front, last := trace[..|trace| - 1], trace[|trace| - 1];
      if last.Joined? then OutcomesOf(front)[last.i := last.outcome] else OutcomesOf(front)
  }

  /** The jobs spawned and not yet joined. */
  ghost function Running(trace: seq<Event>): set<nat> {
    set i <- Spawns(trace) | i !in OutcomesOf(trace)
  }

  /** An event that can come after `before`: a new victim is spawned, or a running job is joined. */
  ghost predicate Follows(before: seq<Event>, e: Event) {
    match e
    case Spawned(i) => i == |Spawns(before)|
    case Joined(i, _) => i in Running(before)
  }

  /**
   * Victims are spawned once each and in order, and joined once each while they run, at most `LIMIT` running at a time.
   */
  ghost predicate IsTrace(trace: seq<Event>) {
    && (forall k | 0 <= k < |trace| :: Follows(trace[..k], trace[k]))
    && (forall k {:trigger trace[..k]} | 0 <= k <= |trace| :: |Running(trace[..k])| <= LIMIT)
  }

  ghost predicate CountsUp(s: seq<nat>) { forall i | 0 <= i < |s| :: s[i] == i }

  lemma Next(trace: seq<Event>, e: Event)
    ensures Spawns(trace + [e]) == if e.Spawned? then Spawns(trace) + [e.i] else Spawns(trace)
    ensures OutcomesOf(trace + [e]) == if e.Joined? then OutcomesOf(trace)[e.i := e.outcome] else OutcomesOf(trace)
  {
    assert (trace + [e])[..|trace|] == trace;
  }

  lemma NextTrace(trace: seq<Event>, e: Event)
    requires IsTrace(trace) && Follows(trace, e) && |Running(trace + [e])| <= LIMIT
    ensures IsTrace(trace + [e])
  {
    var more := trace + [e];
    forall k | 0 <= k < |more|
      ensures Follows(more[..k], more[k])
    {
      assert more[..k] == trace[..k];
    }
    forall k | 0 <= k <= |more|
      ensures |Running(more[..k])| <= LIMIT
    {
      assert k <= |trace| ==> more[..k] == trace[..k];
      assert k == |more| ==> more[..k] == more;
    }
  }

  /** In a trace every victim is spawned in its turn, hence once. */
  lemma {:induction false} SpawnedInOrder(trace: seq<Event>)
    requires IsTrace(trace)
    ensures CountsUp(Spawns(trace))
  {
    if trace != [] {
      var front := trace[..|trace| - 1];
      TracePrefix(trace, |trace| - 1);
      SpawnedInOrder(front);
    }
  }

  lemma TracePrefix(trace: seq<Event>, n: nat)
    requires IsTrace(trace) && n <= |trace|
    ensures IsTrace(trace[..n])
  {
    forall k | 0 <= k <= n
      ensures trace[..n][..k] == trace[..k]
    {
    }
    forall k | 0 <= k < n
      ensures Follows(trace[..n][..k], trace[..n][k])
    {
      assert trace[..n][k] == trace[k];
    }
  }

  /** In a trace no victim is joined twice, and each only after it was spawned. */
  lemma JoinedOnce(trace: seq<Event>, j: nat, k: nat)
    requires IsTrace(trace) && j < k < |trace| && trace[j].Joined? && trace[k].Joined?
    ensures trace[j].i != trace[k].i
    ensures trace[k].i in Spawns(trace[..k])
  {
    assert Follows(trace[..k], trace[k]);
    StaysJoined(trace, j, k);
  }

  lemma {:induction false} StaysJoined(trace: seq<Event>, j: nat, k: nat)
    requires j < k <= |trace| && trace[j].Joined?
    ensures trace[j].i in OutcomesOf(trace[..k])
  {
    assert trace[..k][..k - 1] == trace[..k - 1];
    if j < k - 1 {
      StaysJoined(trace, j, k - 1);
    }
  }

  /** Only spawned jobs have an outcome. */
  lemma {:induction false} OutcomesAreSpawned(trace: seq<Event>)
    requires IsTrace(trace)
    ensures forall i <- OutcomesOf(trace) :: i in Spawns(trace)
  {
    if trace != [] {
      TracePrefix(trace, |trace| - 1);
      OutcomesAreSpawned(trace[..|trace| - 1]);
      assert Follows(trace[..|trace| - 1], trace[|trace| - 1]);
    }
  }

  lemma SpawnNext(trace: seq<Event>)
    requires IsTrace(trace) && |Running(trace)| < LIMIT
    ensures var n := |Spawns(trace)|;
      && IsTrace(trace + [Spawned(n)])
      && Running(trace + [Spawned(n)]) == Running(trace) + {n}
      && OutcomesOf(trace + [Spawned(n)]) == OutcomesOf(trace)
      && |Spawns(trace + [Spawned(n)])| == n + 1
  {
    var n := |Spawns(trace)|;
    Next(trace, Spawned(n));
    SpawnedInOrder(trace);
    OutcomesAreSpawned(trace);
    assert Running(trace + [Spawned(n)]) == Running(trace) + {n};
    NextTrace(trace, Spawned(n));
  }

  lemma JoinNext(trace: seq<Event>, j: nat, o: Outcome)
    requires IsTrace(trace) && j in Running(trace)
    ensures IsTrace(trace + [Joined(j, o)])
    ensures Running(trace + [Joined(j, o)]) == Running(trace) - {j}
    ensures OutcomesOf(trace + [Joined(j, o)]) == OutcomesOf(trace)[j := o]
    ensures Spawns(trace + [Joined(j, o)]) == Spawns(trace)
  {
    Next(trace, Joined(j, o));
    assert Running(trace + [Joined(j, o)]) == Running(trace) - {j};
    assert trace[..|trace|] == trace;
    SubsetSize(Running(trace) - {j}, Running(trace));
    NextTrace(trace, Joined(j, o));
  }

  lemma RunningBelow(trace: seq<Event>)
    requires IsTrace(trace)
    ensures forall i | i in Running(trace) || i in OutcomesOf(trace) :: i < |Spawns(trace)|
    ensures |Running(trace)| <= LIMIT
  {
    SpawnedInOrder(trace);
    OutcomesAreSpawned(trace);
    assert trace[..|trace|] == trace;
  }

  // The loop

  /** Takes the result of one finished job out of the join set. */
  method Join(tenants: seq<Tenant>, victims: seq<Candidate>, ghost pre: Usage, js: set<nat>, outcomes: Outcomes,
              assumed: Usage, failed: LayerCount)
    returns (j: nat, o: Outcome, assumed': Usage, failed': LayerCount)
    requires js != {} && js !! outcomes.Keys && forall i | i in js :: i < |victims|
    requires forall i | 0 <= i < |victims| :: victims[i].tenant < |tenants|
    requires Plausible(tenants, victims, outcomes) && Accounted(victims, pre, outcomes, assumed, failed)
    ensures j in js
    ensures Plausible(tenants, victims, outcomes[j := o])
        && Accounted(victims, pre, outcomes[j := o], assumed', failed')
  {
    j :| j in js;
    o := HowItEnds(tenants, victims[j]);
    assumed', failed' := assumed, failed;
    JobEnds(victims, outcomes, j, o, Evicted, |victims|);
    JobEnds(victims, outcomes, j, o, Failed, |victims|);
    match o {
      case Evicted => assumed' := AddAvailableBytes(assumed, victims[j].layer.size);
      case Failed => failed' := LayerCount(failed.fileSizes + victims[j].layer.size, failed.count + 1);
      case Panicked =>
    }
  }

  /** Every victim has been spawned and joined, and the accounting is that of the trace. */
  ghost predicate RunsAll(tenants: seq<Tenant>, victims: seq<Candidate>, pre: Usage, trace: seq<Event>, assumed: Usage,
                          failed: LayerCount) {
    && IsTrace(trace)
    && |Spawns(trace)| == |victims|
    && Running(trace) == {}
    && Plausible(tenants, victims, OutcomesOf(trace))
    && Accounted(victims, pre, OutcomesOf(trace), assumed, failed)
  }

  /** The eviction loop, with the trace of its spawns and joins. */
  method EvictLayers(tenants: seq<Tenant>, victims: seq<Candidate>, pre: Usage)
    returns (assumed: Usage, failed: LayerCount, trace: seq<Event>)
    requires forall i | 0 <= i < |victims| :: victims[i].tenant < |tenants|
    ensures RunsAll(tenants, victims, pre, trace, assumed, failed)
  {
    var js: set<nat>, outcomes: Outcomes := {}, map[];
    var next, consumedAll := 0, false;
    assumed, failed, trace := pre, LayerCount(0, 0), [];
    NothingEnded(victims, Evicted, |victims|);
    NothingEnded(victims, Failed, |victims|);
    while true
      invariant IsTrace(trace) && js == Running(trace) && outcomes == OutcomesOf(trace)
      invariant next == |Spawns(trace)| <= |victims| && (consumedAll ==> next == |victims|)
      invariant Plausible(tenants, victims, outcomes)
      invariant Accounted(victims, pre, outcomes, assumed, failed)
      decreases |victims| - next, !consumedAll, |js|
    {
      RunningBelow(trace);
      // Below the limit a result is taken only if one happens to be ready.
      var ready: bool := *;
      if js != {} && (|js| >= LIMIT || consumedAll || ready) {
        var j, o;
        j, o, assumed, failed := Join(tenants, victims, pre, js, outcomes, assumed, failed);
        JoinNext(trace, j, o);
        js, outcomes, trace := js - {j}, outcomes[j := o], trace + [Joined(j, o)];
      }
      if consumedAll && js == {} {
        break;
      }
      if next == |victims| {
        consumedAll := true;
      } else {
        SpawnNext(trace);
        js, trace := js + {next}, trace + [Spawned(next)];
        next := next + 1;
      }
    }
  }

  /** Once all jobs are joined, every victim has exactly one outcome. */
  lemma AllHaveOutcomes(tenants: seq<Tenant>, victims: seq<Candidate>, pre: Usage, trace: seq<Event>, assumed: Usage,
                        failed: LayerCount)
    requires RunsAll(tenants, victims, pre, trace, assumed, failed)
    ensures forall i: nat :: i in OutcomesOf(trace) <==> i < |victims|
  {
    SpawnedInOrder(trace);
    forall i: nat | i < |victims|
      ensures i in OutcomesOf(trace)
    {
      assert Spawns(trace)[i] == i;
      assert i in Running(trace) || i in OutcomesOf(trace);
    }
  }

  // A whole iteration

  datatype IterationOutcome =
    | NoPressure
    | Finished(before: Usage, planned: PlannedUsage, projectedAfter: Usage, failed: LayerCount)

  function FinalPlan(p: PlannedUsage): Usage {
    match p.fallbackToGlobalLru
    case Some(u) => u
    case None => p.respectingTenantMinResidentSize
  }

  /** What the evicted layers free, plus what failed or panicked, is what was planned. */
  lemma PlannedIsAccounted(victims: seq<Candidate>, pre: Usage, outcomes: Outcomes, assumed: Usage, failed: LayerCount)
    requires (forall i: nat | i < |victims| :: i in outcomes) && Accounted(victims, pre, outcomes, assumed, failed)
    ensures assumed.availBytes + failed.fileSizes + BytesWith(victims, outcomes, Panicked, |victims|)
         == After(pre, victims, |victims|).availBytes
    ensures Panicked !in outcomes.Values ==>
        assumed.availBytes + failed.fileSizes == After(pre, victims, |victims|).availBytes
  {
    EveryByteAccounted(victims, outcomes, |victims|);
    if Panicked !in outcomes.Values {
      NoPanicNoBytes(victims, outcomes, |victims|);
    }
  }

  lemma {:induction false} FreedOfPrefix(candidates: seq<Candidate>, n: nat, k: nat)
    requires k <= n <= |candidates|
    ensures Freed(candidates[..n], k) == Freed(candidates, k)
  {
    if k > 0 {
      FreedOfPrefix(candidates, n, k - 1);
    }
  }

  lemma {:induction false} FlattenedTenants(order: EvictionOrder, tenants: seq<Tenant>, listing: seq<seq<Layer>>,
                                            groups: seq<seq<Candidate>>, c: Candidate)
    requires |listing| == |groups| <= |tenants| && c in Flattened(groups)
    requires forall n | 0 <= n < |groups| :: Listed(order, tenants[n], n, listing[n], groups[n])
    ensures c.tenant < |tenants|
    decreases |groups|
  {
    var last := |groups| - 1;
    if c in groups[last] {
      var i :| 0 <= i < |groups[last]| && groups[last][i] == c;
      assert Describes(order, tenants[last], last, listing[last], i, groups[last][i]);
    } else {
      FlattenedTenants(order, tenants, listing[..last], groups[..last], c);
    }
  }

  /** One iteration; besides its outcome it returns the listing, the selection and the trace of the eviction loop. */
  method Iteration(order: EvictionOrder, tenants: seq<Tenant>, pre: Usage)
    returns (r: IterationOutcome, candidates: seq<Candidate>, listing: seq<seq<Layer>>, groups: seq<seq<Candidate>>,
             selection: VictimSelection, trace: seq<Event>)
    ensures r.NoPressure? <==> !HasPressure(pre)
    ensures r.Finished? ==>
      && Collected(order, tenants, listing, groups, candidates)
      && Selected(candidates, pre, selection)
      && r.before == pre
      && r.planned == IntoAmountAndPlanned(selection).1
      && RunsAll(tenants, candidates[..selection.amount], pre, trace, r.projectedAfter, r.failed)
    ensures r.Finished? && Panicked !in OutcomesOf(trace).Values ==>
      r.projectedAfter.availBytes + r.failed.fileSizes == FinalPlan(r.planned).availBytes
    ensures r.Finished? && Panicked !in OutcomesOf(trace).Values && r.failed.fileSizes == 0 ==>
              !HasPressure(FinalPlan(r.planned)) ==> !HasPressure(r.projectedAfter)
  {
    candidates, listing, groups, trace := [], [], [], [];
    selection := VictimSelection(0, pre, None, pre);
    if !HasPressure(pre) {
      r := NoPressure;
      return;
    }
    candidates, listing, groups := CollectEvictionCandidates(order, tenants);
    selection := SelectVictims(candidates, pre);
    var (amount, planned) := IntoAmountAndPlanned(selection);
    var victims := candidates[..amount];
    forall i | 0 <= i < |victims|
      ensures victims[i].tenant < |tenants|
    {
      assert victims[i] in multiset(candidates);
      FlattenedTenants(order, tenants, listing, groups, victims[i]);
    }
    var assumed, failed;
    assumed, failed, trace := EvictLayers(tenants, victims, pre);
    AllHaveOutcomes(tenants, victims, pre, trace, assumed, failed);
    PlannedIsAccounted(victims, pre, OutcomesOf(trace), assumed, failed);
    FreedOfPrefix(candidates, amount, amount);
    r := Finished(pre, planned, assumed, failed);
  }
}
