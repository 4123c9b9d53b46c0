/** Phase 1 of disk-usage eviction: collecting the candidates and selecting the victims. */
module EvictionPlan {
  import opened Basics
  import opened EvictionOrdering

  // Disk pressure

  datatype Usage = Usage(totalBytes: nat, availBytes: nat, minAvailBytes: nat, maxUsagePct: nat)

  /** The used percentage, rounded down; zero when everything is available or the disk has size zero. */
  function UsagePct(total: nat, avail: nat): nat {
    if avail >= total then 0 else 100 * (total - avail) / total
  }

  predicate HasPressure(u: Usage) {
    u.availBytes < u.minAvailBytes || UsagePct(u.totalBytes, u.availBytes) >= u.maxUsagePct
  }

  function AddAvailableBytes(u: Usage, bytes: nat): Usage { u.(availBytes := u.availBytes + bytes) }

  lemma FloorAtLeast(n: nat, d: nat, p: nat)
    requires 0 < d
    ensures n / d >= p <==> n >= p * d
  {
    var q := n / d;
    assert n == q * d + n % d;
    if q >= p {
      assert (q - p) * d >= 0;
    } else {
      assert (p - q - 1) * d >= 0;
    }
  }

  /** Pressure in bytes: too little is available, or the used share has reached the percentage, as zero always has. */
  lemma PressureInBytes(u: Usage)
    ensures HasPressure(u) <==>
      || u.availBytes < u.minAvailBytes
      || u.maxUsagePct == 0
      || (u.availBytes < u.totalBytes && 100 * (u.totalBytes - u.availBytes) >= u.maxUsagePct * u.totalBytes)
  {
    if u.availBytes < u.totalBytes {
      FloorAtLeast(100 * (u.totalBytes - u.availBytes), u.totalBytes, u.maxUsagePct);
    }
  }

  lemma FreeingRelieves(u: Usage, bytes: nat)
    requires !HasPressure(u)
    ensures !HasPressure(AddAvailableBytes(u, bytes))
  {
    if u.availBytes + bytes < u.totalBytes {
      FloorAtLeast(100 * (u.totalBytes - u.availBytes), u.totalBytes, u.maxUsagePct);
      FloorAtLeast(100 * (u.totalBytes - u.availBytes - bytes), u.totalBytes, u.maxUsagePct);
    }
  }

  // Collecting candidates

  ghost predicate IsPartition(t: Tenant, sorted: seq<Layer>, i: nat, p: Partition)
    requires i <= |sorted|
  {
    p.Above? <==> (t.Secondary? || Bytes(sorted[..i]) > MinResidentSize(t))
  }

  ghost predicate Describes(order: EvictionOrder, t: Tenant, n: nat, sorted: seq<Layer>, i: nat, c: Candidate)
    requires i < |sorted|
  {
    && c.tenant == n
    && c.layer == sorted[i]
    && c.relative == RelativeLastActivity(order, Total(t), i)
    && IsPartition(t, sorted, i, c.partition)
  }

  ghost predicate Listed(order: EvictionOrder, t: Tenant, n: nat, sorted: seq<Layer>, group: seq<Candidate>) {
    && SortedBy(Newer, sorted)
    && multiset(sorted) == multiset(t.layers)
    && |group| == |sorted|
    && forall i | 0 <= i < |group| :: Describes(order, t, n, sorted, i, group[i])
  }

  /** The candidates of one tenant: its layers, most recently used first, with age and partition. */
  method ListTenant(order: EvictionOrder, t: Tenant, n: nat) returns (group: seq<Candidate>, sorted: seq<Layer>)
    ensures Listed(order, t, n, sorted, group)
  {
    OrdersAreTotal(order);
    sorted := Sort(t.layers, Newer);
    var cumsum := 0;
    group := [];
    for i := 0 to |sorted|
      invariant cumsum == Bytes(sorted[..i])
      invariant |group| == i
      invariant forall j | 0 <= j < i :: Describes(order, t, n, sorted, j, group[j])
    {
      var partition := if t.Secondary? || cumsum > MinResidentSize(t) then Above else Below;
      var c := Candidate(partition, n, sorted[i], RelativeLastActivity(order, Total(t), i));
      cumsum := cumsum + sorted[i].size;
      assert sorted[..i + 1][..i] == sorted[..i];
      assert Describes(order, t, n, sorted, i, c);
      group := group + [c];
    }
  }

  /** One listing per tenant, and a sorted list of candidates holding exactly the listed ones. */
  ghost predicate Collected(order: EvictionOrder, tenants: seq<Tenant>, listing: seq<seq<Layer>>,
                            groups: seq<seq<Candidate>>, candidates: seq<Candidate>)
  {
    && |listing| == |groups| == |tenants|
    && (forall n | 0 <= n < |tenants| :: Listed(order, tenants[n], n, listing[n], groups[n]))
    && InOrder(order, candidates)
    && multiset(candidates) == multiset(Flattened(groups))
  }

  ghost predicate InOrder(order: EvictionOrder, candidates: seq<Candidate>) {
    forall i, j | 0 <= i < j < |candidates| :: EvictedBefore(order, candidates[i], candidates[j])
  }

  function Flattened(groups: seq<seq<Candidate>>): seq<Candidate> {
    if groups == [] then [] else Flattened(groups[..|groups| - 1]) + groups[|groups| - 1]
  }

  method CollectEvictionCandidates(order: EvictionOrder, tenants: seq<Tenant>)
    returns (candidates: seq<Candidate>, listing: seq<seq<Layer>>, groups: seq<seq<Candidate>>)
    ensures Collected(order, tenants, listing, groups, candidates)
  {
    var all := [];
    listing, groups := [], [];
    for n := 0 to |tenants|
      invariant |listing| == |groups| == n
      invariant forall m | 0 <= m < n :: Listed(order, tenants[m], m, listing[m], groups[m])
      invariant all == Flattened(groups)
    {
      var group, sorted := ListTenant(order, tenants[n], n);
      assert (groups + [group])[..n] == groups;
      listing, groups := listing + [sorted], groups + [group];
      all := all + group;
    }
    OrdersAreTotal(order);
    candidates := Sort(all, (a: Candidate, b: Candidate) => EvictedBefore(order, a, b));
  }

  lemma {:induction false} InFlattened(groups: seq<seq<Candidate>>, n: nat, c: Candidate)
    requires n < |groups| && c in groups[n]
    ensures c in Flattened(groups)
  {
    if n < |groups| - 1 {
      assert groups[..|groups| - 1][n] == groups[n];
      InFlattened(groups[..|groups| - 1], n, c);
    }
  }

  lemma IsCandidate(order: EvictionOrder, tenants: seq<Tenant>, listing: seq<seq<Layer>>,
                    groups: seq<seq<Candidate>>, candidates: seq<Candidate>, n: nat, i: nat)
    requires Collected(order, tenants, listing, groups, candidates)
    requires n < |groups| && i < |groups[n]|
    ensures groups[n][i] in candidates
  {
    InFlattened(groups, n, groups[n][i]);
    assert groups[n][i] in multiset(candidates);
  }

  // Selecting victims

  datatype VictimSelection = VictimSelection(amount: nat, usagePre: Usage, usageWhenSwitched: Option<(Usage, nat)>,
                                             usagePlanned: Usage)

  datatype PlannedUsage = PlannedUsage(respectingTenantMinResidentSize: Usage, fallbackToGlobalLru: Option<Usage>)

  function Freed(candidates: seq<Candidate>, k: nat): nat
    requires k <= |candidates|
  {
    if k == 0 then 0 else Freed(candidates, k - 1) + candidates[k - 1].layer.size
  }

  function After(u: Usage, candidates: seq<Candidate>, k: nat): Usage
    requires k <= |candidates|
  {
    AddAvailableBytes(u, Freed(candidates, k))
  }

  ghost predicate FirstBelow(candidates: seq<Candidate>, limit: nat, k: nat)
    requires limit <= |candidates|
  {
    && k < limit
    && candidates[k].partition.Below?
    && forall j | 0 <= j < k :: candidates[j].partition.Above?
  }

  ghost predicate Switched(u: Usage, candidates: seq<Candidate>, limit: nat, switched: Option<(Usage, nat)>)
    requires limit <= |candidates|
  {
    match switched
    case None => forall j | 0 <= j < limit :: candidates[j].partition.Above?
    case Some((v, k)) => FirstBelow(candidates, limit, k) && v == After(u, candidates, k)
  }

  ghost predicate Selected(candidates: seq<Candidate>, u: Usage, s: VictimSelection) {
    && s.amount <= |candidates|
    && (forall k | 0 <= k < s.amount :: HasPressure(After(u, candidates, k)))
    && (s.amount < |candidates| ==> !HasPressure(After(u, candidates, s.amount)))
    && s.usagePre == u
    && s.usagePlanned == After(u, candidates, s.amount)
    && Switched(u, candidates, s.amount, s.usageWhenSwitched)
  }

  method SelectVictims(candidates: seq<Candidate>, usagePre: Usage) returns (s: VictimSelection)
    ensures Selected(candidates, usagePre, s)
  {
    var switched: Option<(Usage, nat)> := None;
    var planned := usagePre;
    var amount := 0;
    for i := 0 to |candidates|
      invariant amount == i
      invariant planned == After(usagePre, candidates, i)
      invariant forall k | 0 <= k < i :: HasPressure(After(usagePre, candidates, k))
      invariant Switched(usagePre, candidates, i, switched)
    {
      if !HasPressure(planned) {
        break;
      }
      if candidates[i].partition.Below? && switched.None? {
        switched := Some((planned, i));
      }
      planned := AddAvailableBytes(planned, candidates[i].layer.size);
      amount := amount + 1;
    }
    s := VictimSelection(amount, usagePre, switched, planned);
  }

  function IntoAmountAndPlanned(s: VictimSelection): (nat, PlannedUsage) {
    match s.usageWhenSwitched
    case Some((u, _)) => (s.amount, PlannedUsage(u, Some(s.usagePlanned)))
    case None => (s.amount, PlannedUsage(s.usagePlanned, None))
  }

  // What the plan guarantees

  lemma {:induction false} FreedGrows(candidates: seq<Candidate>, j: nat, k: nat)
    requires j <= k <= |candidates|
    ensures Freed(candidates, j) <= Freed(candidates, k)
  {
    if j < k {
      FreedGrows(candidates, j, k - 1);
    }
  }

  lemma LongerPrefixRelieves(candidates: seq<Candidate>, u: Usage, j: nat, k: nat)
    requires j <= k <= |candidates| && !HasPressure(After(u, candidates, j))
    ensures !HasPressure(After(u, candidates, k))
  {
    FreedGrows(candidates, j, k);
    FreeingRelieves(After(u, candidates, j), Freed(candidates, k) - Freed(candidates, j));
  }

  /** The victims are the shortest prefix that relieves the pressure, or everything if none does. */
  lemma ShortestRelievingPrefix(candidates: seq<Candidate>, u: Usage, s: VictimSelection, k: nat)
    requires Selected(candidates, u, s) && k <= |candidates|
    ensures !HasPressure(After(u, candidates, k)) ==> s.amount <= k
    ensures s.amount <= k && (k < |candidates| || s.amount < k) ==> !HasPressure(After(u, candidates, k))
  {
    if s.amount <= k && s.amount < |candidates| {
      LongerPrefixRelieves(candidates, u, s.amount, k);
    }
  }

  /**
   * The plan falls back to global LRU exactly when evicting every Above layer is not enough and a Below one is left.
   */
  lemma FallsBackExactlyWhenNeeded(order: EvictionOrder, candidates: seq<Candidate>, u: Usage, s: VictimSelection,
                                   m: nat)
    requires InOrder(order, candidates) && Selected(candidates, u, s) && m <= |candidates|
    requires forall i | 0 <= i < m :: candidates[i].partition.Above?
    requires forall i | m <= i < |candidates| :: candidates[i].partition.Below?
    ensures var plan := IntoAmountAndPlanned(s).1;
      && (plan.fallbackToGlobalLru.Some? <==> m < |candidates| && HasPressure(After(u, candidates, m)))
      && (plan.fallbackToGlobalLru.Some? ==> plan.respectingTenantMinResidentSize == After(u, candidates, m))
      && (plan.fallbackToGlobalLru.None? ==> plan.respectingTenantMinResidentSize == After(u, candidates, s.amount))
  {
    match s.usageWhenSwitched
    case Some((_, k)) =>
      assert k == m;
    case None =>
      if m < |candidates| {
        assert s.amount <= m;
        ShortestRelievingPrefix(candidates, u, s, m);
      }
  }

  ghost predicate Victim(candidates: seq<Candidate>, s: VictimSelection, c: Candidate)
    requires s.amount <= |candidates|
  {
    c in candidates[..s.amount]
  }

  lemma FallbackTakesAllAbove(order: EvictionOrder, candidates: seq<Candidate>, u: Usage, s: VictimSelection,
                              c: Candidate)
    requires InOrder(order, candidates) && Selected(candidates, u, s)
    requires IntoAmountAndPlanned(s).1.fallbackToGlobalLru.Some?
    requires c in candidates && c.partition.Above?
    ensures Victim(candidates, s, c)
  {
    var i :| 0 <= i < |candidates| && candidates[i] == c;
    var k := s.usageWhenSwitched.value.1;
    assert k < i ==> EvictedBefore(order, candidates[k], candidates[i]);
    assert candidates[..s.amount][i] == c;
  }

  ghost predicate Kept(candidates: seq<Candidate>, s: VictimSelection, group: seq<Candidate>, p: nat)
    requires s.amount <= |candidates| && p <= |group|
  {
    forall i | 0 <= i < p :: !Victim(candidates, s, group[i])
  }

  function BelowCount(t: Tenant, sorted: seq<Layer>, p: nat): (k: nat)
    requires t.Attached? && p <= |sorted|
    requires forall i | 0 <= i < p :: Bytes(sorted[..i]) <= MinResidentSize(t)
    ensures p <= k <= |sorted|
    ensures forall i | 0 <= i < k :: Bytes(sorted[..i]) <= MinResidentSize(t)
    ensures k < |sorted| ==> Bytes(sorted[..k]) > MinResidentSize(t)
    decreases |sorted| - p
  {
    if p < |sorted| && Bytes(sorted[..p]) <= MinResidentSize(t) then BelowCount(t, sorted, p + 1) else p
  }

  /** Without fallback an attached tenant keeps all its layers, or more than its minimum of the most recent ones. */
  lemma NoFallbackKeepsMinimum(order: EvictionOrder, tenants: seq<Tenant>, listing: seq<seq<Layer>>,
                               groups: seq<seq<Candidate>>, candidates: seq<Candidate>, u: Usage, s: VictimSelection,
                               n: nat)
    returns (p: nat)
    requires Collected(order, tenants, listing, groups, candidates) && Selected(candidates, u, s)
    requires IntoAmountAndPlanned(s).1.fallbackToGlobalLru.None?
    requires n < |tenants| && tenants[n].Attached?
    ensures p <= |groups[n]| && Kept(candidates, s, groups[n], p)
    ensures p == |groups[n]| || Bytes(listing[n][..p]) > MinResidentSize(tenants[n])
  {
    p := BelowCount(tenants[n], listing[n], 0);
    forall i | 0 <= i < p
      ensures !Victim(candidates, s, groups[n][i])
    {
      assert Describes(order, tenants[n], n, listing[n], i, groups[n][i]);
      assert groups[n][i].partition.Below?;
    }
  }

  lemma OlderIsEvictedFirst(order: EvictionOrder, t: Tenant, n: nat, sorted: seq<Layer>, group: seq<Candidate>, i: nat,
                            j: nat)
    requires WellFormed(t) && Listed(order, t, n, sorted, group)
    requires i < |group| && j < |group| && group[j].layer.lastActivity < group[i].layer.lastActivity
    ensures !EvictedBefore(order, group[i], group[j])
  {
    assert Describes(order, t, n, sorted, i, group[i]) && Describes(order, t, n, sorted, j, group[j]);
    assert i < j;
    BytesGrow(sorted, i, j);
    if order.RelativeAccessed? {
      assert |sorted| == |multiset(sorted)| == |multiset(t.layers)| == |t.layers|;
      RelativeAgeDecreases(order, Total(t), i, j);
    }
  }

  /** Under both orders a tenant that loses a layer has lost every layer used less recently. */
  lemma VictimsAreLeastRecentlyUsed(order: EvictionOrder, tenants: seq<Tenant>, listing: seq<seq<Layer>>,
                                    groups: seq<seq<Candidate>>, candidates: seq<Candidate>, u: Usage,
                                    s: VictimSelection,
                                    n: nat, i: nat, j: nat)
    requires Collected(order, tenants, listing, groups, candidates) && Selected(candidates, u, s)
    requires n < |tenants| && WellFormed(tenants[n]) && i < |groups[n]| && j < |groups[n]|
    requires groups[n][j].layer.lastActivity < groups[n][i].layer.lastActivity
    requires Victim(candidates, s, groups[n][i])
    ensures Victim(candidates, s, groups[n][j])
  {
    IsCandidate(order, tenants, listing, groups, candidates, n, j);
    var x :| 0 <= x < s.amount && candidates[..s.amount][x] == groups[n][i];
    var y :| 0 <= y < |candidates| && candidates[y] == groups[n][j];
    OlderIsEvictedFirst(order, tenants[n], n, listing[n], groups[n], i, j);
    assert candidates[x] == groups[n][i];
    assert !(x < y) && x != y;
    assert candidates[..s.amount][y] == groups[n][j];
  }
}
