/** How disk-usage eviction orders the resident layers of all tenants. */
module EvictionOrdering {
  import opened Basics

  datatype EvictionOrder = AbsoluteAccessed | RelativeAccessed(highestLayerCountLosesFirst: bool)

  datatype Partition = Above | Below

  datatype Layer = Layer(name: nat, size: nat, lastActivity: int)

  datatype Tenant =
    | Attached(layers: seq<Layer>, maxLayerSize: nat, minResidentOverride: Option<nat>)
    | Secondary(layers: seq<Layer>, totalLayers: nat)

  /** A layer in the list of candidates; `tenant` is the position of its tenant in the listing. */
  datatype Candidate = Candidate(partition: Partition, tenant: nat, layer: Layer, relative: real)

  function MinResidentSize(t: Tenant): nat
    requires t.Attached?
  {
    match t.minResidentOverride
    case Some(s) => s
    case None => t.maxLayerSize
  }

  function Total(t: Tenant): nat { if t.Attached? then |t.layers| else t.totalLayers }

  /** `total_layers` of a secondary tenant counts its resident layers and the ones already evicted. */
  predicate WellFormed(t: Tenant) { |t.layers| <= Total(t) }

  function Bytes(layers: seq<Layer>): nat {
    if layers == [] then 0 else Bytes(layers[..|layers| - 1]) + layers[|layers| - 1].size
  }

  lemma {:induction false} BytesSplit(a: seq<Layer>, b: seq<Layer>)
    ensures Bytes(a + b) == Bytes(a) + Bytes(b)
  {
    if b == [] {
      assert a + b == a;
    } else {
      assert (a + b)[..|a + b| - 1] == a + b[..|b| - 1];
      BytesSplit(a, b[..|b| - 1]);
    }
  }

  lemma BytesGrow(layers: seq<Layer>, i: nat, j: nat)
    requires i <= j <= |layers|
    ensures Bytes(layers[..i]) <= Bytes(layers[..j])
  {
    assert layers[..j] == layers[..i] + layers[i..j];
    BytesSplit(layers[..i], layers[i..j]);
  }

  // Relative age

  function Divider(order: EvictionOrder, total: nat): (d: nat)
    requires order.RelativeAccessed?
    ensures 0 < d
  {
    var fudge := if order.highestLayerCountLosesFirst then 0 else 1;
    if total >= fudge && total - fudge > 1 then total - fudge else 1
  }

  /** The age of the layer at `index`, index 0 being the most recently used; zero when outside [0, 1]. */
  function RelativeLastActivity(order: EvictionOrder, total: nat, index: nat): real {
    match order
    case AbsoluteAccessed => 0.0
    case RelativeAccessed(_) =>
      var d := Divider(order, total);
      var ratio := (d as int - index) as real / d as real;
      if 0.0 <= ratio <= 1.0 then ratio else 0.0
  }

  lemma Quotient(a: int, b: int, d: nat)
    requires 0 < d && 0 <= a <= b <= d
    ensures 0.0 <= a as real / d as real <= b as real / d as real <= 1.0
    ensures a < b ==> a as real / d as real < b as real / d as real
  {
    var x, y, z := a as real, b as real, d as real;
    assert (x / z) * z == x && (y / z) * z == y;
    assert (y / z - x / z) * z == y - x;
  }

  lemma WholeAge(d: nat)
    requires 0 < d
    ensures d as real / d as real == 1.0
  {
    var z := d as real;
    assert (z / z) * z == 1.0 * z;
  }

  /** The subtraction never underflows, the fallback is never taken, and the newest layer has age 1. */
  lemma RelativeAgeInRange(order: EvictionOrder, total: nat, index: nat)
    requires order.RelativeAccessed? && index < total
    ensures index <= Divider(order, total)
    ensures RelativeLastActivity(order, total, index)
        == (Divider(order, total) - index) as real / Divider(order, total) as real
    ensures 0.0 <= RelativeLastActivity(order, total, index) <= 1.0
    ensures RelativeLastActivity(order, total, 0) == 1.0
  {
    var d := Divider(order, total);
    Quotient(d - index, d, d);
    WholeAge(d);
  }

  lemma RelativeAgeDecreases(order: EvictionOrder, total: nat, i: nat, j: nat)
    requires order.RelativeAccessed? && i < j < total
    ensures RelativeLastActivity(order, total, j) < RelativeLastActivity(order, total, i)
  {
    var d := Divider(order, total);
    RelativeAgeInRange(order, total, i);
    RelativeAgeInRange(order, total, j);
    Quotient(d - j, d - i, d);
  }

  // Sorting

  ghost predicate TotalPreorder<T(!new)>(leq: (T, T) -> bool) {
    && (forall a, b {:trigger Comparable(leq, a, b)} :: Comparable(leq, a, b))
    && (forall a, b, c {:trigger Chains(leq, a, b, c)} :: Chains(leq, a, b, c))
  }

  predicate Comparable<T>(leq: (T, T) -> bool, a: T, b: T) { leq(a, b) || leq(b, a) }

  predicate Chains<T>(leq: (T, T) -> bool, a: T, b: T, c: T) { leq(a, b) && leq(b, c) ==> leq(a, c) }

  ghost predicate SortedBy<T>(leq: (T, T) -> bool, s: seq<T>) {
    forall i, j | 0 <= i < j < |s| :: leq(s[i], s[j])
  }

  lemma SortedJoin<T>(leq: (T, T) -> bool, a: seq<T>, b: seq<T>)
    requires SortedBy(leq, a) && SortedBy(leq, b)
    requires forall i, j | 0 <= i < |a| && 0 <= j < |b| :: leq(a[i], b[j])
    ensures SortedBy(leq, a + b)
  {
  }

  lemma InsertSorted<T(!new)>(leq: (T, T) -> bool, a: seq<T>, x: T, b: seq<T>)
    requires TotalPreorder(leq) && SortedBy(leq, a + b)
    requires (forall j | 0 <= j < |b| :: leq(x, b[j])) && (a != [] ==> leq(a[|a| - 1], x))
    ensures SortedBy(leq, a + [x] + b)
  {
    forall i, j | 0 <= i < j < |a|
      ensures leq(a[i], a[j])
    {
      assert (a + b)[i] == a[i] && (a + b)[j] == a[j];
    }
    forall i, j | 0 <= i < j < |b|
      ensures leq(b[i], b[j])
    {
      assert (a + b)[|a| + i] == b[i] && (a + b)[|a| + j] == b[j];
    }
    forall i | 0 <= i < |a|
      ensures leq(a[i], x)
    {
      assert i < |a| - 1 ==> leq(a[i], a[|a| - 1]);
      assert Chains(leq, a[i], a[|a| - 1], x);
    }
    forall i, j | 0 <= i < |a| && 0 <= j < |b|
      ensures leq(a[i], b[j])
    {
      assert Chains(leq, a[i], x, b[j]);
    }
    SortedJoin(leq, [x], b);
    SortedJoin(leq, a, [x] + b);
    assert a + [x] + b == a + ([x] + b);
  }

  /** `sort_unstable_by_key`: all that is known of the result is that it is sorted and a permutation. */
  method Sort<T(!new)>(input: seq<T>, leq: (T, T) -> bool) returns (output: seq<T>)
    requires TotalPreorder(leq)
    ensures SortedBy(leq, output)
    ensures multiset(output) == multiset(input)
  {
    output := [];
    for i := 0 to |input|
      invariant SortedBy(leq, output)
      invariant multiset(output) == multiset(input[..i])
    {
      output := Insert(output, input[i], leq);
      assert input[..i + 1] == input[..i] + [input[i]];
    }
    assert input[..|input|] == input;
  }

  /** `x` belongs right before position `p` of `s`. */
  ghost predicate IsPlace<T>(leq: (T, T) -> bool, s: seq<T>, x: T, p: nat) {
    && p <= |s|
    && (forall j | p <= j < |s| :: leq(x, s[j]))
    && (p > 0 ==> leq(s[p - 1], x))
  }

  lemma InsertAtPlace<T(!new)>(leq: (T, T) -> bool, s: seq<T>, x: T, p: nat)
    requires TotalPreorder(leq) && SortedBy(leq, s) && IsPlace(leq, s, x, p)
    ensures SortedBy(leq, s[..p] + [x] + s[p..])
  {
    assert s == s[..p] + s[p..];
    InsertSorted(leq, s[..p], x, s[p..]);
  }

  lemma InsertOne<T>(s: seq<T>, x: T, p: nat)
    requires p <= |s|
    ensures multiset(s[..p] + [x] + s[p..]) == multiset(s) + multiset{x}
  {
    assert s == s[..p] + s[p..];
  }

  method Insert<T(!new)>(s: seq<T>, x: T, leq: (T, T) -> bool) returns (r: seq<T>)
    requires TotalPreorder(leq) && SortedBy(leq, s)
    ensures SortedBy(leq, r)
    ensures multiset(r) == multiset(s) + multiset{x}
  {
    var p := PlaceOf(s, x, leq);
    InsertAtPlace(leq, s, x, p);
    InsertOne(s, x, p);
    r := s[..p] + [x] + s[p..];
  }

  method PlaceOf<T(!new)>(s: seq<T>, x: T, leq: (T, T) -> bool) returns (p: nat)
    requires TotalPreorder(leq)
    ensures IsPlace(leq, s, x, p)
  {
    p := |s|;
    while p > 0 && !leq(s[p - 1], x)
      invariant 0 <= p <= |s|
      invariant forall j | p <= j < |s| :: leq(x, s[j])
    {
      assert Comparable(leq, s[p - 1], x);
      p := p - 1;
    }
  }

  /** Most recently used first. */
  predicate Newer(a: Layer, b: Layer) { a.lastActivity >= b.lastActivity }

  /** The eviction order: layers above their tenant's minimum first, then by age. */
  predicate EvictedBefore(order: EvictionOrder, a: Candidate, b: Candidate) {
    if a.partition != b.partition then a.partition.Above?
    else if order.AbsoluteAccessed? then a.layer.lastActivity <= b.layer.lastActivity
    else a.relative <= b.relative
  }

  lemma OrdersAreTotal(order: EvictionOrder)
    ensures TotalPreorder(Newer)
    ensures TotalPreorder((a: Candidate, b: Candidate) => EvictedBefore(order, a, b))
  {
  }
}
