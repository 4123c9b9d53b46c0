/**
 * An index that loses elements.
 *
 * The first point is the origin and the others are unit vectors, which are all nearer to the origin than to each other.
 * From the `M`-th on, every new element is linked with the first one only, the hub, whose list has room for `maxM`.
 */
module HnswStar {
  import opened Basics
  import opened HnswQueue
  import opened HnswSearch
  import opened HnswNeighbors
  import opened HnswIndex
  import opened HnswBuild

  /** The sum of the squared differences of the first `n` coordinates. */
  function SquaredDistance(x: Point, y: Point, n: nat): real
    requires n <= |x| && n <= |y|
  {
    if n == 0 then 0.0
    else SquaredDistance(x, y, n - 1) + (x[n - 1] - y[n - 1]) * (x[n - 1] - y[n - 1])
  }

  /** `fstdistfunc`, for points of `dim` coordinates. */
  function Euclidean(dim: nat): Metric {
    (x: Point, y: Point) => if |x| == |y| == dim then SquaredDistance(x, y, dim) else 0.0
  }

  /** The origin for 0, and the unit vector along axis `i - 1` otherwise. */
  function Unit(dim: nat, i: nat): Point { seq(dim, j => if j + 1 == i then 1.0 else 0.0) }

  lemma {:induction false} UnitDistance(dim: nat, i: nat, j: nat, n: nat)
    requires n <= dim && i != j
    ensures SquaredDistance(Unit(dim, i), Unit(dim, j), n)
         == (if 1 <= i <= n then 1.0 else 0.0) + (if 1 <= j <= n then 1.0 else 0.0)
  {
    if n > 0 {
      UnitDistance(dim, i, j, n - 1);
    }
  }

  /** The other points are at distance 2 from each other and 1 from the origin. */
  lemma SpokeDistance(dim: nat, i: nat, j: nat)
    requires i < j <= dim
    ensures Euclidean(dim)(Unit(dim, j), Unit(dim, i)) == if i == 0 then 1.0 else 2.0
  {
    UnitDistance(dim, j, i, dim);
  }

  /** The first `M` elements link among each other, the later ones to the hub only. */
  ghost predicate Spokes(g: seq<Record>, M: nat, maxM: nat)
    requires GraphOk(g, maxM)
  {
    forall i | 0 < i < |g| ::
      && RecordOk(g[i], |g|, maxM, i)
      && if i < M then Below(Links(g[i]), M) else Links(g[i]) == [0]
  }

  predicate Below(ids: seq<nat>, n: nat) { forall id <- ids :: id < n }

  /** The origin and unit vectors, where the hub has enough links to fill the links of another element. */
  ghost predicate Star(g: seq<Record>, M: nat, maxM: nat, dim: nat) {
    && GraphOk(g, maxM) && |g| > 0
    && (forall i | 0 <= i < |g| :: g[i].point == Unit(dim, i))
    && Spokes(g, M, maxM)
    && RecordOk(g[0], |g|, maxM, 0) && (|Links(g[0])| + 1 >= M || |Links(g[0])| + 1 == |g|)
  }

  ghost predicate StarIndex(index: HierarchicalNSW, dim: nat) {
    && 1 <= index.M <= index.maxM && index.dist == Euclidean(dim)
    && (index.efConstruction <= 1 || index.M <= index.efConstruction)
  }

  /** A new unit vector is about to be inserted into, or has been inserted into, a star. */
  ghost predicate Inserting(index: HierarchicalNSW, dim: nat, g: seq<Record>, blank: Record, now: seq<Record>,
                            top: seq<Entry>, visited: set<nat>, kept: seq<Entry>) {
    && StarIndex(index, dim) && Star(g, index.M, index.maxM, dim)
    && |g| <= dim && blank.point == Unit(dim, |g|)
    && Inserted(index, g, blank, now, top, visited, kept)
  }

  /** The search for a new element finds the hub, and finds it to be the nearest. */
  lemma HubIsFound(index: HierarchicalNSW, dim: nat, g: seq<Record>, blank: Record, now: seq<Record>,
                   top: seq<Entry>, visited: set<nat>, kept: seq<Entry>)
    requires Inserting(index, dim, g, blank, now, top, visited, kept)
    ensures Entry(1.0, 0) in top && forall e <- top :: e.dist == if e.id == 0 then 1.0 else 2.0
  {
    var h := g + [blank];
    forall e <- top
      ensures e.dist == if e.id == 0 then 1.0 else 2.0
    {
      SpokeDistance(dim, e.id, |g|);
    }
    SpokeDistance(dim, 0, |g|);
    assert InOrFarther(h, index.dist, blank.point, index.efConstruction, top, 0);
    assert Top(top) in top;
  }

  /** A search that is wide enough to fill the links of the new element finds that many. */
  lemma EnoughFound(index: HierarchicalNSW, dim: nat, g: seq<Record>, blank: Record, now: seq<Record>,
                    top: seq<Entry>, visited: set<nat>, kept: seq<Entry>)
    requires Inserting(index, dim, g, blank, now, top, visited, kept)
    requires |g| >= index.M && index.efConstruction >= index.M
    ensures |top| >= index.M
  {
    HubIsFound(index, dim, g, blank, now, top, visited, kept);
    var h := g + [blank];
    var links := Links(g[0]);
    if |top| < index.M {
      assert 0 in Ids(top);
      forall v <- links
        ensures v in Ids(top)
      {
        assert Edge(h, index.maxM, 0, v);
        assert InOrFarther(h, index.dist, blank.point, index.efConstruction, top, v);
      }
      IdsCount(top);
      DistinctCount(links);
      SubsetSize(Elements(links) + {0}, Ids(top));
    }
  }

  /** Every element but the hub is nearer to the hub than to the new one. */
  lemma HubRulesOut(index: HierarchicalNSW, dim: nat, g: seq<Record>, blank: Record, now: seq<Record>,
                    top: seq<Entry>, visited: set<nat>, kept: seq<Entry>, e: Entry)
    requires Inserting(index, dim, g, blank, now, top, visited, kept) && e in top && e.id != 0
    ensures RulesOut(PointsOf(g + [blank]), index.dist, Entry(1.0, 0), e)
  {
    HubIsFound(index, dim, g, blank, now, top, visited, kept);
    UnitDistance(dim, 0, e.id, dim);
  }

  /** Once there are `M` elements, a new one is linked to the hub only. */
  lemma HubIsKept(index: HierarchicalNSW, dim: nat, g: seq<Record>, blank: Record, now: seq<Record>,
                  top: seq<Entry>, visited: set<nat>, kept: seq<Entry>)
    requires Inserting(index, dim, g, blank, now, top, visited, kept) && |g| >= index.M
    ensures DescIds(kept) == [0]
  {
    HubIsFound(index, dim, g, blank, now, top, visited, kept);
    var hub := Entry(1.0, 0);
    if index.efConstruction >= index.M {
      EnoughFound(index, dim, g, blank, now, top, visited, kept);
    }
    if |top| < index.M {
      assert |top| == 1 && kept == top && top[0] == hub;
    } else {
      var n :| n in kept && Nearest(n, top);
      assert n.dist <= hub.dist;
      assert n == hub;
      forall e <- kept
        ensures e == hub
      {
        if e.id != 0 {
          HubRulesOut(index, dim, g, blank, now, top, visited, kept, e);
        } else {
          UniqueId(top, e, hub);
        }
      }
      OnlyEntry(kept, hub);
    }
  }

  lemma OnlyEntry(q: seq<Entry>, e: Entry)
    requires IsQueue(q) && q != [] && forall x <- q :: x == e
    ensures q == [e]
  {
    assert q[0] in q;
    assert Ids(q) == {e.id};
    IdsCount(q);
  }

  /** Before there are `M` elements, links stay among them. */
  lemma EarlySpokes(index: HierarchicalNSW, dim: nat, g: seq<Record>, blank: Record, now: seq<Record>,
                    top: seq<Entry>, visited: set<nat>, kept: seq<Entry>)
    requires Inserting(index, dim, g, blank, now, top, visited, kept) && |g| < index.M
    ensures Spokes(now, index.M, index.maxM) && Links(now[0]) == Links(g[0]) + [|g|]
  {
    IdsCount(top);
    InRangeCount(Ids(top), |g|);
    DescIdsOk(kept);
    forall i: nat | i < |g|
      ensures Links(now[i]) == if i in DescIds(kept) then Links(g[i]) + [|g|] else Links(g[i])
    {
      HasRoom(g[i], |g|, index.maxM, i);
      KeepsLinks(index, g, blank, now, top, visited, kept, i);
    }
    HubIsFound(index, dim, g, blank, now, top, visited, kept);
    assert 0 in Ids(top);
  }

  lemma LateSpokes(index: HierarchicalNSW, dim: nat, g: seq<Record>, blank: Record, now: seq<Record>,
                   top: seq<Entry>, visited: set<nat>, kept: seq<Entry>)
    requires Inserting(index, dim, g, blank, now, top, visited, kept) && |g| >= index.M
    ensures Spokes(now, index.M, index.maxM)
  {
    HubIsKept(index, dim, g, blank, now, top, visited, kept);
    forall i: nat | 0 < i < |g|
      ensures Links(now[i]) == Links(g[i])
    {
      KeepsLinks(index, g, blank, now, top, visited, kept, i);
    }
  }

  /** The full hub keeps `maxM` links: none of its links is nearer to another one than to the hub. */
  lemma HubStaysFull(dim: nat, pts: seq<Point>, maxM: nat, ids: seq<nat>, input: seq<Entry>, kept: seq<Entry>)
    requires 0 < |pts| <= dim + 1 && forall i | 0 <= i < |pts| :: pts[i] == Unit(dim, i)
    requires Distinct(ids) && |ids| == maxM + 1 && 0 !in ids
    requires Reselected(pts, Euclidean(dim), maxM, ids, 0, input, kept)
    ensures |kept| == maxM
  {
    forall x <- input, a <- kept
      ensures !RulesOut(pts, Euclidean(dim), a, x)
    {
      assert a in input && a.id in Ids(input) && x.id in Ids(input);
      UnitDistance(dim, x.id, 0, dim);
      if a.id == x.id {
        UniqueId(input, a, x);
      } else {
        UnitDistance(dim, a.id, x.id, dim);
      }
    }
    if |kept| < maxM {
      forall id <- Elements(ids)
        ensures id in Ids(kept)
      {
        var x :| x in input && x.id == id;
        assert x in kept;
      }
      DistinctCount(ids);
      SubsetSize(Elements(ids), Ids(kept));
      IdsCount(kept);
    }
  }

  lemma LateHub(index: HierarchicalNSW, dim: nat, g: seq<Record>, blank: Record, now: seq<Record>,
                top: seq<Entry>, visited: set<nat>, kept: seq<Entry>)
    requires Inserting(index, dim, g, blank, now, top, visited, kept) && |g| >= index.M
    ensures |Links(now[0])| + 1 >= index.M
  {
    HubIsKept(index, dim, g, blank, now, top, visited, kept);
    assert DescIds(kept)[0] == 0;
    var links := Links(g[0]);
    if |links| < index.maxM {
      KeepsLinks(index, g, blank, now, top, visited, kept, 0);
    } else {
      var h := g + [blank];
      assert RecordOk(h[0], |g|, index.maxM, 0);
      AppendDistinct(links, |g|);
      var input, kept' :| Reselected(PointsOf(h), index.dist, index.maxM, links + [|g|], 0, input, kept')
                          && Links(now[0]) == DescIds(kept');
      HubStaysFull(dim, PointsOf(h), index.maxM, links + [|g|], input, kept');
    }
  }

  lemma StarPoints(index: HierarchicalNSW, dim: nat, g: seq<Record>, blank: Record, now: seq<Record>,
                   top: seq<Entry>, visited: set<nat>, kept: seq<Entry>)
    requires Inserting(index, dim, g, blank, now, top, visited, kept)
    ensures forall i | 0 <= i < |now| :: now[i].point == Unit(dim, i)
  {
    forall i | 0 <= i < |now|
      ensures now[i].point == Unit(dim, i)
    {
      if i < |g| {
        assert RecordOk((g + [blank])[i], |g|, index.maxM, i);
      }
    }
  }

  lemma StarStays(index: HierarchicalNSW, dim: nat, g: seq<Record>, blank: Record, now: seq<Record>,
                  top: seq<Entry>, visited: set<nat>, kept: seq<Entry>)
    requires Inserting(index, dim, g, blank, now, top, visited, kept)
    ensures Star(now, index.M, index.maxM, dim)
  {
    StarPoints(index, dim, g, blank, now, top, visited, kept);
    if |g| < index.M {
      EarlySpokes(index, dim, g, blank, now, top, visited, kept);
    } else {
      LateSpokes(index, dim, g, blank, now, top, visited, kept);
      LateHub(index, dim, g, blank, now, top, visited, kept);
    }
  }

  /** Beyond the first `M` elements, what the hub does not link to is out of reach. */
  lemma OnlyThroughHub(g: seq<Record>, M: nat, maxM: nat, v: nat)
    requires GraphOk(g, maxM) && |g| > 0 && M > 0 && Spokes(g, M, maxM) && Reachable(g, maxM, v)
    ensures v in Indices(M) + Elements(Links(g[0]))
  {
    var near := Indices(M) + Elements(Links(g[0]));
    forall a, b | a in near && Edge(g, maxM, a, b)
      ensures b in near
    {
      assert RecordOk(g[a], |g|, maxM, a);
    }
    ClosedContainsReachable(g, maxM, near, v);
  }

  ghost function Found(g: seq<Record>, maxM: nat): set<nat>
    requires GraphOk(g, maxM)
  {
    set v: nat | v < |g| && Reachable(g, maxM, v)
  }

  lemma FewFound(g: seq<Record>, M: nat, maxM: nat)
    requires GraphOk(g, maxM) && |g| > 0 && M > 0 && Spokes(g, M, maxM)
    ensures |Found(g, maxM)| <= M + maxM
  {
    var near := Indices(M) + Elements(Links(g[0]));
    forall v <- Found(g, maxM)
      ensures v in near
    {
      OnlyThroughHub(g, M, maxM, v);
    }
    SubsetSize(Found(g, maxM), near);
    DistinctCount(Links(g[0]));
  }

  lemma FirstIsStar(M: nat, maxM: nat, dim: nat)
    ensures Star([Blank(maxM, Unit(dim, 0), 0)], M, maxM, dim)
  {
    BlankOk([], maxM, Unit(dim, 0), 0);
    assert [] + [Blank(maxM, Unit(dim, 0), 0)] == [Blank(maxM, Unit(dim, 0), 0)];
  }

  method InsertSpoke(index: HierarchicalNSW, dim: nat)
    requires index.Valid() && index.count < index.maxelements && index.count <= dim
    requires StarIndex(index, dim) && Star(index.Graph(), index.M, index.maxM, dim)
    modifies index, index.records
    ensures index.Valid() && index.count == old(index.count) + 1
    ensures Star(index.Graph(), index.M, index.maxM, dim)
  {
    ghost var g := index.Graph();
    var cur := index.count;
    ghost var top, visited, kept;
    var ok;
    ok, top, visited, kept := index.AddPoint(Unit(dim, cur), cur);
    StarStays(index, dim, g, Blank(index.maxM, Unit(dim, cur), cur), index.Graph(), top, visited, kept);
  }

  /**
   * What is lost is not bounded: however many of these points are inserted, at most `M + maxM` of them can be found.
   * With `M == 1` this is the bound of `Build`.
   */
  method BuildStar(M: nat, maxM: nat, efConstruction: nat, dim: nat) returns (index: HierarchicalNSW)
    requires 1 <= M <= maxM && (efConstruction <= 1 || M <= efConstruction)
    ensures fresh(index) && index.Valid() && index.count == dim + 1 && index.maxM == maxM
    ensures index.dist == Euclidean(dim) && forall i | 0 <= i < index.count :: index.Graph()[i].point == Unit(dim, i)
    ensures |Found(index.Graph(), maxM)| <= M + maxM
  {
    index := new HierarchicalNSW(dim + 1, M, maxM, efConstruction, Euclidean(dim));
    var _, _, _, _ := index.AddPoint(Unit(dim, 0), 0);
    FirstIsStar(M, maxM, dim);
    for i := 1 to dim + 1
      invariant fresh(index) && fresh(index.records) && index.Valid() && StarIndex(index, dim)
      invariant index.M == M && index.maxM == maxM && index.maxelements == dim + 1
      invariant index.count == i && Star(index.Graph(), M, maxM, dim)
    {
      InsertSpoke(index, dim);
    }
    FewFound(index.Graph(), M, maxM);
  }
}
