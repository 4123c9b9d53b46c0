/** Which elements of an index can be found: how insertion keeps the link graph connected, and when it does not. */
module HnswBuild {
  import opened Basics
  import opened HnswQueue
  import opened HnswSearch
  import opened HnswNeighbors
  import opened HnswIndex

  ghost predicate AllReachable(g: seq<Record>, maxM: nat)
    requires GraphOk(g, maxM)
  {
    forall v: nat | v < |g| :: Reachable(g, maxM, v)
  }

  /** More links, more elements to reach. */
  lemma StaysReachable(g: seq<Record>, g': seq<Record>, maxM: nat, v: nat)
    requires GraphOk(g, maxM) && GraphOk(g', maxM) && Reachable(g, maxM, v)
    requires forall a: nat, b: nat | Edge(g, maxM, a, b) :: Edge(g', maxM, a, b)
    ensures Reachable(g', maxM, v)
  {
    var path :| Path(g, maxM, path) && path[|path| - 1] == v;
    assert Path(g', maxM, path);
  }

  // One insertion

  /** What `AddPoint` promises about the graph `g` before and `now` after inserting an element that is not the first. */
  ghost predicate Inserted(index: HierarchicalNSW, g: seq<Record>, blank: Record, now: seq<Record>, top: seq<Entry>,
                           visited: set<nat>, kept: seq<Entry>)
    requires GraphOk(g, index.maxM)
  {
    var h := g + [blank];
    && |g| > 0 && GraphOk(h, index.maxM) && Shaped(blank, index.maxM) && Links(blank) == []
    && SearchResult(h, index.maxM, index.dist, blank.point, index.efConstruction, top, visited)
    && (forall e <- top :: e.id < |g|)
    && Chosen(PointsOf(h), index.dist, top, index.M, kept)
    && index.Connected(PointsOf(h), h, now, |g|, kept)
    && GraphOk(now, index.maxM)
  }

  /** With `M >= 1` a new element gets at least one link. */
  lemma KeepsOne(index: HierarchicalNSW, g: seq<Record>, blank: Record, now: seq<Record>, top: seq<Entry>,
                 visited: set<nat>, kept: seq<Entry>) returns (x: nat)
    requires GraphOk(g, index.maxM) && Inserted(index, g, blank, now, top, visited, kept) && index.M >= 1
    ensures x in DescIds(kept) && x < |g|
  {
    assert kept != [];
    assert DescIds(kept)[0] == kept[|kept| - 1].id;
    x := DescIds(kept)[0];
    assert kept[|kept| - 1] in kept && kept[|kept| - 1] in top;
  }

  ghost function Elements(s: seq<nat>): set<nat> { set x <- s }

  lemma {:induction false} DistinctCount(s: seq<nat>)
    requires Distinct(s)
    ensures |Elements(s)| == |s|
  {
    if s == [] {
      assert Elements(s) == {};
    } else {
      var rest, last := s[..|s| - 1], s[|s| - 1];
      DistinctCount(rest);
      assert s == rest + [last];
      assert Elements(s) == Elements(rest) + {last};
    }
  }

  /** An element of a small graph has room for another link. */
  lemma HasRoom(r: Record, n: nat, maxM: nat, self: nat)
    requires RecordOk(r, n, maxM, self) && self < n <= maxM
    ensures |Links(r)| < maxM
  {
    DistinctCount(Links(r));
    SubsetSize(Elements(Links(r)), Indices(n) - {self});
  }

  /** Where no link list involved is full, an insertion adds links and drops none. */
  lemma KeepsLinks(index: HierarchicalNSW, g: seq<Record>, blank: Record, now: seq<Record>, top: seq<Entry>,
                   visited: set<nat>, kept: seq<Entry>, a: nat)
    requires GraphOk(g, index.maxM) && Inserted(index, g, blank, now, top, visited, kept) && a < |g|
    requires |Links(g[a])| < index.maxM || a !in DescIds(kept)
    ensures Links(now[a]) == if a in DescIds(kept) then Links(g[a]) + [|g|] else Links(g[a])
  {
    assert RecordOk((g + [blank])[a], |g|, index.maxM, a);
  }

  /** Every chosen neighbour has room for one more link. */
  ghost predicate NoneFull(g: seq<Record>, maxM: nat, kept: seq<Entry>)
    requires GraphOk(g, maxM)
  {
    forall a: nat | a < |g| && a in DescIds(kept) :: |Links(g[a])| < maxM
  }

  /** An insertion that finds no full link list keeps what is reachable and makes the new element reachable. */
  lemma InsertReaches(index: HierarchicalNSW, g: seq<Record>, blank: Record, now: seq<Record>, top: seq<Entry>,
                      visited: set<nat>, kept: seq<Entry>)
    requires GraphOk(g, index.maxM) && Inserted(index, g, blank, now, top, visited, kept)
    requires index.M >= 1 && NoneFull(g, index.maxM, kept) && AllReachable(g, index.maxM)
    ensures AllReachable(now, index.maxM)
  {
    var maxM := index.maxM;
    forall a: nat, b: nat | Edge(g, maxM, a, b)
      ensures Edge(now, maxM, a, b)
    {
      KeepsLinks(index, g, blank, now, top, visited, kept, a);
    }
    forall v: nat | v < |g|
      ensures Reachable(now, maxM, v)
    {
      StaysReachable(g, now, maxM, v);
    }
    var x := KeepsOne(index, g, blank, now, top, visited, kept);
    KeepsLinks(index, g, blank, now, top, visited, kept, x);
    assert Edge(now, maxM, x, |g|);
    ReachNext(now, maxM, x, |g|);
  }

  /** With `M == 0` nothing is ever linked. */
  ghost predicate NoLinks(g: seq<Record>, maxM: nat)
    requires GraphOk(g, maxM)
  {
    forall i | 0 <= i < |g| :: RecordOk(g[i], |g|, maxM, i) && Links(g[i]) == []
  }

  lemma InsertUnlinked(index: HierarchicalNSW, g: seq<Record>, blank: Record, now: seq<Record>, top: seq<Entry>,
                       visited: set<nat>, kept: seq<Entry>)
    requires GraphOk(g, index.maxM) && Inserted(index, g, blank, now, top, visited, kept)
    requires index.M == 0 && NoLinks(g, index.maxM)
    ensures NoLinks(now, index.maxM)
  {
    forall i: nat | i < |now|
      ensures RecordOk(now[i], |now|, index.maxM, i) && Links(now[i]) == []
    {
      if i < |g| {
        KeepsLinks(index, g, blank, now, top, visited, kept, i);
      }
    }
  }

  lemma UnlinkedUnreachable(g: seq<Record>, maxM: nat, v: nat)
    requires GraphOk(g, maxM) && NoLinks(g, maxM) && Reachable(g, maxM, v)
    ensures v == 0
  {
    ClosedContainsReachable(g, maxM, {0}, v);
  }

  // Any number of insertions

  /** The elements of `g` are the inputs, in order. */
  ghost predicate Holds(g: seq<Record>, input: seq<(Point, nat)>) {
    |g| <= |input| && forall i | 0 <= i < |g| :: g[i].point == input[i].0 && g[i].externalLabel == input[i].1
  }

  lemma InsertHolds(index: HierarchicalNSW, g: seq<Record>, x: (Point, nat), now: seq<Record>, top: seq<Entry>,
                    visited: set<nat>, kept: seq<Entry>, input: seq<(Point, nat)>)
    requires GraphOk(g, index.maxM) && Holds(g, input) && |g| < |input| && x == input[|g|]
    requires Inserted(index, g, Blank(index.maxM, x.0, x.1), now, top, visited, kept)
    ensures Holds(now, input)
  {
    var h := g + [Blank(index.maxM, x.0, x.1)];
    forall i | 0 <= i < |now|
      ensures now[i].point == input[i].0 && now[i].externalLabel == input[i].1
    {
      if i < |g| {
        assert RecordOk(h[i], |g|, index.maxM, i);
      }
    }
  }

  /** What is known of an index with parameters `M` and `maxM` after any number of insertions. */
  ghost predicate Built(g: seq<Record>, M: nat, maxM: nat, input: seq<(Point, nat)>) {
    && GraphOk(g, maxM) && Holds(g, input)
    && (M >= 1 && |g| <= maxM + 1 ==> AllReachable(g, maxM))
    && (M == 0 ==> NoLinks(g, maxM))
  }

  lemma InsertBuilt(index: HierarchicalNSW, g: seq<Record>, x: (Point, nat), now: seq<Record>, top: seq<Entry>,
                    visited: set<nat>, kept: seq<Entry>, input: seq<(Point, nat)>)
    requires Built(g, index.M, index.maxM, input) && |g| < |input| && x == input[|g|]
    requires Inserted(index, g, Blank(index.maxM, x.0, x.1), now, top, visited, kept)
    ensures Built(now, index.M, index.maxM, input)
  {
    var blank := Blank(index.maxM, x.0, x.1);
    InsertHolds(index, g, x, now, top, visited, kept, input);
    if index.M == 0 {
      InsertUnlinked(index, g, blank, now, top, visited, kept);
    } else if |g| <= index.maxM {
      forall a: nat | a < |g| && a in DescIds(kept)
        ensures |Links(g[a])| < index.maxM
      {
        HasRoom(g[a], |g|, index.maxM, a);
      }
      InsertReaches(index, g, blank, now, top, visited, kept);
    }
  }

  lemma FirstBuilt(M: nat, maxM: nat, input: seq<(Point, nat)>)
    requires input != []
    ensures Built([Blank(maxM, input[0].0, input[0].1)], M, maxM, input)
  {
    var g := [Blank(maxM, input[0].0, input[0].1)];
    BlankOk([], maxM, input[0].0, input[0].1);
    assert [] + g == g;
    assert Path(g, maxM, [0]);
    assert [0][|[0]| - 1] == 0;
  }

  /** Insert the next input.  It is refused exactly when the index is full. */
  method InsertNext(index: HierarchicalNSW, input: seq<(Point, nat)>) returns (ok: bool)
    requires index.Valid() && index.count < |input| && Built(index.Graph(), index.M, index.maxM, input)
    modifies index, index.records
    ensures index.Valid() && Built(index.Graph(), index.M, index.maxM, input)
    ensures ok <==> old(index.count) < index.maxelements
    ensures index.count == if ok then old(index.count) + 1 else old(index.count)
  {
    ghost var g := index.Graph();
    var x := input[index.count];
    ghost var top, visited, kept;
    ok, top, visited, kept := index.AddPoint(x.0, x.1);
    if !ok {
      assert index.Graph() == g;
    } else if |g| == 0 {
      FirstBuilt(index.M, index.maxM, input);
    } else {
      InsertBuilt(index, g, x, index.Graph(), top, visited, kept, input);
    }
  }

  /**
   * Any sequence of insertions into a new index: none of the consistency checks fires, and the graph stays well formed.
   * Up to `maxM + 1` elements stay reachable from the entry point.
   */
  method Build(maxelements: nat, M: nat, maxM: nat, efConstruction: nat, dist: Metric, input: seq<(Point, nat)>)
    returns (index: HierarchicalNSW, rejected: nat)
    requires M <= maxM
    ensures fresh(index) && index.Valid() && index.maxM == maxM && index.dist == dist
    ensures rejected == if |input| <= maxelements then 0 else |input| - maxelements
    ensures index.count == |input| - rejected
    ensures Holds(index.Graph(), input)
    ensures M >= 1 && index.count <= maxM + 1 ==> AllReachable(index.Graph(), maxM)
    ensures M == 0 ==> forall v: nat | Reachable(index.Graph(), maxM, v) :: v == 0
  {
    index := new HierarchicalNSW(maxelements, M, maxM, efConstruction, dist);
    rejected := 0;
    for i := 0 to |input|
      invariant fresh(index) && fresh(index.records) && index.Valid()
      invariant index.M == M && index.maxM == maxM && index.maxelements == maxelements && index.dist == dist
      invariant index.count == i - rejected && rejected == if i <= maxelements then 0 else i - maxelements
      invariant Built(index.Graph(), M, maxM, input)
    {
      var ok := InsertNext(index, input);
      if !ok {
        rejected := rejected + 1;
      }
    }
    if M == 0 {
      forall v: nat | Reachable(index.Graph(), maxM, v)
        ensures v == 0
      {
        UnlinkedUnreachable(index.Graph(), maxM, v);
      }
    }
  }

  /** Build and search: in a small index a wide search returns every label that was accepted. */
  method BuildAndSearch(maxelements: nat, M: nat, maxM: nat, efConstruction: nat, dist: Metric,
                        input: seq<(Point, nat)>, query: Point, efSearch: nat)
    returns (labels: seq<nat>, nodes: seq<nat>, accepted: nat)
    requires M <= maxM && maxelements > 0 && input != []
    ensures accepted == if |input| <= maxelements then |input| else maxelements
    ensures |labels| == |nodes| && Distinct(nodes)
    ensures forall i | 0 <= i < |labels| :: nodes[i] < accepted && labels[i] == input[nodes[i]].1
    ensures M >= 1 && accepted <= maxM + 1 && accepted <= efSearch ==> forall v: nat :: v in nodes <==> v < accepted
  {
    var index, rejected := Build(maxelements, M, maxM, efConstruction, dist, input);
    accepted := |input| - rejected;
    ghost var found, top, visited;
    labels, nodes, found, top, visited := index.Search(query, efSearch);
    forall i | 0 <= i < |labels|
      ensures nodes[i] < accepted && labels[i] == input[nodes[i]].1
    {
      assert Describes(index.Graph(), dist, query, nodes[i], found[i]);
    }
  }
}
