/** What best-first search over the link lists of an HNSW index returns. */
module HnswSearch {
  import opened Basics
  import opened HnswQueue

  type Point = seq<real>
  type Metric = (Point, Point) -> real

  /** `words[0]` is the number of links, the next `maxM` words hold them. */
  datatype Record = Record(words: seq<nat>, point: Point, externalLabel: nat)

  predicate Shaped(r: Record, maxM: nat) { |r.words| == maxM + 1 && r.words[0] <= maxM }

  function Links(r: Record): seq<nat>
    requires r.words != [] && r.words[0] < |r.words|
  {
    r.words[1..1 + r.words[0]]
  }

  /** Element `self` of `n`: at most `maxM` links, all distinct and in range, none to itself. */
  ghost predicate RecordOk(r: Record, n: nat, maxM: nat, self: nat) {
    && Shaped(r, maxM)
    && Distinct(Links(r))
    && forall id <- Links(r) :: id < n && id != self
  }

  ghost predicate GraphOk(g: seq<Record>, maxM: nat) {
    forall i | 0 <= i < |g| :: RecordOk(g[i], |g|, maxM, i)
  }

  ghost predicate Edge(g: seq<Record>, maxM: nat, a: nat, b: nat)
    requires GraphOk(g, maxM)
  {
    a < |g| && b in Links(g[a])
  }

  // Reachability from the entry point, which is always element 0

  ghost predicate Path(g: seq<Record>, maxM: nat, path: seq<nat>)
    requires GraphOk(g, maxM)
  {
    && path != [] && path[0] == 0
    && forall i | 0 <= i < |path| - 1 :: Edge(g, maxM, path[i], path[i + 1])
  }

  ghost predicate Reachable(g: seq<Record>, maxM: nat, v: nat)
    requires GraphOk(g, maxM)
  {
    exists path :: Path(g, maxM, path) && path[|path| - 1] == v
  }

  lemma ReachNext(g: seq<Record>, maxM: nat, a: nat, b: nat)
    requires GraphOk(g, maxM) && Reachable(g, maxM, a) && Edge(g, maxM, a, b)
    ensures Reachable(g, maxM, b)
  {
    var path :| Path(g, maxM, path) && path[|path| - 1] == a;
    var longer := path + [b];
    forall i | 0 <= i < |longer| - 1
      ensures Edge(g, maxM, longer[i], longer[i + 1])
    {
      if i < |path| - 1 {
        assert Edge(g, maxM, path[i], path[i + 1]);
      }
    }
    assert Path(g, maxM, longer) && longer[|longer| - 1] == b;
  }

  /** A set that contains the entry point and is closed under links contains everything reachable. */
  lemma ClosedContainsReachable(g: seq<Record>, maxM: nat, s: set<nat>, v: nat)
    requires GraphOk(g, maxM) && 0 in s && Reachable(g, maxM, v)
    requires forall a, b | a in s && Edge(g, maxM, a, b) :: b in s
    ensures v in s
  {
    var path :| Path(g, maxM, path) && path[|path| - 1] == v;
    PathStaysInside(g, maxM, s, path, |path| - 1);
  }

  lemma {:induction false} PathStaysInside(g: seq<Record>, maxM: nat, s: set<nat>, path: seq<nat>, i: nat)
    requires GraphOk(g, maxM) && 0 in s && Path(g, maxM, path) && i < |path|
    requires forall a, b | a in s && Edge(g, maxM, a, b) :: b in s
    ensures path[i] in s
  {
    if i > 0 {
      PathStaysInside(g, maxM, s, path, i - 1);
      assert Edge(g, maxM, path[i - 1], path[i - 1 + 1]);
    }
  }

  // Results of a search

  function DistTo(g: seq<Record>, d: Metric, q: Point, v: nat): real
    requires v < |g|
  {
    d(q, g[v].point)
  }

  /** The result never holds more than this; `ef == 0` behaves like `ef == 1`. */
  function Cap(ef: nat): nat { if ef == 0 then 1 else ef }

  ghost predicate TopOk(g: seq<Record>, d: Metric, q: Point, ef: nat, top: seq<Entry>) {
    && IsQueue(top) && 0 < |top| <= Cap(ef)
    && forall e <- top :: e.id < |g| && e.dist == DistTo(g, d, q, e.id)
  }

  /** `v` is in the result, or the result is full and `v` no closer than its worst entry. */
  ghost predicate InOrFarther(g: seq<Record>, d: Metric, q: Point, ef: nat, top: seq<Entry>, v: nat)
    requires top != []
  {
    v < |g| && (v in Ids(top) || (|top| == Cap(ef) && Top(top).dist <= DistTo(g, d, q, v)))
  }

  ghost predicate LeftOutOk(g: seq<Record>, d: Metric, q: Point, ef: nat, top: seq<Entry>, visited: set<nat>)
    requires top != []
  {
    forall v {:trigger InOrFarther(g, d, q, ef, top, v)} | v in visited :: InOrFarther(g, d, q, ef, top, v)
  }

  ghost predicate VisitedOk(g: seq<Record>, maxM: nat, visited: set<nat>)
    requires GraphOk(g, maxM)
  {
    && 0 in visited
    && (forall v <- visited :: v < |g|)
    && (forall v {:trigger Reachable(g, maxM, v)} | v in visited :: Reachable(g, maxM, v))
  }

  /** What `searchBaseLayer` promises. */
  ghost predicate SearchResult(g: seq<Record>, maxM: nat, d: Metric, q: Point, ef: nat, top: seq<Entry>,
                               visited: set<nat>)
    requires GraphOk(g, maxM)
  {
    && TopOk(g, d, q, ef, top)
    && VisitedOk(g, maxM, visited)
    && Ids(top) <= visited
    && LeftOutOk(g, d, q, ef, top, visited)
    && forall a, b | a in Ids(top) && Edge(g, maxM, a, b) :: b in visited
  }

  /** A newly visited element that is closer than the worst result, or for which there is room, displaces the worst. */
  lemma AdmitOk(g: seq<Record>, d: Metric, q: Point, ef: nat, top: seq<Entry>, visited: set<nat>, v: nat,
                more: seq<Entry>)
    requires TopOk(g, d, q, ef, top) && LeftOutOk(g, d, q, ef, top, visited)
    requires v < |g| && v !in Ids(top) && Pushed(top, Entry(DistTo(g, d, q, v), v), more)
    requires Top(top).dist > DistTo(g, d, q, v) || |top| < ef
    ensures var top' := if |more| > ef then Pop(more) else more;
            && TopOk(g, d, q, ef, top')
            && LeftOutOk(g, d, q, ef, top', visited + {v})
            && Ids(top') <= Ids(top) + {v}
  {
    PopIsQueue(top);
    PopIsQueue(more);
    assert Top(top) in more && Top(more) in more;
    var top' := if |more| > ef then Pop(more) else more;
    forall x <- visited + {v}
      ensures InOrFarther(g, d, q, ef, top', x)
    {
      assert x in visited ==> InOrFarther(g, d, q, ef, top, x);
    }
  }

  /** An element that is not admitted is no closer than the worst entry of a full result. */
  lemma RejectOk(g: seq<Record>, d: Metric, q: Point, ef: nat, top: seq<Entry>, visited: set<nat>, v: nat)
    requires TopOk(g, d, q, ef, top) && LeftOutOk(g, d, q, ef, top, visited) && v < |g|
    requires Top(top).dist <= DistTo(g, d, q, v) && ef <= |top|
    ensures LeftOutOk(g, d, q, ef, top, visited + {v})
  {
  }

  // One search in progress

  /** The two queues and the visited set, with `done` the elements whose links have been or are being followed. */
  ghost predicate InProgress(g: seq<Record>, maxM: nat, d: Metric, q: Point, ef: nat, top: seq<Entry>,
                             candidates: seq<Entry>, visited: set<nat>, done: set<nat>)
    requires GraphOk(g, maxM)
  {
    && TopOk(g, d, q, ef, top)
    && VisitedOk(g, maxM, visited)
    && Ids(top) <= visited && Ids(top) <= done + Ids(candidates)
    && LeftOutOk(g, d, q, ef, top, visited)
    && IsQueue(candidates)
    && forall e <- candidates :: e.id in visited && e.id < |g| && e.dist == -DistTo(g, d, q, e.id)
  }

  /** All links of the elements in `done` lead to visited elements. */
  ghost predicate Closed(g: seq<Record>, maxM: nat, done: set<nat>, visited: set<nat>)
    requires GraphOk(g, maxM)
  {
    forall a, b | a in done && Edge(g, maxM, a, b) :: b in visited
  }

  /** The visited bitmap. */
  ghost predicate Marks(seen: seq<bool>, n: nat, visited: set<nat>) {
    |seen| == n && forall v | 0 <= v < n :: seen[v] <==> v in visited
  }

  lemma MarkMore(seen: seq<bool>, n: nat, visited: set<nat>, v: nat)
    requires Marks(seen, n, visited) && v < n
    ensures Marks(seen[v := true], n, visited + {v})
  {
  }

  ghost predicate LinksVisited(links: seq<nat>, j: nat, visited: set<nat>)
    requires j <= |links|
  {
    forall i | 0 <= i < j :: links[i] in visited
  }

  lemma ClosedMore(g: seq<Record>, maxM: nat, done: set<nat>, visited: set<nat>, c: nat, visited': set<nat>)
    requires GraphOk(g, maxM) && Closed(g, maxM, done, visited) && visited <= visited'
    requires c < |g| && RecordOk(g[c], |g|, maxM, c) && LinksVisited(Links(g[c]), |Links(g[c])|, visited')
    ensures Closed(g, maxM, done + {c}, visited')
  {
  }

  /** Taking the nearest candidate off its queue. */
  lemma TakeOk(g: seq<Record>, maxM: nat, d: Metric, q: Point, ef: nat, top: seq<Entry>, candidates: seq<Entry>,
               visited: set<nat>, done: set<nat>)
    requires GraphOk(g, maxM) && InProgress(g, maxM, d, q, ef, top, candidates, visited, done) && candidates != []
    ensures InProgress(g, maxM, d, q, ef, top, Pop(candidates), visited, done + {Top(candidates).id})
    ensures Top(candidates).id in visited && Top(candidates).id < |g|
  {
    PopIsQueue(candidates);
    assert Top(candidates) in candidates;
  }

  lemma StartOk(g: seq<Record>, maxM: nat, d: Metric, q: Point, ef: nat)
    requires GraphOk(g, maxM) && |g| > 0
    ensures var x := DistTo(g, d, q, 0);
            InProgress(g, maxM, d, q, ef, [Entry(x, 0)], [Entry(-x, 0)], {0}, {})
  {
    assert Path(g, maxM, [0]) && [0][|[0]| - 1] == 0;
    var e := Entry(DistTo(g, d, q, 0), 0);
    assert e in [e];
  }

  /** Queues that differ from those of a search in progress by the element `v` only. */
  lemma VisitOk(g: seq<Record>, maxM: nat, d: Metric, q: Point, ef: nat, top: seq<Entry>, candidates: seq<Entry>,
                   visited: set<nat>, done: set<nat>, a: nat, v: nat, top': seq<Entry>, candidates': seq<Entry>)
    requires GraphOk(g, maxM) && InProgress(g, maxM, d, q, ef, top, candidates, visited, done)
    requires a in visited && v < |g| && Edge(g, maxM, a, v)
    requires TopOk(g, d, q, ef, top') && LeftOutOk(g, d, q, ef, top', visited + {v}) && Ids(top') <= Ids(top) + {v}
    requires IsQueue(candidates') && Ids(candidates) <= Ids(candidates')
    requires v in Ids(top') ==> v in Ids(candidates')
    requires forall e <- candidates' :: e in candidates || e == Entry(-DistTo(g, d, q, v), v)
    ensures InProgress(g, maxM, d, q, ef, top', candidates', visited + {v}, done)
  {
    assert Reachable(g, maxM, a);
    ReachNext(g, maxM, a, v);
  }

  /** When no candidate is left, or the nearest one is farther than the worst result, every returned element is done. */
  lemma FinishOk(g: seq<Record>, maxM: nat, d: Metric, q: Point, ef: nat, top: seq<Entry>, candidates: seq<Entry>,
                 visited: set<nat>, done: set<nat>)
    requires GraphOk(g, maxM) && InProgress(g, maxM, d, q, ef, top, candidates, visited, done)
    requires Closed(g, maxM, done, visited)
    requires candidates != [] ==> -Top(candidates).dist > Top(top).dist
    ensures SearchResult(g, maxM, d, q, ef, top, visited)
  {
    PopIsQueue(top);
    if candidates != [] {
      PopIsQueue(candidates);
    }
    forall e <- top, c <- candidates
      ensures e.id != c.id
    {
      assert e.dist == DistTo(g, d, q, e.id) && c.dist == -DistTo(g, d, q, c.id);
    }
    assert Ids(top) <= done;
  }

  // Consequences

  /** A neighbour of a returned element is returned too, or no closer than the worst result. */
  lemma NeighboursNotCloser(g: seq<Record>, maxM: nat, d: Metric, q: Point, ef: nat, top: seq<Entry>, visited: set<nat>,
                            a: nat, b: nat)
    requires GraphOk(g, maxM) && SearchResult(g, maxM, d, q, ef, top, visited)
    requires a in Ids(top) && Edge(g, maxM, a, b)
    ensures InOrFarther(g, d, q, ef, top, b)
  {
    assert b in visited;
  }

  /** With room for all elements, the search finds exactly the elements reachable from the entry point. */
  lemma WideSearchIsExhaustive(g: seq<Record>, maxM: nat, d: Metric, q: Point, ef: nat, top: seq<Entry>,
                               visited: set<nat>)
    requires GraphOk(g, maxM) && SearchResult(g, maxM, d, q, ef, top, visited) && |g| <= ef
    ensures forall v: nat :: v in Ids(top) <==> v < |g| && Reachable(g, maxM, v)
  {
    IdsCount(top);
    forall v <- visited
      ensures v in Ids(top)
    {
      if v !in Ids(top) {
        assert InOrFarther(g, d, q, ef, top, v);
        InRangeCount(Ids(top) + {v}, |g|);
      }
    }
    forall v: nat | v < |g| && Reachable(g, maxM, v)
      ensures v in Ids(top)
    {
      ClosedContainsReachable(g, maxM, Ids(top), v);
    }
  }

  lemma {:induction false} InRangeCount(s: set<nat>, n: nat)
    requires forall x <- s :: x < n
    ensures |s| <= n
  {
    if n > 0 {
      InRangeCount(s - {n - 1}, n - 1);
    } else {
      assert s == {};
    }
  }

  // A new element without links

  function Blank(maxM: nat, point: Point, externalLabel: nat): Record {
    Record(seq(maxM + 1, _ => 0), point, externalLabel)
  }

  /** Appending a blank element keeps the graph well formed, and the element is not reachable yet. */
  lemma BlankOk(g: seq<Record>, maxM: nat, point: Point, externalLabel: nat)
    requires GraphOk(g, maxM)
    ensures GraphOk(g + [Blank(maxM, point, externalLabel)], maxM)
    ensures |g| > 0 ==> !Reachable(g + [Blank(maxM, point, externalLabel)], maxM, |g|)
  {
    var g' := g + [Blank(maxM, point, externalLabel)];
    forall i | 0 <= i < |g'|
      ensures RecordOk(g'[i], |g'|, maxM, i)
    {
      if i < |g| {
        assert RecordOk(g[i], |g|, maxM, i);
      }
    }
    if |g| > 0 && Reachable(g', maxM, |g|) {
      var old_ := Indices(|g|);
      forall a, b | a in old_ && Edge(g', maxM, a, b)
        ensures b in old_
      {
        assert RecordOk(g[a], |g|, maxM, a);
      }
      ClosedContainsReachable(g', maxM, old_, |g|);
    }
  }

  // Ranked results

  ghost predicate Describes(g: seq<Record>, d: Metric, q: Point, node: nat, found: (real, nat)) {
    node < |g| && found == (DistTo(g, d, q, node), g[node].externalLabel)
  }

  ghost predicate InRankOrder(found: seq<(real, nat)>) {
    forall i, j | 0 <= i < j < |found| :: NotAfter(found[i], found[j])
  }

  /** `found` lists distinct elements with their distance and label, by distance and then by label. */
  ghost predicate Ranked(g: seq<Record>, d: Metric, q: Point, nodes: seq<nat>, found: seq<(real, nat)>) {
    && |nodes| == |found|
    && Distinct(nodes)
    && (forall i | 0 <= i < |nodes| :: Describes(g, d, q, nodes[i], found[i]))
    && InRankOrder(found)
  }

  predicate NotAfter(a: (real, nat), b: (real, nat)) { a.0 < b.0 || (a.0 == b.0 && a.1 <= b.1) }

  lemma RankOrderInsert(found: seq<(real, nat)>, x: (real, nat), p: nat)
    requires InRankOrder(found) && p <= |found|
    requires (forall i | p <= i < |found| :: NotAfter(x, found[i])) && (p > 0 ==> NotAfter(found[p - 1], x))
    ensures InRankOrder(found[..p] + [x] + found[p..])
  {
    forall i | 0 <= i < p
      ensures NotAfter(found[i], x)
    {
      if i + 1 < p {
        assert NotAfter(found[i], found[p - 1]);
      }
    }
  }

  lemma DistinctInsert(nodes: seq<nat>, v: nat, p: nat)
    requires Distinct(nodes) && v !in nodes && p <= |nodes|
    ensures Distinct(nodes[..p] + [v] + nodes[p..])
  {
    assert forall i | 0 <= i < |nodes| :: nodes[i] in nodes;
  }

  /** Insertion into a ranked list, at its place. */
  lemma RankInsert(g: seq<Record>, d: Metric, q: Point, nodes: seq<nat>, found: seq<(real, nat)>, v: nat, p: nat)
    requires Ranked(g, d, q, nodes, found) && v < |g| && v !in nodes && p <= |found|
    requires var x := (DistTo(g, d, q, v), g[v].externalLabel);
             (forall i | p <= i < |found| :: NotAfter(x, found[i])) && (p > 0 ==> NotAfter(found[p - 1], x))
    ensures var x := (DistTo(g, d, q, v), g[v].externalLabel);
            Ranked(g, d, q, nodes[..p] + [v] + nodes[p..], found[..p] + [x] + found[p..])
  {
    var x := (DistTo(g, d, q, v), g[v].externalLabel);
    RankOrderInsert(found, x, p);
    DistinctInsert(nodes, v, p);
  }
}
