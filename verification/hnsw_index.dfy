/** The HNSW index object: search, neighbour selection and insertion over its record memory. */
module HnswIndex {
  import opened Basics
  import opened HnswQueue
  import opened HnswSearch
  import opened HnswNeighbors

  class HierarchicalNSW {
    const maxelements: nat
    const M: nat
    const maxM: nat
    const efConstruction: nat
    const dist: Metric
    const records: array<Record>
    var count: nat

    ghost function Graph(): seq<Record>
      reads this, records
      requires count <= records.Length
    {
      records[..count]
    }

    ghost predicate Valid()
      reads this, records
    {
      && records.Length == maxelements && count <= maxelements && M <= maxM
      && GraphOk(records[..count], maxM)
    }

    /** An element seen for the first time enters both queues if it is close enough or there is room. */
    method Visit(point: Point, ef: nat, a: nat, v: nat, top0: seq<Entry>, candidates0: seq<Entry>,
                 ghost visited: set<nat>, ghost done: set<nat>)
      returns (top: seq<Entry>, candidates: seq<Entry>)
      requires Valid() && InProgress(Graph(), maxM, dist, point, ef, top0, candidates0, visited, done)
      requires a in visited && v !in visited && v < count && Edge(Graph(), maxM, a, v)
      ensures InProgress(Graph(), maxM, dist, point, ef, top, candidates, visited + {v}, done)
      ensures |candidates| <= |candidates0| + 1
    {
      ghost var g := Graph();
      var d := dist(point, records[v].point);
      if !(Top(top0).dist > d || |top0| < ef) {
        RejectOk(g, dist, point, ef, top0, visited, v);
        VisitOk(g, maxM, dist, point, ef, top0, candidates0, visited, done, a, v, top0, candidates0);
        return top0, candidates0;
      }
      candidates := Push(candidates0, Entry(-d, v));
      top := Push(top0, Entry(d, v));
      AdmitOk(g, dist, point, ef, top0, visited, v, top);
      if |top| > ef {
        top := Pop(top);
      }
      VisitOk(g, maxM, dist, point, ef, top0, candidates0, visited, done, a, v, top, candidates);
    }

    /** Follow the links of the element `c`. */
    method Expand(point: Point, ef: nat, c: nat, seen0: seq<bool>, top0: seq<Entry>, candidates0: seq<Entry>,
                  visited0: set<nat>, ghost done: set<nat>)
      returns (seen: seq<bool>, top: seq<Entry>, candidates: seq<Entry>, visited: set<nat>)
      requires Valid() && c in visited0 && c < count && Marks(seen0, count, visited0)
      requires InProgress(Graph(), maxM, dist, point, ef, top0, candidates0, visited0, done)
      ensures InProgress(Graph(), maxM, dist, point, ef, top, candidates, visited, done)
      ensures Marks(seen, count, visited)
      ensures visited0 <= visited && RecordOk(Graph()[c], count, maxM, c)
      ensures LinksVisited(Links(Graph()[c]), |Links(Graph()[c])|, visited)
      ensures |candidates| - |visited| <= |candidates0| - |visited0|
    {
      ghost var g := Graph();
      seen, top, candidates, visited := seen0, top0, candidates0, visited0;
      assert RecordOk(g[c], |g|, maxM, c);
      var links := Links(records[c]);
      for j := 0 to |links|
        invariant InProgress(g, maxM, dist, point, ef, top, candidates, visited, done)
        invariant Marks(seen, count, visited)
        invariant visited0 <= visited && LinksVisited(links, j, visited)
        invariant |candidates| - |visited| <= |candidates0| - |visited0|
      {
        var v := links[j];
        assert Edge(g, maxM, c, v);
        if !seen[v] {
          MarkMore(seen, count, visited, v);
          seen := seen[v := true];
          top, candidates := Visit(point, ef, c, v, top, candidates, visited, done);
          visited := visited + {v};
        }
      }
    }

    /** Best-first search from element 0 with two queues and a visited bitmap. */
    method SearchBaseLayer(point: Point, ef: nat) returns (top: seq<Entry>, visited: set<nat>)
      requires Valid() && count > 0
      ensures SearchResult(Graph(), maxM, dist, point, ef, top, visited)
    {
      ghost var g := Graph();
      var d := dist(point, records[0].point);
      top := [Entry(d, 0)];
      var candidates := [Entry(-d, 0)];
      var seen := seq(count, i => i == 0);
      visited := {0};
      ghost var done: set<nat> := {};
      StartOk(g, maxM, dist, point, ef);
      while candidates != [] && -Top(candidates).dist <= Top(top).dist
        invariant InProgress(g, maxM, dist, point, ef, top, candidates, visited, done)
        invariant Closed(g, maxM, done, visited) && Marks(seen, count, visited)
        decreases count - |visited| + |candidates|
      {
        InRangeCount(visited, count);
        TakeOk(g, maxM, dist, point, ef, top, candidates, visited, done);
        var c := Top(candidates).id;
        ghost var before := visited;
        seen, top, candidates, visited :=
          Expand(point, ef, c, seen, top, Pop(candidates), visited, done + {c});
        ClosedMore(g, maxM, done, before, c, visited);
        done := done + {c};
      }
      FinishOk(g, maxM, dist, point, ef, top, candidates, visited, done);
    }

    ghost function Points(): seq<Point>
      reads this, records
      requires count <= records.Length
    {
      PointsOf(records[..count])
    }

    /** Move all entries to a queue with the nearest on top. */
    static method NearestOnTop(top: seq<Entry>) returns (rest: seq<Entry>)
      requires IsQueue(top)
      ensures Splits(top, rest, {})
    {
      rest := [];
      var remaining := top;
      while remaining != []
        invariant IsQueue(remaining) && IsQueue(rest)
        invariant forall e :: e in top <==> e in remaining || Neg(e) in rest
        invariant Ids(remaining) !! Ids(rest)
        decreases |remaining|
      {
        PopIsQueue(remaining);
        var e := Top(remaining);
        assert e in remaining;
        remaining := Pop(remaining);
        rest := Push(rest, Neg(e));
      }
    }

    /** Is some already kept element closer to `c` than the query is? */
    method RuledOut(kept: seq<Entry>, c: Entry) returns (good: bool, ghost culprit: Entry)
      requires count <= records.Length && InGraph(Points(), kept + [c])
      ensures good ==> forall a <- kept :: Between(Points(), dist, a, c) >= c.dist
      ensures !good ==> culprit in kept && Between(Points(), dist, culprit, c) < c.dist
    {
      culprit := c;
      for i := 0 to |kept|
        invariant forall a <- kept[..i] :: Between(Points(), dist, a, c) >= c.dist
      {
        if dist(records[kept[i].id].point, records[c.id].point) < c.dist {
          return false, kept[i];
        }
      }
      return true, c;
    }

    /** `getNeighborsByHeuristic` */
    method GetNeighborsByHeuristic(top0: seq<Entry>, limit: nat) returns (top: seq<Entry>)
      requires count <= records.Length && IsQueue(top0) && InGraph(Points(), top0)
      ensures Chosen(Points(), dist, top0, limit, top)
    {
      if |top0| < limit {
        return top0;
      }
      var rest := NearestOnTop(top0);
      var kept: seq<Entry> := [];
      ghost var seen: set<Entry> := {};
      while rest != [] && |kept| < limit
        invariant Splits(top0, rest, seen) && Keeping(Points(), dist, top0, limit, seen, kept)
        decreases |rest|
      {
        NextOk(top0, rest, seen);
        var c := Neg(Top(rest));
        rest := Pop(rest);
        var good, culprit := RuledOut(kept, c);
        if good {
          KeepOk(Points(), dist, top0, limit, seen, kept, c);
          kept := kept + [c];
        } else {
          DropOk(Points(), dist, top0, limit, seen, kept, c, culprit);
        }
        seen := seen + {c};
      }
      top := ToQueue(top0, kept);
      SelectedOk(Points(), dist, top0, limit, rest, seen, kept, top);
    }

    static method ToQueue(input: seq<Entry>, kept: seq<Entry>) returns (top: seq<Entry>)
      requires IsQueue(input) && (forall e <- kept :: e in input)
      requires forall i, j | 0 <= i < j < |kept| :: kept[i] != kept[j]
      ensures IsQueue(top) && |top| == |kept| && forall e :: e in top <==> e in kept
    {
      top := [];
      for i := 0 to |kept|
        invariant IsQueue(top) && |top| == i && forall e :: e in top <==> e in kept[..i]
      {
        forall e <- top
          ensures e.id != kept[i].id
        {
          if e.id == kept[i].id {
            UniqueId(input, e, kept[i]);
          }
        }
        top := Push(top, kept[i]);
      }
      assert kept[..|kept|] == kept;
    }

    /** Pop everything off a queue, collecting the ids. */
    static method PopIds(top: seq<Entry>) returns (ids: seq<nat>)
      ensures ids == DescIds(top)
    {
      ids := [];
      var rest := top;
      while rest != []
        invariant |rest| + |ids| == |top| && rest == top[..|rest|]
        invariant ids == DescIds(top)[..|ids|]
      {
        ids := ids + [Top(rest).id];
        rest := Pop(rest);
      }
    }

    /** The candidates for the full link list `links` of `other`: its links and `cur`, by distance to `other`. */
    method Candidates(links: seq<nat>, other: nat, cur: nat) returns (candidates: seq<Entry>)
      requires count <= records.Length && other < count && cur < count
      requires Distinct(links + [cur]) && forall id <- links :: id < count
      ensures IsQueue(candidates) && |candidates| == |links| + 1 && InGraph(Points(), candidates)
      ensures forall id :: id in Ids(candidates) <==> id in links + [cur]
      ensures forall e <- candidates :: e.dist == dist(Points()[e.id], Points()[other])
    {
      candidates := [Entry(dist(records[cur].point, records[other].point), cur)];
      assert candidates[0] in candidates;
      assert Ids(candidates) == {cur};
      for j := 0 to |links|
        invariant IsQueue(candidates) && |candidates| == j + 1 && InGraph(Points(), candidates)
        invariant forall id :: id in Ids(candidates) <==> id == cur || id in links[..j]
        invariant forall e <- candidates :: e.dist == dist(Points()[e.id], Points()[other])
      {
        assert links[j] in links;
        assert links[j] !in links[..j] && links[j] != cur by {
          assert forall i | 0 <= i < |links| :: (links + [cur])[i] == links[i];
          assert (links + [cur])[|links|] == cur;
        }
        candidates := Push(candidates, Entry(dist(records[links[j]].point, records[other].point), links[j]));
      }
      assert links[..|links|] == links;
    }

    /** The new link list of an element whose list is full: its links and `cur`, thinned out by the heuristic. */
    method Reselect(links: seq<nat>, other: nat, cur: nat) returns (ids: seq<nat>, input: seq<Entry>, kept: seq<Entry>)
      requires count <= records.Length && other < count && cur < count
      requires Distinct(links + [cur]) && |links| == maxM && forall id <- links :: id < count
      ensures Reselected(Points(), dist, maxM, links + [cur], other, input, kept) && ids == DescIds(kept)
    {
      var candidates := Candidates(links, other, cur);
      var top := GetNeighborsByHeuristic(candidates, maxM);
      input, kept := candidates, top;
      ids := PopIds(top);
    }

    /**
     * The loop body of `mutuallyConnectNewElement`: add `cur` to the links of `other`.  `ok` is false where it throws.
     */
    method ConnectBack(other: nat, cur: nat) returns (ok: bool)
      requires count <= records.Length && other < cur < count
      requires RecordOk(records[other], cur, maxM, other)
      modifies records
      ensures ok
      ensures RecordOk(records[other], count, maxM, other)
      ensures LinkedBack(old(Points()), dist, maxM, old(records[other]), records[other], other, cur)
      ensures forall i | 0 <= i < records.Length && i != other :: records[i] == old(records[i])
    {
      if other == cur {
        return false;
      }
      var r := records[other];
      var size := r.words[0];
      if size > maxM {
        return false;
      }
      var links := Links(r);
      AppendDistinct(links, cur);
      if size < maxM {
        StoreLinksOk(r, links + [cur], count, maxM, other);
        assert r.words[size + 1 := cur][0 := size + 1] == StoreLinks(r.words, links + [cur]);
        records[other] := r.(words := r.words[size + 1 := cur][0 := size + 1]);
      } else {
        var ids, input, kept := Reselect(links, other, cur);
        ReselectedIds(Points(), dist, maxM, links + [cur], other, input, kept);
        StoreLinksOk(r, ids, count, maxM, other);
        records[other] := r.(words := StoreLinks(r.words, ids));
      }
      ok := true;
    }

    /** Store the links of a new element.  `ok` is false where the source finds the memory not blank and throws. */
    static method StoreBlank(words0: seq<nat>, ids: seq<nat>) returns (ok: bool, words: seq<nat>)
      requires |ids| < |words0|
      ensures (forall w <- words0 :: w == 0) ==> ok
      ensures ok ==> words == StoreLinks(words0, ids)
    {
      words := words0;
      assert words0[0] in words0;
      if words[0] != 0 {
        return false, words;
      }
      words := words[0 := |ids|];
      for i := 0 to |ids|
        invariant words == [|ids|] + ids[..i] + words0[i + 1..]
      {
        assert words0[i + 1] in words0;
        if words[i + 1] != 0 {
          return false, words;
        }
        words := words[i + 1 := ids[i]];
      }
      ok := true;
    }

    /** Elements linked to in `done` have been connected back to `cur`, the others are as before. */
    ghost predicate Connecting(pts: seq<Point>, before: seq<Record>, now: seq<Record>, cur: nat, done: seq<nat>) {
      && cur < |before| == |now| == |pts|
      && forall i | 0 <= i < cur ::
           RecordOk(before[i], cur, maxM, i) &&
           if i in done then
             RecordOk(now[i], cur + 1, maxM, i) && LinkedBack(pts, dist, maxM, before[i], now[i], i, cur)
           else now[i] == before[i]
    }

    lemma ConnectingNext(pts: seq<Point>, before: seq<Record>, now: seq<Record>, cur: nat, done: seq<nat>, x: nat,
                         r: Record)
      requires Connecting(pts, before, now, cur, done) && x < cur && x !in done
      requires RecordOk(r, cur + 1, maxM, x) && LinkedBack(pts, dist, maxM, now[x], r, x, cur)
      ensures Connecting(pts, before, now[x := r], cur, done + [x])
    {
    }

    /** The second half of `mutuallyConnectNewElement`: every chosen element links back. */
    method ConnectAll(cur: nat, res: seq<nat>) returns (ok: bool)
      requires cur + 1 == count <= records.Length
      requires GraphOk(records[..cur], maxM) && Distinct(res) && forall id <- res :: id < cur
      modifies records
      ensures ok && records[cur] == old(records[cur])
      ensures Connecting(old(Points()), old(records[..count]), records[..count], cur, res)
    {
      ghost var before, pts := records[..count], Points();
      forall i | 0 <= i < cur
        ensures RecordOk(before[i], cur, maxM, i)
      {
        assert before[i] == records[..cur][i];
      }
      ok := true;
      for j := 0 to |res|
        invariant ok && records[cur] == before[cur] && Points() == pts
        invariant Connecting(pts, before, records[..count], cur, res[..j])
      {
        var x := res[j];
        assert x in res && x !in res[..j];
        ghost var now := records[..count];
        assert now[x] == before[x];
        ok := ConnectBack(x, cur);
        ConnectingNext(pts, before, now, cur, res[..j], x, records[x]);
        assert records[..count] == now[x := records[x]];
        assert res[..j + 1] == res[..j] + [x];
        if !ok {
          return;
        }
      }
      assert res[..|res|] == res;
    }

    /** `mutuallyConnectNewElement`: link the last element to a selection of `top0`, and these back to it. */
    method MutuallyConnectNewElement(cur: nat, top0: seq<Entry>) returns (ok: bool, ghost kept: seq<Entry>)
      requires cur + 1 == count <= records.Length && M <= maxM
      requires GraphOk(records[..cur], maxM)
      requires |records[cur].words| == maxM + 1 && forall w <- records[cur].words :: w == 0
      requires IsQueue(top0) && forall e <- top0 :: e.id < cur
      modifies records
      ensures ok
      ensures Chosen(old(Points()), dist, top0, M, kept)
      ensures Connected(old(Points()), old(records[..count]), records[..count], cur, kept)
    {
      ghost var before, pts := records[..count], Points();
      var top := GetNeighborsByHeuristic(top0, M);
      kept := top;
      ChosenIds(pts, dist, top0, M, top, cur);
      var res := PopIds(top);
      var words;
      ok, words := StoreBlank(records[cur].words, res);
      if !ok {
        return;
      }
      StoreLinksOk(records[cur], res, count, maxM, cur);
      records[cur] := records[cur].(words := words);
      assert records[..cur] == before[..cur];
      assert Points() == pts;
      ghost var linked := records[..count];
      ok := ConnectAll(cur, res);
      assert forall i | 0 <= i < cur :: linked[i] == before[i];
    }

    /** The new element links to the ids in `kept`, these link back, and nothing else has changed. */
    ghost predicate Connected(pts: seq<Point>, before: seq<Record>, now: seq<Record>, cur: nat, kept: seq<Entry>) {
      && Connecting(pts, before, now, cur, DescIds(kept))
      && RecordOk(now[cur], cur + 1, maxM, cur) && Links(now[cur]) == DescIds(kept)
      && now[cur].point == before[cur].point && now[cur].externalLabel == before[cur].externalLabel
    }

    lemma ConnectedGraphOk(pts: seq<Point>, before: seq<Record>, now: seq<Record>, cur: nat, kept: seq<Entry>)
      requires cur + 1 == |before| && Connected(pts, before, now, cur, kept)
      ensures GraphOk(now, maxM)
    {
      forall i | 0 <= i < |now|
        ensures RecordOk(now[i], |now|, maxM, i)
      {
        assert i < cur ==> RecordOk(before[i], cur, maxM, i);
      }
    }

    /**
     * `addPoint`: append an element and, unless it is the first, link it to a selection of what a search for it finds.
     * `ok` is false where the source throws.
     */
    method AddPoint(point: Point, externalLabel: nat)
      returns (ok: bool, ghost top: seq<Entry>, ghost visited: set<nat>, ghost kept: seq<Entry>)
      requires Valid()
      modifies this, records
      ensures Valid()
      ensures ok <==> old(count) < maxelements
      ensures !ok ==> count == old(count) && records[..] == old(records[..])
      ensures ok ==> count == old(count) + 1
      ensures ok && old(count) == 0 ==> Graph() == [Blank(maxM, point, externalLabel)]
      ensures ok && old(count) > 0 ==>
                var g := old(Graph()) + [Blank(maxM, point, externalLabel)];
                && GraphOk(g, maxM)
                && SearchResult(g, maxM, dist, point, efConstruction, top, visited)
                && (forall e <- top :: e.id < old(count))
                && Chosen(PointsOf(g), dist, top, M, kept)
                && Connected(PointsOf(g), g, Graph(), old(count), kept)
    {
      top, visited, kept := [], {}, [];
      if count >= maxelements {
        return false, [], {}, [];
      }
      BlankOk(Graph(), maxM, point, externalLabel);
      var cur := count;
      ghost var g := Graph() + [Blank(maxM, point, externalLabel)];
      count := count + 1;
      records[cur] := Blank(maxM, point, externalLabel);
      assert Graph() == g;
      ok := true;
      if cur != 0 {
        var found;
        found, visited := SearchBaseLayer(point, efConstruction);
        top := found;
        forall e <- found
          ensures e.id < cur
        {
          assert Reachable(g, maxM, e.id);
        }
        assert records[..cur] == g[..cur];
        ok, kept := MutuallyConnectNewElement(cur, found);
        ConnectedGraphOk(PointsOf(g), g, records[..count], cur, kept);
      }
    }

    /** `searchKnn`: the results of the search, each with its distance and label, nearest first. */
    method SearchKnn(query: Point, k: nat)
      returns (found: seq<(real, nat)>, nodes: seq<nat>, top: seq<Entry>, visited: set<nat>)
      requires Valid() && count > 0
      ensures SearchResult(Graph(), maxM, dist, query, k, top, visited)
      ensures Ranked(Graph(), dist, query, nodes, found)
      ensures forall v :: v in nodes <==> k > 0 && v in Ids(top)
    {
      ghost var g := Graph();
      var candidates;
      candidates, visited := SearchBaseLayer(query, k);
      top := candidates;
      while |candidates| > k
        invariant k > 0 ==> candidates == top
        invariant IsQueue(candidates) && forall e <- candidates :: e in top
      {
        PopIsQueue(candidates);
        candidates := Pop(candidates);
      }
      found, nodes := [], [];
      while candidates != []
        invariant IsQueue(candidates) && forall e <- candidates :: e in top && k > 0
        invariant Ranked(g, dist, query, nodes, found)
        invariant forall v :: k > 0 ==> (v in Ids(top) <==> v in nodes || v in Ids(candidates))
        invariant forall v :: v in nodes ==> k > 0 && v !in Ids(candidates)
        decreases |candidates|
      {
        PopIsQueue(candidates);
        var e := Top(candidates);
        assert e in candidates;
        candidates := Pop(candidates);
        found, nodes := RankOne(query, e, found, nodes);
      }
    }

    method RankOne(query: Point, e: Entry, found0: seq<(real, nat)>, nodes0: seq<nat>)
      returns (found: seq<(real, nat)>, nodes: seq<nat>)
      requires count <= records.Length && e.id < count && e.dist == DistTo(Graph(), dist, query, e.id)
      requires e.id !in nodes0 && Ranked(Graph(), dist, query, nodes0, found0)
      ensures Ranked(Graph(), dist, query, nodes, found)
      ensures forall v :: v in nodes <==> v == e.id || v in nodes0
    {
      var x := (e.dist, records[e.id].externalLabel);
      var p := |found0|;
      while p > 0 && !NotAfter(found0[p - 1], x)
        invariant 0 <= p <= |found0| && forall i | p <= i < |found0| :: NotAfter(x, found0[i])
      {
        p := p - 1;
      }
      found := found0[..p] + [x] + found0[p..];
      nodes := nodes0[..p] + [e.id] + nodes0[p..];
      RankInsert(Graph(), dist, query, nodes0, found0, e.id, p);
      assert nodes0 == nodes0[..p] + nodes0[p..];
    }

    /** `hnsw_search`: the labels, written from the farthest back to the nearest. */
    method Search(point: Point, efSearch: nat)
      returns (labels: seq<nat>, nodes: seq<nat>, found: seq<(real, nat)>, top: seq<Entry>, visited: set<nat>)
      requires Valid() && count > 0
      ensures SearchResult(Graph(), maxM, dist, point, efSearch, top, visited)
      ensures forall v :: v in nodes <==> efSearch > 0 && v in Ids(top)
      ensures Ranked(Graph(), dist, point, nodes, found)
      ensures |labels| == |nodes| && forall i | 0 <= i < |labels| :: labels[i] == Graph()[nodes[i]].externalLabel
      ensures count <= efSearch ==> forall v: nat :: v in nodes <==> v < count && Reachable(Graph(), maxM, v)
    {
      var result, ns, results, seen := SearchKnn(point, efSearch);
      nodes, found, top, visited := ns, result, results, seen;
      if count <= efSearch {
        WideSearchIsExhaustive(Graph(), maxM, dist, point, efSearch, top, visited);
      }
      labels := [];
      for i := |result| downto 0
        invariant |labels| == |result| - i
        invariant forall j | 0 <= j < |labels| :: labels[j] == result[i + j].1
      {
        labels := [result[i].1] + labels;
      }
    }

    constructor (maxelements: nat, M: nat, maxM: nat, efConstruction: nat, dist: Metric)
      requires M <= maxM
      ensures Valid() && count == 0 && fresh(records)
      ensures this.maxelements == maxelements && this.M == M && this.maxM == maxM
      ensures this.efConstruction == efConstruction && this.dist == dist
    {
      this.maxelements, this.M, this.maxM, this.efConstruction, this.dist := maxelements, M, maxM, efConstruction, dist;
      count := 0;
      records := new Record[maxelements](_ => Record([], [], 0));
    }
  }
}
