/** The neighbour-diversity heuristic: which of the elements found near a query become its links. */
module HnswNeighbors {
  import opened Basics
  import opened HnswQueue
  import opened HnswSearch

  function PointsOf(g: seq<Record>): seq<Point> { seq(|g|, i requires 0 <= i < |g| => g[i].point) }

  function Neg(e: Entry): Entry { Entry(-e.dist, e.id) }

  /** The order in which elements are considered: nearest first, and the larger id first among equals. */
  predicate Before(a: Entry, b: Entry) { a.dist < b.dist || (a.dist == b.dist && a.id > b.id) }

  ghost predicate InGraph(pts: seq<Point>, q: seq<Entry>) { forall e <- q :: e.id < |pts| }

  function Between(pts: seq<Point>, d: Metric, a: Entry, b: Entry): real
    requires a.id < |pts| && b.id < |pts|
  {
    d(pts[a.id], pts[b.id])
  }

  /** `a` rules out `x`: it comes before `x` and is strictly closer to it than the query is. */
  ghost predicate RulesOut(pts: seq<Point>, d: Metric, a: Entry, x: Entry)
    requires a.id < |pts| && x.id < |pts|
  {
    Before(a, x) && Between(pts, d, a, x) < x.dist
  }

  /** What the heuristic keeps of `input` when that has at least `limit` entries. */
  ghost predicate Selected(pts: seq<Point>, d: Metric, input: seq<Entry>, limit: nat, kept: seq<Entry>)
    requires InGraph(pts, input)
  {
    && IsQueue(kept) && |kept| <= limit
    && (forall e <- kept :: e in input)
    && (forall a <- kept, b <- kept :: !RulesOut(pts, d, a, b))
    && (limit > 0 && input != [] ==> exists e <- kept :: Nearest(e, input))
    && (|kept| < limit ==> forall x <- input | x !in kept :: exists a <- kept :: RulesOut(pts, d, a, x))
  }

  ghost predicate Nearest(e: Entry, input: seq<Entry>) { forall x <- input :: e.dist <= x.dist }

  /** The whole contract: fewer than `limit` entries are kept as they are. */
  ghost predicate Chosen(pts: seq<Point>, d: Metric, input: seq<Entry>, limit: nat, kept: seq<Entry>)
    requires InGraph(pts, input)
  {
    if |input| < limit then kept == input else Selected(pts, d, input, limit, kept)
  }

  // The selection loop: `rest` are the entries not yet considered, negated so that the nearest is on top

  ghost predicate Splits(input: seq<Entry>, rest: seq<Entry>, seen: set<Entry>) {
    && IsQueue(rest)
    && (forall e :: e in input <==> e in seen || Neg(e) in rest)
    && (forall e <- seen :: Neg(e) !in rest)
    && (forall e <- seen, x <- rest :: Before(e, Neg(x)))
  }

  ghost predicate Keeping(pts: seq<Point>, d: Metric, input: seq<Entry>, limit: nat, seen: set<Entry>, kept: seq<Entry>)
    requires InGraph(pts, input)
  {
    && |kept| <= limit
    && (forall e <- kept :: e in seen && e in input)
    && (forall i, j | 0 <= i < j < |kept| :: kept[i] != kept[j])
    && (forall a <- kept, b <- kept :: !RulesOut(pts, d, a, b))
    && (forall x <- seen | x !in kept :: x in input && exists a <- kept :: RulesOut(pts, d, a, x))
    && (seen != {} ==> exists e <- kept :: Nearest(e, input))
  }

  lemma NextOk(input: seq<Entry>, rest: seq<Entry>, seen: set<Entry>)
    requires Splits(input, rest, seen) && rest != []
    ensures var c := Neg(Top(rest));
            && Splits(input, Pop(rest), seen + {c})
            && c in input && c !in seen && (forall e <- seen :: Before(e, c))
            && (seen == {} ==> Nearest(c, input))
  {
    var c := Neg(Top(rest));
    PopIsQueue(rest);
    assert Neg(c) == Top(rest) && Top(rest) in rest;
    forall e
      ensures Neg(e) == Top(rest) <==> e == c
    {
    }
    forall x | x in input
      ensures x == c || x in seen || Before(c, x)
    {
      if x != c && x !in seen {
        assert Less(Neg(x), Top(rest));
      }
    }
  }

  lemma KeepOk(pts: seq<Point>, d: Metric, input: seq<Entry>, limit: nat, seen: set<Entry>, kept: seq<Entry>, c: Entry)
    requires InGraph(pts, input) && Keeping(pts, d, input, limit, seen, kept) && |kept| < limit
    requires c in input && c !in seen && (forall e <- seen :: Before(e, c)) && (seen == {} ==> Nearest(c, input))
    requires forall a <- kept :: Between(pts, d, a, c) >= c.dist
    ensures Keeping(pts, d, input, limit, seen + {c}, kept + [c])
  {
    var more := kept + [c];
    forall x <- seen + {c} | x !in more
      ensures x in input && exists a <- more :: RulesOut(pts, d, a, x)
    {
      var a :| a in kept && RulesOut(pts, d, a, x);
      assert a in more;
    }
    assert exists e <- more :: Nearest(e, input) by {
      if seen == {} {
        assert c in more;
      } else {
        var e :| e in kept && Nearest(e, input);
        assert e in more;
      }
    }
  }

  lemma DropOk(pts: seq<Point>, d: Metric, input: seq<Entry>, limit: nat, seen: set<Entry>, kept: seq<Entry>, c: Entry,
               a: Entry)
    requires InGraph(pts, input) && Keeping(pts, d, input, limit, seen, kept)
    requires c in input && c !in seen && (forall e <- seen :: Before(e, c))
    requires a in kept && Between(pts, d, a, c) < c.dist
    ensures Keeping(pts, d, input, limit, seen + {c}, kept)
  {
    assert RulesOut(pts, d, a, c);
  }

  /** The kept entries, once back in a queue, are a selection. */
  lemma SelectedOk(pts: seq<Point>, d: Metric, input: seq<Entry>, limit: nat, rest: seq<Entry>, seen: set<Entry>,
                   kept: seq<Entry>, top: seq<Entry>)
    requires InGraph(pts, input) && Keeping(pts, d, input, limit, seen, kept) && Splits(input, rest, seen)
    requires rest == [] || |kept| == limit
    requires IsQueue(top) && |top| == |kept| && forall e :: e in top <==> e in kept
    ensures Selected(pts, d, input, limit, top)
  {
    if limit > 0 && input != [] {
      assert input[0] in input;
      assert kept != [] ==> kept[0] in kept;
      assert seen != {};
      var e :| e in kept && Nearest(e, input);
      assert e in top;
    }
    if |top| < limit {
      forall x <- input | x !in top
        ensures exists a <- top :: RulesOut(pts, d, a, x)
      {
        var a :| a in kept && RulesOut(pts, d, a, x);
        assert a in top;
      }
    }
  }

  // Link lists in record memory

  /** The ids of a queue in the order in which they are popped. */
  function DescIds(q: seq<Entry>): seq<nat> { seq(|q|, i requires 0 <= i < |q| => q[|q| - 1 - i].id) }

  lemma DescIdsOk(q: seq<Entry>)
    requires IsQueue(q)
    ensures Distinct(DescIds(q)) && forall id :: id in DescIds(q) <==> id in Ids(q)
  {
    forall id | id in Ids(q)
      ensures id in DescIds(q)
    {
      var i :| 0 <= i < |q| && q[i].id == id;
      assert DescIds(q)[|q| - 1 - i] == id;
    }
    forall id | id in DescIds(q)
      ensures id in Ids(q)
    {
      var i :| 0 <= i < |q| && DescIds(q)[i] == id;
      assert q[|q| - 1 - i] in q;
    }
  }

  /** Link memory after storing the list `ids`; words behind the list keep what they held. */
  function StoreLinks(words: seq<nat>, ids: seq<nat>): seq<nat>
    requires |ids| < |words|
  {
    [|ids|] + ids + words[|ids| + 1..]
  }

  lemma StoreLinksOk(r: Record, ids: seq<nat>, n: nat, maxM: nat, self: nat)
    requires |r.words| == maxM + 1 && |ids| <= maxM && Distinct(ids) && forall id <- ids :: id < n && id != self
    ensures var r' := r.(words := StoreLinks(r.words, ids)); RecordOk(r', n, maxM, self) && Links(r') == ids
  {
    assert StoreLinks(r.words, ids)[1..1 + |ids|] == ids;
  }

  /** How the element `other` records the new element `cur` as a neighbour. */
  ghost predicate LinkedBack(pts: seq<Point>, d: Metric, maxM: nat, old_: Record, new_: Record, other: nat, cur: nat)
    requires Shaped(old_, maxM) && Shaped(new_, maxM) && other < |pts|
  {
    && new_.point == old_.point && new_.externalLabel == old_.externalLabel
    && if |Links(old_)| < maxM then Links(new_) == Links(old_) + [cur]
       else exists input, kept :: Reselected(pts, d, maxM, Links(old_) + [cur], other, input, kept)
                                  && Links(new_) == DescIds(kept)
  }

  /** `kept` is what the heuristic keeps of the candidate links `ids`, with their distances to `other`. */
  ghost predicate Reselected(pts: seq<Point>, d: Metric, maxM: nat, ids: seq<nat>, other: nat,
                             input: seq<Entry>, kept: seq<Entry>)
    requires other < |pts|
  {
    && IsQueue(input) && InGraph(pts, input)
    && (forall id :: id in Ids(input) <==> id in ids)
    && (forall e <- input :: e.dist == d(pts[e.id], pts[other]))
    && Selected(pts, d, input, maxM, kept)
  }

  lemma AppendDistinct(links: seq<nat>, cur: nat)
    requires Distinct(links) && cur !in links
    ensures Distinct(links + [cur])
  {
    forall i, j | 0 <= i < j < |links| + 1
      ensures (links + [cur])[i] != (links + [cur])[j]
    {
      assert links[i] in links;
    }
  }

  /** Reselected links come from the candidate links. */
  lemma ReselectedIds(pts: seq<Point>, d: Metric, maxM: nat, ids: seq<nat>, other: nat, input: seq<Entry>,
                      kept: seq<Entry>)
    requires other < |pts| && Reselected(pts, d, maxM, ids, other, input, kept)
    ensures |DescIds(kept)| <= maxM && Distinct(DescIds(kept)) && forall id <- DescIds(kept) :: id in ids
  {
    DescIdsOk(kept);
    forall id <- DescIds(kept)
      ensures id in ids
    {
      var e :| e in kept && e.id == id;
      assert e in input && e.id in Ids(input);
    }
  }

  /** Links chosen for a new element are distinct elements of the search result, at most `limit` of them. */
  lemma ChosenIds(pts: seq<Point>, d: Metric, input: seq<Entry>, limit: nat, kept: seq<Entry>, n: nat)
    requires IsQueue(input) && InGraph(pts, input) && Chosen(pts, d, input, limit, kept)
    requires forall e <- input :: e.id < n
    ensures IsQueue(kept)
    ensures |DescIds(kept)| <= limit && Distinct(DescIds(kept)) && forall id <- DescIds(kept) :: id < n
  {
    DescIdsOk(kept);
    forall id <- DescIds(kept)
      ensures id < n
    {
      var e :| e in kept && e.id == id;
      assert e in input;
    }
  }
}
