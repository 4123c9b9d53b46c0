/** `std::priority_queue<std::pair<dist_t, idx_t>>`, kept as the ascending sequence of its entries. */
module HnswQueue {

  datatype Entry = Entry(dist: real, id: nat)

  /** The order of `std::pair`: by distance, then by id. */
  predicate Less(a: Entry, b: Entry) { a.dist < b.dist || (a.dist == b.dist && a.id < b.id) }

  /** Ascending, with every id at most once; `top()` is the last entry. */
  ghost predicate IsQueue(q: seq<Entry>) {
    && (forall i, j | 0 <= i < j < |q| :: Less(q[i], q[j]))
    && (forall i, j | 0 <= i < j < |q| :: q[i].id != q[j].id)
  }

  function Top(q: seq<Entry>): Entry
    requires q != []
  {
    q[|q| - 1]
  }

  function Pop(q: seq<Entry>): seq<Entry>
    requires q != []
  {
    q[..|q| - 1]
  }

  ghost function Ids(q: seq<Entry>): set<nat> { set e <- q :: e.id }

  /** `r` is `q` with `e` added; being sorted, there is only one such queue. */
  ghost predicate Pushed(q: seq<Entry>, e: Entry, r: seq<Entry>) {
    && IsQueue(r)
    && |r| == |q| + 1
    && (forall x :: x in r <==> x == e || x in q)
    && Ids(r) == Ids(q) + {e.id}
  }

  method Push(q: seq<Entry>, e: Entry) returns (r: seq<Entry>)
    requires IsQueue(q) && e.id !in Ids(q)
    ensures Pushed(q, e, r)
  {
    var p := |q|;
    while p > 0 && Less(e, q[p - 1])
      invariant 0 <= p <= |q|
      invariant forall i | p <= i < |q| :: Less(e, q[i])
    {
      p := p - 1;
    }
    r := q[..p] + [e] + q[p..];
    PlacedMembers(q, e, p);
    PlacedIsQueue(q, e, p);
  }

  lemma PlacedMembers(q: seq<Entry>, e: Entry, p: nat)
    requires p <= |q|
    ensures var r := q[..p] + [e] + q[p..];
            (forall x :: x in r <==> x == e || x in q) && Ids(r) == Ids(q) + {e.id}
  {
    var r := q[..p] + [e] + q[p..];
    assert r[p] == e;
    forall x | x in q
      ensures x in r
    {
      var i :| 0 <= i < |q| && q[i] == x;
      assert r[if i < p then i else i + 1] == x;
    }
  }

  lemma PlacedIsQueue(q: seq<Entry>, e: Entry, p: nat)
    requires IsQueue(q) && e.id !in Ids(q) && p <= |q|
    requires p > 0 ==> !Less(e, q[p - 1])
    requires forall i | p <= i < |q| :: Less(e, q[i])
    ensures IsQueue(q[..p] + [e] + q[p..])
  {
    var r := q[..p] + [e] + q[p..];
    forall i | 0 <= i < |q|
      ensures q[i].id != e.id
      ensures i < p ==> Less(q[i], e)
    {
      assert q[i] in q && q[i].id in Ids(q);
      if i + 1 < p {
        assert q[p - 1] in q && q[p - 1].id in Ids(q);
        assert Less(q[i], q[p - 1]);
      }
    }
    forall i, j | 0 <= i < j < |r|
      ensures Less(r[i], r[j]) && r[i].id != r[j].id
    {
      assert i < p ==> r[i] == q[i];
      assert i > p ==> r[i] == q[i - 1];
      assert j < p ==> r[j] == q[j];
      assert j > p ==> r[j] == q[j - 1];
    }
  }

  lemma UniqueId(q: seq<Entry>, a: Entry, b: Entry)
    requires IsQueue(q) && a in q && b in q && a.id == b.id
    ensures a == b
  {
  }

  lemma PopIsQueue(q: seq<Entry>)
    requires IsQueue(q) && q != []
    ensures IsQueue(Pop(q)) && Ids(Pop(q)) == Ids(q) - {Top(q).id}
    ensures forall x :: x in Pop(q) <==> x in q && x != Top(q)
    ensures forall x <- q :: x == Top(q) || Less(x, Top(q))
  {
    forall x | x in q && x != Top(q)
      ensures x in Pop(q)
    {
      var i :| 0 <= i < |q| && q[i] == x;
      assert Pop(q)[i] == x;
    }
  }

  lemma {:induction false} IdsCount(q: seq<Entry>)
    requires IsQueue(q)
    ensures |Ids(q)| == |q|
    decreases |q|
  {
    if q != [] {
      PopIsQueue(q);
      IdsCount(Pop(q));
      assert Top(q) in q;
    }
  }
}
