/** Options, sequences and finite sets. */
module Basics {

  datatype Option<+T> = None | Some(value: T)

  ghost predicate Distinct<T>(s: seq<T>) { forall i, j | 0 <= i < j < |s| :: s[i] != s[j] }

  /** `s` lists the first values of `f`. */
  ghost predicate FirstOf<T>(f: nat -> T, s: seq<T>) { forall i: nat | i < |s| :: s[i] == f(i) }

  lemma FirstOfNext<T>(f: nat -> T, s: seq<T>)
    requires FirstOf(f, s)
    ensures FirstOf(f, s + [f(|s|)])
  {
  }

  /** `f` applied to each element. */
  function Each<T, U>(f: T -> U, s: seq<T>): seq<U> { seq(|s|, i requires 0 <= i < |s| => f(s[i])) }

  lemma EachNext<T, U>(f: T -> U, s: seq<T>, i: nat)
    requires i < |s|
    ensures Each(f, s[..i + 1]) == Each(f, s[..i]) + [f(s[i])]
  {
  }

  /** The numbers below `n`. */
  function Indices(n: nat): (r: set<nat>)
    ensures forall i: nat :: i in r <==> i < n
    ensures |r| == n
  {
    if n == 0 then {} else Indices(n - 1) + {n - 1}
  }

  lemma SubsetSize<T>(a: set<T>, b: set<T>)
    requires a <= b
    ensures |a| <= |b|
  {
    assert b == a + (b - a);
  }

  /** The sum of the values of a map. */
  ghost function Sum<K(!new)>(m: map<K, nat>): nat
    decreases m.Keys
  {
    if m == map[] then 0
    else
      assert m.Keys != {};
      var k :| k in m;
      m[k] + Sum(m - {k})
  }

  /** Any key may be taken out first. */
  lemma {:induction false} SumPick<K(!new)>(m: map<K, nat>, k: K)
    requires k in m
    ensures Sum(m) == m[k] + Sum(m - {k})
    decreases m.Keys
  {
    var first :| first in m && Sum(m) == m[first] + Sum(m - {first});
    if first != k {
      SumPick(m - {first}, k);
      SumPick(m - {k}, first);
      assert m - {first} - {k} == m - {k} - {first};
    }
  }

  lemma SumUpdate<K(!new)>(m: map<K, nat>, k: K, v: nat)
    ensures Sum(m[k := v]) == v + Sum(m) - if k in m then m[k] else 0
  {
    SumPick(m[k := v], k);
    assert m[k := v] - {k} == m - {k};
    if k in m {
      SumPick(m, k);
    } else {
      assert m - {k} == m;
    }
  }
}
