/**
 * Arithmetic of the clock hand.
 *
 * `next_evict_slot` is a 64-bit counter that is incremented forever and taken modulo the number of
 * slots, so when it wraps around the hand jumps, unless the number of slots divides 2^64.
 */
module PageCacheClock {
  const TWO64: nat := 0x1_0000_0000_0000_0000

  function Advance(hand: nat): nat { if hand + 1 == TWO64 then 0 else hand + 1 }

  /** The counter after `ticks` increments, for fewer than 2^64 of them. */
  function HandAfter(hand: nat, ticks: nat): nat
    requires hand < TWO64 && ticks < TWO64
  {
    if hand + ticks < TWO64 then hand + ticks else hand + ticks - TWO64
  }

  /** How often the slot `u` of `n` is visited in the first `ticks` ticks of a hand that starts at `hand`. */
  function Visits(hand: nat, n: nat, u: nat, ticks: nat): nat
    requires n > 0
    decreases ticks
  {
    if ticks == 0 then 0
    else (if hand % n == u then 1 else 0) + Visits(Advance(hand), n, u, ticks - 1)
  }

  lemma {:induction false} VisitsSplit(hand: nat, n: nat, u: nat, a: nat, b: nat)
    requires n > 0 && hand < TWO64 && a < TWO64
    ensures Visits(hand, n, u, a + b) == Visits(hand, n, u, a) + Visits(HandAfter(hand, a), n, u, b)
    decreases a
  {
    if a > 0 {
      VisitsSplit(Advance(hand), n, u, a - 1, b);
      assert HandAfter(Advance(hand), a - 1) == HandAfter(hand, a);
    }
  }

  // Division by repeated subtraction

  function Turns(ticks: nat, n: nat): nat
    requires n > 0
    decreases ticks
  {
    if ticks < n then 0 else 1 + Turns(ticks - n, n)
  }

  function Rest(ticks: nat, n: nat): (r: nat)
    requires n > 0
    ensures r < n
    decreases ticks
  {
    if ticks < n then ticks else Rest(ticks - n, n)
  }

  lemma {:induction false} RestIsMod(x: nat, n: nat)
    requires n > 0
    ensures Rest(x, n) == x % n
    decreases x
  {
    if x >= n {
      RestIsMod(x - n, n);
      ModShift(x - n, n);
    }
  }

  lemma ModShift(x: nat, n: nat)
    requires n > 0
    ensures (x + n) % n == x % n
  {
    var q, r := x / n, x % n;
    ModUnique(x + n, n, q + 1, r);
  }

  lemma ModUnique(x: nat, n: nat, q: nat, r: nat)
    requires n > 0 && r < n && x == q * n + r
    ensures x % n == r
  {
    var d := x / n - q;
    assert d * n == r - x % n;
    assert d >= 1 ==> d * n >= n;
    assert d <= -1 ==> d * n + n <= 0;
  }

  lemma ModStep(x: nat, n: nat)
    requires n > 0
    ensures (x + 1) % n == if x % n == n - 1 then 0 else x % n + 1
  {
    var q, r := x / n, x % n;
    if r == n - 1 {
      assert x + 1 == (q + 1) * n;
      ModUnique(x + 1, n, q + 1, 0);
    } else {
      ModUnique(x + 1, n, q, r + 1);
    }
  }

  // Visits without a wrap-around

  /** How many ticks until the hand points at `u`. */
  function Distance(hand: nat, n: nat, u: nat): nat
    requires u < n
  {
    if hand % n <= u then u - hand % n else u - hand % n + n
  }

  /** Within one turn, `u` is visited exactly once, after its distance. */
  lemma {:induction false} OneTurn(hand: nat, n: nat, u: nat, ticks: nat)
    requires u < n && ticks <= n && hand + ticks <= TWO64
    ensures Visits(hand, n, u, ticks) == if Distance(hand, n, u) < ticks then 1 else 0
    decreases ticks
  {
    if ticks > 1 {
      OneTurn(hand + 1, n, u, ticks - 1);
      ModStep(hand, n);
    }
  }

  lemma {:induction false} VisitsUnwrapped(hand: nat, n: nat, u: nat, ticks: nat)
    requires u < n && hand + ticks <= TWO64
    ensures Visits(hand, n, u, ticks) == Turns(ticks, n) + if Distance(hand, n, u) < Rest(ticks, n) then 1 else 0
    decreases ticks
  {
    if ticks <= n {
      OneTurn(hand, n, u, ticks);
    } else {
      VisitsSplit(hand, n, u, n, ticks - n);
      OneTurn(hand, n, u, n);
      VisitsUnwrapped(hand + n, n, u, ticks - n);
      ModShift(hand, n);
    }
  }

  // Visits across the wrap-around

  lemma {:induction false} RestSum(x: nat, y: nat, n: nat)
    requires n > 0
    ensures Rest(x, n) + Rest(y, n) == Rest(x + y, n) || Rest(x, n) + Rest(y, n) == Rest(x + y, n) + n
    decreases x + y
  {
    if x >= n {
      RestSum(x - n, y, n);
    } else if y >= n {
      RestSum(x, y - n, n);
    }
  }

  lemma ModSum(x: nat, y: nat, n: nat)
    requires n > 0
    ensures x % n + y % n == (x + y) % n || x % n + y % n == (x + y) % n + n
  {
    RestSum(x, y, n);
    RestIsMod(x, n);
    RestIsMod(y, n);
    RestIsMod(x + y, n);
  }

  /** Splitting a whole number of turns loses at most one turn. */
  lemma {:induction false} TurnsSplit(total: nat, x: nat, n: nat)
    requires n > 0 && Rest(total, n) == 0 && x <= total
    ensures Turns(x, n) + Turns(total - x, n) == if Rest(x, n) == 0 then Turns(total, n) else Turns(total, n) - 1
    ensures Rest(total - x, n) == if Rest(x, n) == 0 then 0 else n - Rest(x, n)
    decreases total
  {
    if x >= n {
      TurnsSplit(total - n, x - n, n);
    } else if total - n >= x && total >= n {
      TurnsSplit(total - n, x, n);
    }
  }

  lemma WholeTurns(n: nat)
    requires n > 0
    ensures Turns(6 * n, n) == 6 && Rest(6 * n, n) == 0
    ensures Turns(7 * n, n) == 7 && Rest(7 * n, n) == 0
  {
    assert Turns(n, n) == 1 && Rest(n, n) == 0;
    assert Turns(2 * n, n) == 2 && Rest(2 * n, n) == 0;
    assert Turns(3 * n, n) == 3 && Rest(3 * n, n) == 0;
    assert Turns(4 * n, n) == 4 && Rest(4 * n, n) == 0;
    assert Turns(5 * n, n) == 5 && Rest(5 * n, n) == 0;
  }

  /** The visits of a hand that wraps within `total` ticks, where `total` is a whole number of turns. */
  lemma VisitsWrapped(hand: nat, n: nat, u: nat, total: nat)
    requires u < n && hand < TWO64 && total < TWO64 < hand + total && Rest(total, n) == 0
    ensures var a := (TWO64 - hand) % n;
            Visits(hand, n, u, total) ==
            if a == 0 then Turns(total, n)
            else Turns(total, n) - 1 + (if Distance(hand, n, u) < a then 1 else 0) + (if u < n - a then 1 else 0)
  {
    var before := TWO64 - hand;
    VisitsSplit(hand, n, u, before, total - before);
    VisitsUnwrapped(hand, n, u, before);
    VisitsUnwrapped(0, n, u, total - before);
    TurnsSplit(total, before, n);
    RestIsMod(before, n);
  }

  /** The hand completes six turns in `6 * n` ticks: it does not jump, or jumps only at the end of a turn. */
  predicate SixFullTurns(hand: nat, n: nat)
    requires n > 0 && hand < TWO64
  {
    hand + 6 * n <= TWO64 || TWO64 % n == 0 || (TWO64 - hand) % n == 0
  }

  lemma SixTurnsVisit(hand: nat, n: nat, u: nat)
    requires u < n && hand < TWO64 && 6 * n < TWO64 && SixFullTurns(hand, n)
    ensures Visits(hand, n, u, 6 * n) == 6
  {
    WholeTurns(n);
    if hand + 6 * n <= TWO64 {
      VisitsUnwrapped(hand, n, u, 6 * n);
    } else {
      VisitsWrapped(hand, n, u, 6 * n);
      ModSum(hand, TWO64 - hand, n);
    }
  }

  /** Otherwise some slot is visited only five times in `6 * n` ticks. */
  lemma SixTurnsMiss(hand: nat, n: nat) returns (u: nat)
    requires n > 0 && hand < TWO64 && 6 * n < TWO64 && !SixFullTurns(hand, n)
    ensures u < n && Visits(hand, n, u, 6 * n) == 5
  {
    var a, r := (TWO64 - hand) % n, TWO64 % n;
    u := if a <= r then n - 1 else n - a + r - 1;
    WholeTurns(n);
    VisitsWrapped(hand, n, u, 6 * n);
    ModSum(hand, TWO64 - hand, n);
  }

  /** Seven turns' worth of ticks always bring six visits. */
  lemma SevenTurnsVisit(hand: nat, n: nat, u: nat)
    requires u < n && hand < TWO64 && 7 * n < TWO64
    ensures Visits(hand, n, u, 7 * n) >= 6
  {
    WholeTurns(n);
    if hand + 7 * n <= TWO64 {
      VisitsUnwrapped(hand, n, u, 7 * n);
    } else {
      VisitsWrapped(hand, n, u, 7 * n);
    }
  }

  lemma VisitsGrow(hand: nat, n: nat, u: nat, a: nat, b: nat)
    requires n > 0 && hand < TWO64 && a <= b && a < TWO64
    ensures Visits(hand, n, u, a) <= Visits(hand, n, u, b)
  {
    VisitsSplit(hand, n, u, a, b - a);
  }
}
