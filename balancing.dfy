/** The balancing stage of distribute_quantity: the while loop that closes the
    gap between round(total_quantity) and the distributed sum one unit at a
    time, walking the balancing order round-robin.

    Quantities are indexed by roster position; the balancing order is a
    sequence of distinct roster positions. The loop is modelled twice: as the
    functions Step and Run, which say what one iteration and the first k
    iterations do, and as the method Balance, which runs the loop in place on
    an array and is proved to end in the state Run describes. */
module Balancing {

  /** The loop's variables that the next iteration depends on, besides
      dist_index: adjusted_quantities and remaining_integer_difference. */
  datatype Loop = Loop(quantities: seq<int>, remaining: int)

  /** Every entry of the order names a position of q, and none is repeated. */
  predicate ValidOrder(order: seq<nat>, size: nat) {
    (forall k :: 0 <= k < |order| ==> order[k] < size) &&
    (forall k, l :: 0 <= k < l < |order| ==> order[k] != order[l])
  }

  /** Every store in the order holds at least the minimum. */
  predicate AtLeastMinimum(q: seq<int>, order: seq<nat>, minimum: int)
    requires ValidOrder(order, |q|)
  {
    forall k :: 0 <= k < |order| ==> q[order[k]] >= minimum
  }

  /** The loop guard: remaining_integer_difference != 0 and the order is non-empty. */
  predicate Running(order: seq<nat>, s: Loop) {
    s.remaining != 0 && order != []
  }

  /** distribution_order_balancing[dist_index % len(distribution_order_balancing)] */
  function At(order: seq<nat>, idx: int): nat
    requires order != []
  {
    order[idx % |order|]
  }

  /** One iteration of the loop body with dist_index == idx. Once the guard is
      false the state no longer changes. */
  function Step(order: seq<nat>, minimum: int, s: Loop, idx: nat): (t: Loop)
    requires ValidOrder(order, |s.quantities|)
    ensures |t.quantities| == |s.quantities|
  {
    if !Running(order, s) then s
    else
      var k := At(order, idx);
      var q := s.quantities;
      if s.remaining > 0 then Loop(q[k := q[k] + 1], s.remaining - 1)
      else if q[k] > minimum then Loop(q[k := q[k] - 1], s.remaining + 1)
      else s
  }

  /** The iteration at idx with units left to add gives one to At(order, idx). */
  lemma StepAdds(order: seq<nat>, minimum: int, s: Loop, idx: nat)
    requires ValidOrder(order, |s.quantities|) && order != [] && s.remaining > 0
    ensures var k := At(order, idx);
      Step(order, minimum, s, idx) == Loop(s.quantities[k := s.quantities[k] + 1], s.remaining - 1)
  {
  }

  /** The iteration at idx with units left to remove takes one from
      At(order, idx) when it is above the minimum, and otherwise does nothing. */
  lemma StepSubtracts(order: seq<nat>, minimum: int, s: Loop, idx: nat)
    requires ValidOrder(order, |s.quantities|) && order != [] && s.remaining < 0
    ensures var k := At(order, idx);
      Step(order, minimum, s, idx)
        == if s.quantities[k] > minimum then Loop(s.quantities[k := s.quantities[k] - 1], s.remaining + 1) else s
  {
  }

  /** The state after the first n iterations, starting from s0 with dist_index 0. */
  function Run(order: seq<nat>, minimum: int, s0: Loop, n: nat): (t: Loop)
    requires ValidOrder(order, |s0.quantities|)
    ensures |t.quantities| == |s0.quantities|
  {
    if n == 0 then s0 else Step(order, minimum, Run(order, minimum, s0, n - 1), n - 1)
  }

  function Sum(q: seq<int>): int {
    if q == [] then 0 else Sum(q[..|q| - 1]) + q[|q| - 1]
  }

  /** Changing one entry changes the sum by the difference. */
  lemma {:induction false} SumUpdate(q: seq<int>, k: int, v: int)
    requires 0 <= k < |q|
    ensures Sum(q[k := v]) == Sum(q) - q[k] + v
  {
    var n := |q|;
    if k == n - 1 {
      assert q[k := v][..n - 1] == q[..n - 1];
    } else {
      assert q[k := v][..n - 1] == q[..n - 1][k := v];
      SumUpdate(q[..n - 1], k, v);
    }
  }

  /** How many units the stores in the order hold above the minimum: the most
      the loop can ever subtract. */
  function Slack(q: seq<int>, order: seq<nat>, minimum: int): int
    requires forall k :: 0 <= k < |order| ==> order[k] < |q|
  {
    if order == [] then 0 else (q[order[0]] - minimum) + Slack(q, order[1..], minimum)
  }

  /** Changing a position in the order changes the slack by the difference;
      changing any other position leaves it alone. */
  lemma {:induction false} SlackUpdate(q: seq<int>, order: seq<nat>, minimum: int, p: int, v: int)
    requires ValidOrder(order, |q|)
    requires 0 <= p < |q|
    ensures Slack(q[p := v], order, minimum)
         == Slack(q, order, minimum) + (if p in order then v - q[p] else 0)
  {
    if order != [] {
      assert p in order[1..] ==> p in order;
      assert order[0] == p ==> p !in order[1..];
      SlackUpdate(q, order[1..], minimum, p, v);
    }
  }

  lemma {:induction false} SlackNonnegative(q: seq<int>, order: seq<nat>, minimum: int)
    requires ValidOrder(order, |q|)
    requires AtLeastMinimum(q, order, minimum)
    ensures Slack(q, order, minimum) >= 0
  {
    if order != [] {
      SlackNonnegative(q, order[1..], minimum);
    }
  }

  /** When every store in the order sits exactly at the minimum there is no slack. */
  lemma {:induction false} SlackAllAtMinimum(q: seq<int>, order: seq<nat>, minimum: int)
    requires ValidOrder(order, |q|)
    requires forall k :: 0 <= k < |order| ==> q[order[k]] == minimum
    ensures Slack(q, order, minimum) == 0
  {
    if order != [] {
      SlackAllAtMinimum(q, order[1..], minimum);
    }
  }

  /** One iteration keeps sum + remaining. */
  lemma StepConserved(order: seq<nat>, minimum: int, s: Loop, idx: nat)
    requires ValidOrder(order, |s.quantities|)
    ensures Conserved(Step(order, minimum, s, idx), s)
  {
    if Running(order, s) {
      var k := At(order, idx);
      var q := s.quantities;
      if s.remaining > 0 {
        SumUpdate(q, k, q[k] + 1);
      } else if q[k] > minimum {
        SumUpdate(q, k, q[k] - 1);
      }
    }
  }

  /** One iteration keeps the sign of remaining, moves stores only in its
      direction, and while subtracting keeps slack + remaining. */
  lemma StepSameSign(order: seq<nat>, minimum: int, s: Loop, idx: nat)
    requires ValidOrder(order, |s.quantities|)
    ensures SameSign(order, minimum, Step(order, minimum, s, idx), s)
  {
    if Running(order, s) && s.remaining < 0 {
      var k := At(order, idx);
      var q := s.quantities;
      if q[k] > minimum {
        SlackUpdate(q, order, minimum, k, q[k] - 1);
      }
    }
  }

  /** sum(adjusted_quantities) + remaining_integer_difference is the same in t as in s. */
  predicate Conserved(t: Loop, s: Loop) {
    Sum(t.quantities) + t.remaining == Sum(s.quantities) + s.remaining
  }

  /** Stores outside the order hold in t what they held in s. */
  predicate Untouched(order: seq<nat>, t: Loop, s: Loop)
    requires |t.quantities| == |s.quantities|
  {
    forall j :: 0 <= j < |s.quantities| && j !in order ==> t.quantities[j] == s.quantities[j]
  }

  /** From s to t remaining moved toward zero without crossing it, every
      store moved only in the direction of s.remaining, and while
      subtracting the slack fell by as much as remaining rose. */
  predicate SameSign(order: seq<nat>, minimum: int, t: Loop, s: Loop)
    requires |t.quantities| == |s.quantities| && ValidOrder(order, |s.quantities|)
  {
    (s.remaining >= 0 ==>
      0 <= t.remaining <= s.remaining &&
      forall j :: 0 <= j < |s.quantities| ==> t.quantities[j] >= s.quantities[j]) &&
    (s.remaining <= 0 ==>
      s.remaining <= t.remaining <= 0 &&
      (forall j :: 0 <= j < |s.quantities| ==> t.quantities[j] <= s.quantities[j]) &&
      Slack(t.quantities, order, minimum) + t.remaining == Slack(s.quantities, order, minimum) + s.remaining)
  }

  /** sum + remaining after n iterations equals its starting value, so once
      remaining is zero the sum is exactly the target. */
  lemma {:induction false} RunConserved(order: seq<nat>, minimum: int, s0: Loop, n: nat)
    requires ValidOrder(order, |s0.quantities|)
    ensures Conserved(Run(order, minimum, s0, n), s0)
  {
    if n > 0 {
      RunConserved(order, minimum, s0, n - 1);
      StepConserved(order, minimum, Run(order, minimum, s0, n - 1), n - 1);
    }
  }

  /** Stores outside the order are never touched. */
  lemma {:induction false} RunUntouched(order: seq<nat>, minimum: int, s0: Loop, n: nat)
    requires ValidOrder(order, |s0.quantities|)
    ensures Untouched(order, Run(order, minimum, s0, n), s0)
  {
    if n > 0 {
      RunUntouched(order, minimum, s0, n - 1);
    }
  }

  /** remaining never crosses zero, stores move only in its direction, and
      while subtracting slack + remaining is constant. */
  lemma {:induction false} RunSameSign(order: seq<nat>, minimum: int, s0: Loop, n: nat)
    requires ValidOrder(order, |s0.quantities|)
    ensures SameSign(order, minimum, Run(order, minimum, s0, n), s0)
  {
    if n > 0 {
      RunSameSign(order, minimum, s0, n - 1);
      StepSameSign(order, minimum, Run(order, minimum, s0, n - 1), n - 1);
    }
  }

  /** Stores in the order never drop below the minimum. */
  lemma {:induction false} RunAtLeastMinimum(order: seq<nat>, minimum: int, s0: Loop, n: nat)
    requires ValidOrder(order, |s0.quantities|)
    requires AtLeastMinimum(s0.quantities, order, minimum)
    ensures AtLeastMinimum(Run(order, minimum, s0, n).quantities, order, minimum)
  {
    if n > 0 {
      RunAtLeastMinimum(order, minimum, s0, n - 1);
    }
  }

  /** The loop's invariants hold after any number of iterations. */
  lemma RunInvariants(order: seq<nat>, minimum: int, s0: Loop, n: nat)
    requires ValidOrder(order, |s0.quantities|)
    ensures Conserved(Run(order, minimum, s0, n), s0)
    ensures Untouched(order, Run(order, minimum, s0, n), s0)
    ensures SameSign(order, minimum, Run(order, minimum, s0, n), s0)
    ensures AtLeastMinimum(s0.quantities, order, minimum) ==>
      AtLeastMinimum(Run(order, minimum, s0, n).quantities, order, minimum)
  {
    RunConserved(order, minimum, s0, n);
    RunUntouched(order, minimum, s0, n);
    RunSameSign(order, minimum, s0, n);
    if AtLeastMinimum(s0.quantities, order, minimum) {
      RunAtLeastMinimum(order, minimum, s0, n);
    }
  }

  /** The source's infinite loop: when there is less slack above the minimum
      than there are units to remove, remaining_integer_difference never
      reaches zero, so with a non-empty order the loop guard stays true for
      ever. */
  lemma RunNeverBalances(order: seq<nat>, minimum: int, s0: Loop, n: nat)
    requires ValidOrder(order, |s0.quantities|)
    requires AtLeastMinimum(s0.quantities, order, minimum)
    requires s0.remaining < 0
    requires Slack(s0.quantities, order, minimum) + s0.remaining < 0
    ensures Run(order, minimum, s0, n).remaining < 0
  {
    RunInvariants(order, minimum, s0, n);
    var t := Run(order, minimum, s0, n);
    SlackNonnegative(t.quantities, order, minimum);
  }

  /** Once the guard is false it stays false and nothing changes any more:
      every later state equals the one where the loop stopped. */
  lemma {:induction false} RunStaysStopped(order: seq<nat>, minimum: int, s0: Loop, n: nat, m: nat)
    requires ValidOrder(order, |s0.quantities|)
    requires n <= m
    requires !Running(order, Run(order, minimum, s0, n))
    ensures Run(order, minimum, s0, m) == Run(order, minimum, s0, n)
    decreases m
  {
    if n < m {
      RunStaysStopped(order, minimum, s0, n, m - 1);
    }
  }

  /** q after the first n units of a positive difference have been handed out:
      unit u goes to the store at order[u % |order|]. */
  function AddUnits(q: seq<int>, order: seq<nat>, n: nat): (r: seq<int>)
    requires order != [] && ValidOrder(order, |q|)
    ensures |r| == |q|
  {
    if n == 0 then q
    else
      var prev := AddUnits(q, order, n - 1);
      var k := At(order, n - 1);
      prev[k := prev[k] + 1]
  }

  /** With a positive difference d, the first n <= d iterations each add one
      unit, round-robin. */
  lemma {:induction false} RunAddsRoundRobin(order: seq<nat>, minimum: int, q: seq<int>, d: int, n: nat)
    requires order != [] && ValidOrder(order, |q|)
    requires n <= d
    ensures Run(order, minimum, Loop(q, d), n) == Loop(AddUnits(q, order, n), d - n)
  {
    if n > 0 {
      RunAddsRoundRobin(order, minimum, q, d, n - 1);
    }
  }

  lemma MulAtLeast(c: int, m: int)
    requires m > 0 && c >= 1
    ensures c * m >= m
  {
  }

  /** Euclidean division is unique: x == c * m + r with 0 <= r < m fixes x / m and x % m. */
  lemma DivModUnique(x: int, m: int, c: int, r: int)
    requires m > 0 && 0 <= r < m && x == c * m + r
    ensures x / m == c && x % m == r
  {
    var c', r' := x / m, x % m;
    assert x == c' * m + r';
    assert (c - c') * m == r' - r;
    if c - c' >= 1 {
      MulAtLeast(c - c', m);
    } else if c' - c >= 1 {
      MulAtLeast(c' - c, m);
    }
  }

  lemma DivModSucc(a: nat, m: nat)
    requires m > 0
    ensures a % m == m - 1 ==> (a + 1) / m == a / m + 1 && (a + 1) % m == 0
    ensures a % m != m - 1 ==> (a + 1) / m == a / m && (a + 1) % m == a % m + 1
  {
    assert a == (a / m) * m + a % m;
    if a % m == m - 1 {
      DivModUnique(a + 1, m, a / m + 1, 0);
    } else {
      DivModUnique(a + 1, m, a / m, a % m + 1);
    }
  }

  /** How many of the units 0, ..., n - 1 land on position p of an order of
      length m. */
  function Units(n: nat, m: nat, p: nat): nat
    requires m > 0
  {
    if n == 0 then 0 else Units(n - 1, m, p) + (if (n - 1) % m == p then 1 else 0)
  }

  /** Units counts n / m full passes plus one for each of the first n % m positions. */
  lemma {:induction false} UnitsClosedForm(n: nat, m: nat, p: nat)
    requires m > 0 && p < m
    ensures Units(n, m, p) == n / m + (if p < n % m then 1 else 0)
  {
    if n > 0 {
      UnitsClosedForm(n - 1, m, p);
      DivModSucc(n - 1, m);
    }
  }

  /** Each position of the order has gained exactly its units. */
  lemma {:induction false} AddUnitsCount(q: seq<int>, order: seq<nat>, n: nat, p: int)
    requires order != [] && ValidOrder(order, |q|)
    requires 0 <= p < |order|
    ensures AddUnits(q, order, n)[order[p]] == q[order[p]] + Units(n, |order|, p)
  {
    if n > 0 {
      var j := (n - 1) % |order|;
      AddUnitsCount(q, order, n - 1, p);
      assert order[j] == order[p] <==> j == p;
    }
  }

  /** Fair shares: after n round-robin units, the store at position p of the
      order has gained n / |order| units, plus one more when p is among the
      first n % |order| positions, so earlier (higher-priority) stores get
      the odd units. */
  lemma AddUnitsShare(q: seq<int>, order: seq<nat>, n: nat, p: int)
    requires order != [] && ValidOrder(order, |q|)
    requires 0 <= p < |order|
    ensures AddUnits(q, order, n)[order[p]]
         == q[order[p]] + n / |order| + (if p < n % |order| then 1 else 0)
  {
    AddUnitsCount(q, order, n, p);
    UnitsClosedForm(n, |order|, p);
  }

  /** Among the m consecutive indices lo, ..., lo + m - 1 one lands on p modulo m. */
  lemma ModWindow(lo: int, p: int, m: int)
    requires m > 0 && 0 <= p < m
    ensures 0 <= (p - lo) % m < m
    ensures (lo + (p - lo) % m) % m == p
  {
    var r := (p - lo) % m;
    var c := (p - lo) / m;
    assert p - lo == c * m + r;
    DivModUnique(lo + r, m, -c, p);
  }

  /** While there is slack, a run of consecutive iterations that found their
      store at the minimum is shorter than the order: a full pass always finds
      a store to subtract from. */
  lemma WindowShort(q: seq<int>, order: seq<nat>, minimum: int, lo: int, hi: int)
    requires ValidOrder(order, |q|) && order != []
    requires Slack(q, order, minimum) > 0
    requires forall i :: lo <= i < hi ==> q[At(order, i)] == minimum
    ensures hi - lo < |order|
  {
    if hi - lo >= |order| {
      forall p | 0 <= p < |order|
        ensures q[order[p]] == minimum
      {
        ModWindow(lo, p, |order|);
        var i := lo + (p - lo) % |order|;
        assert At(order, i) == order[p];
      }
      SlackAllAtMinimum(q, order, minimum);
    }
  }

  /** An iteration that subtracts nothing, while units remain to be removed and
      enough slack was there at the start, leaves its store at the minimum and
      ends a run of such iterations shorter than the order. */
  lemma SkipFindsMinimum(q: seq<int>, order: seq<nat>, minimum: int, s0: Loop, idx: nat, lo: int)
    requires ValidOrder(order, |s0.quantities|) && order != []
    requires AtLeastMinimum(s0.quantities, order, minimum)
    requires s0.remaining < 0 && Slack(s0.quantities, order, minimum) + s0.remaining >= 0
    requires Run(order, minimum, s0, idx) == Loop(q, Run(order, minimum, s0, idx).remaining)
    requires Run(order, minimum, s0, idx).remaining < 0
    requires q[At(order, idx)] <= minimum
    requires forall i :: lo <= i < idx ==> q[At(order, i)] == minimum
    ensures q[At(order, idx)] == minimum
    ensures forall i :: lo <= i < idx + 1 ==> q[At(order, i)] == minimum
    ensures idx + 1 - lo < |order|
  {
    RunSameSign(order, minimum, s0, idx);
    RunAtLeastMinimum(order, minimum, s0, idx);
    WindowShort(q, order, minimum, lo, idx + 1);
  }

  /** One pass of the loop body on a, with dist_index == idx: the store
      At(order, idx) gains a unit while units remain to be added, or loses one
      while units remain to be removed and it is above the minimum. */
  method Iterate(a: array<int>, order: seq<nat>, minimum: int, remaining: int, idx: nat)
    returns (next: int)
    requires ValidOrder(order, a.Length) && order != [] && remaining != 0
    modifies a
    ensures Loop(a[..], next) == Step(order, minimum, Loop(old(a[..]), remaining), idx)
  {
    ghost var before := Loop(a[..], remaining);
    var k := At(order, idx);
    if remaining > 0 {
      StepAdds(order, minimum, before, idx);
      a[k] := a[k] + 1;
      next := remaining - 1;
      assert a[..] == before.quantities[k := before.quantities[k] + 1];
    } else if a[k] > minimum {
      StepSubtracts(order, minimum, before, idx);
      a[k] := a[k] - 1;
      next := remaining + 1;
      assert a[..] == before.quantities[k := before.quantities[k] - 1];
    } else {
      StepSubtracts(order, minimum, before, idx);
      next := remaining;
    }
  }

  /** The while loop of distribute_quantity, run in place on a. It returns
      the final remaining_integer_difference and dist_index (the number of
      iterations). It terminates whenever the difference is not negative, the
      order is empty, or the stores in the order hold enough slack above the
      minimum; RunNeverBalances shows that otherwise the source loops for ever. */
  method Balance(a: array<int>, order: seq<nat>, minimum: int, difference: int)
    returns (remaining: int, steps: nat)
    requires ValidOrder(order, a.Length)
    requires AtLeastMinimum(a[..], order, minimum)
    requires difference >= 0 || order == [] || Slack(a[..], order, minimum) + difference >= 0
    modifies a
    ensures Run(order, minimum, Loop(old(a[..]), difference), steps) == Loop(a[..], remaining)
    ensures !Running(order, Loop(a[..], remaining))
    ensures order == [] ==> remaining == difference && steps == 0
    ensures order != [] ==> remaining == 0
    ensures difference > 0 && order != [] ==> steps == difference
  {
    ghost var initial := Loop(a[..], difference);
    remaining := difference;
    var distIndex := 0;
    ghost var skipped := 0;  // iterations in a row that changed nothing
    while remaining != 0 && order != []
      invariant Loop(a[..], remaining) == Run(order, minimum, initial, distIndex)
      invariant order == [] ==> distIndex == 0
      invariant difference >= 0 ==> remaining >= 0 && distIndex == difference - remaining
      invariant difference <= 0 ==> remaining <= 0
      invariant skipped <= distIndex
      invariant order != [] ==> skipped < |order|
      invariant remaining >= 0 ==> skipped == 0
      invariant forall i :: distIndex - skipped <= i < distIndex ==> a[At(order, i)] == minimum
      decreases if remaining >= 0 then remaining else -remaining, |order| - skipped
    {
      if remaining < 0 && a[At(order, distIndex)] <= minimum {
        SkipFindsMinimum(a[..], order, minimum, initial, distIndex, distIndex - skipped);
        skipped := skipped + 1;
      } else {
        skipped := 0;
      }
      remaining := Iterate(a, order, minimum, remaining, distIndex);
      distIndex := distIndex + 1;
    }
    steps := distIndex;
  }
}
