/** distribute_quantity: splits one demand quantity over the store roster by
    participation, applies the minimum-quantity rule, closes the gap to
    round(total_quantity) with the balancing loop, clamps negatives to zero
    and returns a dictionary from store name to quantity. */
module Distribution {
  import opened Rounding
  import opened Stores
  import opened Balancing

  /** distribution_order_balancing for this call. */
  function Order(total: real, stores: seq<Store>, minimum: int): (order: seq<nat>)
    ensures ValidOrder(order, |stores|)
  {
    BalancingOrder(stores, MetMinimum(total, stores, minimum))
  }

  /** remaining_integer_difference before the balancing loop starts: what the
      post-minimum quantities lack to add up to round(total_quantity). */
  function InitialDifference(total: real, stores: seq<Store>, minimum: int): (d: int)
    ensures Sum(Enforced(total, stores, minimum)) + d == RoundHalfEven(total)
  {
    RoundHalfEven(total) - Sum(Enforced(total, stores, minimum))
  }

  /** Exactly the inputs on which the balancing loop of distribute_quantity
      ends: nothing to remove, nobody to balance, or enough units above the
      minimum in the balancing order to remove the excess. On every other input
      the loop runs for ever (BalancingNeverEnds). */
  predicate BalancingTerminates(total: real, stores: seq<Store>, minimum: int) {
    var d := InitialDifference(total, stores, minimum);
    var order := Order(total, stores, minimum);
    d >= 0 || order == [] || Slack(Enforced(total, stores, minimum), order, minimum) + d >= 0
  }

  /** The final pass: a negative quantity becomes zero, that is, the larger of
      v and zero. */
  function Clamp(v: int): (r: int)
    ensures r >= 0 && r >= v
    ensures r == v || r == 0
  {
    if v < 0 then 0 else v
  }

  /** The clamp applied to every entry: entries become non-negative, and
      non-negative ones are kept. */
  function ClampAll(q: seq<int>): (r: seq<int>)
    ensures |r| == |q|
    ensures forall i :: 0 <= i < |q| ==> r[i] >= 0 && (q[i] >= 0 ==> r[i] == q[i])
  {
    seq(|q|, i requires 0 <= i < |q| => Clamp(q[i]))
  }

  /** The dictionary keyed by store name that holds q[i] for the i-th store. */
  function ByName(stores: seq<Store>, q: seq<int>): (m: map<string, int>)
    requires |q| == |stores| && DistinctNames(stores)
    ensures m.Keys == NameSet(stores)
    ensures forall i :: 0 <= i < |stores| ==> m[stores[i].name] == q[i]
  {
    map i | 0 <= i < |stores| :: stores[i].name := q[i]
  }

  /** The values of a dictionary keyed by store name, in roster order. */
  function InRosterOrder(stores: seq<Store>, m: map<string, int>): (q: seq<int>)
    requires forall i :: 0 <= i < |stores| ==> stores[i].name in m
    ensures |q| == |stores|
  {
    seq(|stores|, i requires 0 <= i < |stores| => m[stores[i].name])
  }

  /** The loop's starting state: the quantities after the minimum rule and
      the initial difference. */
  function Start(total: real, stores: seq<Store>, minimum: int): Loop {
    Loop(Enforced(total, stores, minimum), InitialDifference(total, stores, minimum))
  }

  /** The quantities after n iterations of the balancing loop and the final
      clamping pass, in roster order. */
  function Final(total: real, stores: seq<Store>, minimum: int, n: nat): (q: seq<int>)
    ensures |q| == |stores|
    ensures forall j :: 0 <= j < |stores| ==> q[j] >= 0
  {
    ClampAll(Run(Order(total, stores, minimum), minimum, Start(total, stores, minimum), n).quantities)
  }

  /** The balancing loop has stopped after n iterations. */
  predicate Stopped(total: real, stores: seq<Store>, minimum: int, n: nat) {
    !Running(Order(total, stores, minimum), Run(Order(total, stores, minimum), minimum, Start(total, stores, minimum), n))
  }

  /** The balancing order holds exactly the Grande, Mediano and Pequeño stores
      whose seeded quantity met the minimum, and all of them start at or
      above the minimum. */
  lemma OrderMembers(total: real, stores: seq<Store>, minimum: int)
    requires DistinctNames(stores)
    ensures forall j :: 0 <= j < |stores| ==>
      (j in Order(total, stores, minimum) <==> Seed(total, stores[j]) >= minimum && stores[j].format != Other)
    ensures AtLeastMinimum(Enforced(total, stores, minimum), Order(total, stores, minimum), minimum)
  {
    forall j | 0 <= j < |stores| {
      MetMinimumExactly(total, stores, minimum, j);
    }
  }

  /** Minimum-or-zero and non-negativity hold after any number of iterations:
      balancing only adds to or subtracts down to the minimum from stores
      that met it, and the clamp removes negatives. */
  lemma FinalMinimumOrZero(total: real, stores: seq<Store>, minimum: int, n: nat)
    requires DistinctNames(stores)
    ensures forall j :: 0 <= j < |stores| ==>
      Final(total, stores, minimum, n)[j] >= 0 &&
      (Final(total, stores, minimum, n)[j] == 0 || Final(total, stores, minimum, n)[j] >= minimum)
  {
    OrderMembers(total, stores, minimum);
    RunInvariants(Order(total, stores, minimum), minimum, Start(total, stores, minimum), n);
  }

  /** Stores outside the balancing order are never touched: zeroed stores stay
      zero, and stores of any other format keep their seeded quantity. */
  lemma FinalOutsideOrder(total: real, stores: seq<Store>, minimum: int, n: nat)
    requires DistinctNames(stores)
    ensures forall j :: 0 <= j < |stores| && j !in Order(total, stores, minimum) ==>
      Final(total, stores, minimum, n)[j] == Clamp(Enforced(total, stores, minimum)[j])
    ensures forall j :: 0 <= j < |stores| && Seed(total, stores[j]) < minimum ==>
      Final(total, stores, minimum, n)[j] == 0
    ensures forall j :: 0 <= j < |stores| && stores[j].format == Other ==>
      Final(total, stores, minimum, n)[j] == Clamp(Enforced(total, stores, minimum)[j])
  {
    OrderMembers(total, stores, minimum);
    RunInvariants(Order(total, stores, minimum), minimum, Start(total, stores, minimum), n);
  }

  /** A negative difference only takes units away; a positive one only adds. */
  lemma FinalDirection(total: real, stores: seq<Store>, minimum: int, n: nat)
    ensures InitialDifference(total, stores, minimum) <= 0 ==> forall j :: 0 <= j < |stores| ==>
      Final(total, stores, minimum, n)[j] <= Clamp(Enforced(total, stores, minimum)[j])
    ensures InitialDifference(total, stores, minimum) >= 0 ==> forall j :: 0 <= j < |stores| ==>
      Final(total, stores, minimum, n)[j] >= Clamp(Enforced(total, stores, minimum)[j])
  {
    var order, s0 := Order(total, stores, minimum), Start(total, stores, minimum);
    var t := Run(order, minimum, s0, n);
    var final := Final(total, stores, minimum, n);
    RunInvariants(order, minimum, s0, n);
    assert SameSign(order, minimum, t, s0);
    forall j | 0 <= j < |stores|
      ensures s0.remaining <= 0 ==> final[j] <= Clamp(s0.quantities[j])
      ensures s0.remaining >= 0 ==> final[j] >= Clamp(s0.quantities[j])
    {
      assert final[j] == Clamp(t.quantities[j]);
    }
  }

  /** Conservation: once the loop has stopped with a non-empty order (or there
      was nothing to balance), and the minimum is not negative so that the
      clamp changes nothing, the quantities add up to round(total_quantity). */
  lemma FinalConserves(total: real, stores: seq<Store>, minimum: int, n: nat)
    requires DistinctNames(stores)
    requires Stopped(total, stores, minimum, n)
    requires minimum >= 0
    requires Order(total, stores, minimum) != [] || InitialDifference(total, stores, minimum) == 0
    ensures Sum(Final(total, stores, minimum, n)) == RoundHalfEven(total)
  {
    var order, s0 := Order(total, stores, minimum), Start(total, stores, minimum);
    OrderMembers(total, stores, minimum);
    RunInvariants(order, minimum, s0, n);
    var t := Run(order, minimum, s0, n);
    forall j | 0 <= j < |stores|
      ensures t.quantities[j] >= 0
    {
      if j !in order {
        assert t.quantities[j] == s0.quantities[j];
      }
    }
    assert ClampAll(t.quantities) == t.quantities;
  }

  /** Every stopping point of the loop yields the same result. */
  lemma StoppedFinal(total: real, stores: seq<Store>, minimum: int, n: nat, m: nat)
    requires Stopped(total, stores, minimum, n) && Stopped(total, stores, minimum, m)
    ensures Final(total, stores, minimum, n) == Final(total, stores, minimum, m)
  {
    var order, s0 := Order(total, stores, minimum), Start(total, stores, minimum);
    if n <= m {
      RunStaysStopped(order, minimum, s0, n, m);
    } else {
      RunStaysStopped(order, minimum, s0, m, n);
    }
  }

  /** Round-robin additions: a positive difference d stops the loop after
      exactly d iterations, and the store at position p of the order gains
      d / |order| units, plus one when p < d % |order|. */
  lemma FinalRoundRobin(total: real, stores: seq<Store>, minimum: int, n: nat)
    requires InitialDifference(total, stores, minimum) > 0
    requires Order(total, stores, minimum) != []
    requires Stopped(total, stores, minimum, n)
    ensures Stopped(total, stores, minimum, InitialDifference(total, stores, minimum))
    ensures var d, order := InitialDifference(total, stores, minimum), Order(total, stores, minimum);
      forall p :: 0 <= p < |order| ==>
        Final(total, stores, minimum, n)[order[p]]
          == Clamp(Enforced(total, stores, minimum)[order[p]] + d / |order| + (if p < d % |order| then 1 else 0))
  {
    var d, order, q := InitialDifference(total, stores, minimum), Order(total, stores, minimum), Enforced(total, stores, minimum);
    RunAddsRoundRobin(order, minimum, q, d, d);
    StoppedFinal(total, stores, minimum, n, d);
    forall p | 0 <= p < |order|
      ensures AddUnits(q, order, d)[order[p]] == q[order[p]] + d / |order| + (if p < d % |order| then 1 else 0)
    {
      AddUnitsShare(q, order, d, p);
    }
  }

  /** When no store met the minimum nobody receives anything. */
  lemma FinalNobodyMet(total: real, stores: seq<Store>, minimum: int, n: nat)
    requires DistinctNames(stores)
    requires MetMinimum(total, stores, minimum) == []
    ensures forall j :: 0 <= j < |stores| ==> Final(total, stores, minimum, n)[j] == 0
  {
    forall j | 0 <= j < |stores|
      ensures Seed(total, stores[j]) < minimum
    {
      MetMinimumExactly(total, stores, minimum, j);
    }
    FinalOutsideOrder(total, stores, minimum, n);
  }

  /** Where BalancingTerminates fails, the source's while loop never exits:
      the balancing order is non-empty and remaining_integer_difference stays
      negative after every number of iterations. */
  lemma BalancingNeverEnds(total: real, stores: seq<Store>, minimum: int, n: nat)
    requires DistinctNames(stores)
    requires !BalancingTerminates(total, stores, minimum)
    ensures Order(total, stores, minimum) != []
    ensures Run(Order(total, stores, minimum), minimum, Start(total, stores, minimum), n).remaining < 0
    ensures !Stopped(total, stores, minimum, n)
  {
    OrderMembers(total, stores, minimum);
    RunNeverBalances(Order(total, stores, minimum), minimum, Start(total, stores, minimum), n);
  }

  /** Two Grande stores with participation 0.6 each. */
  function StuckRoster(): seq<Store> {
    [Store("A", Grande, 0.6), Store("B", Grande, 0.6)]
  }

  /** With a total of 10 and the default minimum of 6 both stores of
      StuckRoster seed to 6, so the seeded sum 12 overshoots round(10) by 2. */
  lemma StuckSeeds()
    ensures Enforced(10.0, StuckRoster(), 6) == [6, 6]
    ensures InitialDifference(10.0, StuckRoster(), 6) == -2
  {
    var stores := StuckRoster();
    RoundHalfEvenOfInteger(6);
    RoundHalfEvenOfInteger(10);
    assert Seed(10.0, stores[0]) == 6 && Seed(10.0, stores[1]) == 6;
    var q := Enforced(10.0, stores, 6);
    assert q == [6, 6];
    assert Sum(q) == 12 by {
      assert q[..1] == [6];
      assert [6][..0] == [];
    }
  }

  /** StuckRoster with a total of 10 and the default minimum of 6: both stores
      sit at the minimum, the difference is -2, and neither can give a unit
      up, so distribute_quantity never returns. */
  lemma StuckExample(n: nat)
    ensures DistinctNames(StuckRoster())
    ensures !BalancingTerminates(10.0, StuckRoster(), 6)
    ensures !Stopped(10.0, StuckRoster(), 6, n)
  {
    var stores := StuckRoster();
    StuckSeeds();
    OrderMembers(10.0, stores, 6);
    var order := Order(10.0, stores, 6);
    assert 0 in order;
    SlackAllAtMinimum([6, 6], order, 6);
    BalancingNeverEnds(10.0, stores, 6, n);
  }

  /** Extending the roster prefix by one store extends the running sum by
      that store's entry. */
  lemma SumExtend(q: seq<int>, i: int)
    requires 0 <= i < |q|
    ensures Sum(q[..i + 1]) == Sum(q[..i]) + q[i]
  {
    assert q[..i + 1][..i] == q[..i];
  }

  /** The first loop of distribute_quantity: initial_quantity_by_store, the
      unrounded share total * participation of every store. */
  method InitialQuantities(total: real, stores: seq<Store>) returns (shares: map<string, real>)
    requires DistinctNames(stores)
    ensures shares.Keys == NameSet(stores)
    ensures forall j :: 0 <= j < |stores| ==>
      stores[j].name in shares && shares[stores[j].name] == Share(total, stores[j])
  {
    shares := map[];
    var i := 0;
    while i < |stores|
      invariant 0 <= i <= |stores|
      invariant shares.Keys == NameSet(stores[..i])
      invariant forall j :: 0 <= j < i ==> shares[stores[j].name] == Share(total, stores[j])
    {
      assert NameSet(stores[..i + 1]) == NameSet(stores[..i]) + {stores[i].name};
      shares := shares[stores[i].name := Share(total, stores[i])];
      i := i + 1;
    }
    assert stores[..i] == stores;
  }

  /** The second loop of distribute_quantity: the seeded quantities under the
      minimum rule in a fresh array (adjusted_quantities by roster position),
      initial_distributed_sum and stores_that_met_minimum. */
  method SeedAndEnforce(total: real, stores: seq<Store>, minimum: int)
    returns (adjusted: array<int>, distributedSum: int, met: seq<string>)
    requires DistinctNames(stores)
    ensures fresh(adjusted)
    ensures adjusted[..] == Enforced(total, stores, minimum)
    ensures distributedSum == Sum(adjusted[..])
    ensures met == MetMinimum(total, stores, minimum)
  {
    var shares := InitialQuantities(total, stores);
    ghost var seeds := Seeds(total, stores);
    adjusted := new int[|stores|];
    distributedSum := 0;
    met := [];
    var i := 0;
    while i < |stores|
      invariant 0 <= i <= |stores|
      invariant forall j :: 0 <= j < i ==> adjusted[j] == Enforce(seeds[j], minimum)
      invariant distributedSum == Sum(adjusted[..i])
      invariant met == Survivors(stores, seeds, minimum, i)
    {
      var name := stores[i].name;
      var share := if name in shares then shares[name] else 0.0;
      var rounded := RoundHalfEven(share);
      if rounded < minimum {
        adjusted[i] := 0;
      } else {
        adjusted[i] := rounded;
        distributedSum := distributedSum + rounded;
        met := met + [name];
      }
      SumExtend(adjusted[..], i);
      assert adjusted[..][..i + 1] == adjusted[..i + 1] && adjusted[..][..i] == adjusted[..i];
      i := i + 1;
    }
    assert adjusted[..] == adjusted[..|stores|];
  }

  /** The final pass: every negative quantity is set to zero. */
  method ClampNegatives(a: array<int>)
    modifies a
    ensures a[..] == ClampAll(old(a[..]))
  {
    var i := 0;
    while i < a.Length
      invariant 0 <= i <= a.Length
      invariant forall j :: 0 <= j < i ==> a[j] == Clamp(old(a[j]))
      invariant forall j :: i <= j < a.Length ==> a[j] == old(a[j])
    {
      if a[i] < 0 {
        a[i] := 0;
      }
      i := i + 1;
    }
  }

  /** distribute_quantity(total_quantity, df_stores, minimum_quantity): every
      store of the roster gets an entry, and the entries are the quantities in
      which the balancing loop stops, after the clamp. What those quantities
      are is stated by the Final lemmas above. */
  method DistributeQuantity(total: real, stores: seq<Store>, minimum: int) returns (result: map<string, int>)
    requires DistinctNames(stores)
    requires BalancingTerminates(total, stores, minimum)
    ensures forall i :: 0 <= i < |stores| ==> stores[i].name in result
    ensures result.Keys == NameSet(stores)
    ensures forall i :: 0 <= i < |stores| ==>
      result[stores[i].name] >= 0 && (result[stores[i].name] == 0 || result[stores[i].name] >= minimum)
    ensures forall i :: 0 <= i < |stores| && Seed(total, stores[i]) < minimum ==> result[stores[i].name] == 0
    ensures forall i :: 0 <= i < |stores| && stores[i].format == Other ==>
      result[stores[i].name] == Clamp(Enforced(total, stores, minimum)[i])
    ensures MetMinimum(total, stores, minimum) == [] ==> forall i :: 0 <= i < |stores| ==> result[stores[i].name] == 0
    ensures minimum >= 0 && (Order(total, stores, minimum) != [] || InitialDifference(total, stores, minimum) == 0) ==>
      Sum(InRosterOrder(stores, result)) == RoundHalfEven(total)
    ensures exists n: nat :: (Stopped(total, stores, minimum, n) &&
      forall i :: 0 <= i < |stores| ==> result[stores[i].name] == Final(total, stores, minimum, n)[i])
  {
    var adjusted, distributedSum, met := SeedAndEnforce(total, stores, minimum);
    ghost var enforced := adjusted[..];

    // balancing
    var difference := RoundHalfEven(total) - distributedSum;
    var order := BalancingOrder(stores, met);
    assert order == Order(total, stores, minimum);
    assert difference == InitialDifference(total, stores, minimum);
    OrderMembers(total, stores, minimum);
    var remaining, steps := Balance(adjusted, order, minimum, difference);
    ClampNegatives(adjusted);
    result := ByName(stores, adjusted[..]);

    assert Loop(enforced, difference) == Start(total, stores, minimum);
    assert adjusted[..] == Final(total, stores, minimum, steps);
    assert Stopped(total, stores, minimum, steps);
    FinalMinimumOrZero(total, stores, minimum, steps);
    FinalOutsideOrder(total, stores, minimum, steps);
    if MetMinimum(total, stores, minimum) == [] {
      FinalNobodyMet(total, stores, minimum, steps);
    }
    assert InRosterOrder(stores, result) == adjusted[..];
    if minimum >= 0 && (order != [] || difference == 0) {
      FinalConserves(total, stores, minimum, steps);
    }
  }
}
