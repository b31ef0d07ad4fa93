/** The store roster and the first two stages of distribute_quantity:
    proportional seeding, the minimum-quantity rule, and the order in which
    the balancing loop visits the stores that survived it. */
module Stores {
  import opened Rounding

  /** The store format column. The source compares the raw labels 'Grande',
      'Mediano' and 'Pequeño'; any other label matches none of them. */
  datatype Format = Grande | Mediano | Pequeno | Other

  /** The label of the 'Formato' column read as a Format. The roster is given
      as Store values, so this function documents the mapping; FormatOfLabels
      ties it to the two label tests that build the balancing order. */
  function FormatOf(text: string): Format {
    if text == "Grande" then Grande
    else if text == "Mediano" then Mediano
    else if text == "Pequeño" then Pequeno
    else Other
  }

  /** Grande and Mediano stores are balanced first. */
  predicate Prioritized(f: Format) {
    f == Grande || f == Mediano
  }

  /** A label passes isin(['Grande', 'Mediano']) exactly when its format is
      prioritized, passes == 'Pequeño' exactly when its format is Pequeno, and
      passes neither exactly when its format is Other. */
  lemma FormatOfLabels(text: string)
    ensures Prioritized(FormatOf(text)) <==> (text == "Grande" || text == "Mediano")
    ensures FormatOf(text) == Pequeno <==> text == "Pequeño"
    ensures FormatOf(text) == Other <==> !(text == "Grande" || text == "Mediano" || text == "Pequeño")
  {
  }

  /** One row of the store table: 'Nombre', 'Formato', 'Participacion'. */
  datatype Store = Store(name: string, format: Format, participation: real)

  /** Store names key every dictionary of the routine, so they are distinct. */
  predicate DistinctNames(stores: seq<Store>) {
    forall i, j :: 0 <= i < j < |stores| ==> stores[i].name != stores[j].name
  }

  function NameSet(stores: seq<Store>): set<string> {
    set i | 0 <= i < |stores| :: stores[i].name
  }

  /** float(total) * participation: the store's unrounded share. */
  function Share(total: real, s: Store): real {
    total * s.participation
  }

  /** int(round(float(total) * participation)): the store's seeded quantity. */
  function Seed(total: real, s: Store): (r: int)
    ensures Share(total, s) - 0.5 <= r as real <= Share(total, s) + 0.5
  {
    RoundHalfEven(Share(total, s))
  }

  /** The minimum rule: a seeded quantity below the minimum becomes zero. The
      result is either zero or the seed itself, at or above the minimum. */
  function Enforce(seeded: int, minimum: int): (v: int)
    ensures v == 0 || (v == seeded && v >= minimum)
    ensures seeded >= minimum ==> v == seeded
  {
    if seeded < minimum then 0 else seeded
  }

  /** The seeded quantity of every store, in roster order. */
  function Seeds(total: real, stores: seq<Store>): (r: seq<int>)
    ensures |r| == |stores|
    ensures forall i :: 0 <= i < |stores| ==> r[i] == Seed(total, stores[i])
  {
    if stores == [] then [] else Seeds(total, stores[..|stores| - 1]) + [Seed(total, stores[|stores| - 1])]
  }

  /** adjusted_quantities after the minimum rule, in roster order. */
  function Enforced(total: real, stores: seq<Store>, minimum: int): (q: seq<int>)
    ensures |q| == |stores|
  {
    var seeds := Seeds(total, stores);
    seq(|stores|, i requires 0 <= i < |stores| => Enforce(seeds[i], minimum))
  }

  /** The names of the first n stores whose seed reached the minimum, in
      roster order: stores_that_met_minimum after n passes of its loop. */
  function Survivors(stores: seq<Store>, seeds: seq<int>, minimum: int, n: nat): (met: seq<string>)
    requires |seeds| == |stores| && n <= |stores|
    ensures |met| <= n
  {
    if n == 0 then []
    else
      var prefix := Survivors(stores, seeds, minimum, n - 1);
      if seeds[n - 1] >= minimum then prefix + [stores[n - 1].name] else prefix
  }

  /** Survivors lists nothing else: each entry is the name of one of the
      first n stores whose seed reached the minimum. */
  lemma {:induction false} SurvivorsSound(stores: seq<Store>, seeds: seq<int>, minimum: int, n: nat, k: int)
    requires |seeds| == |stores| && n <= |stores|
    requires 0 <= k < |Survivors(stores, seeds, minimum, n)|
    ensures exists i :: (0 <= i < n && stores[i].name == Survivors(stores, seeds, minimum, n)[k]
                         && seeds[i] >= minimum)
  {
    if k < |Survivors(stores, seeds, minimum, n - 1)| {
      SurvivorsSound(stores, seeds, minimum, n - 1, k);
    } else {
      assert stores[n - 1].name == Survivors(stores, seeds, minimum, n)[k];
    }
  }

  /** One of the first n stores is among the survivors exactly when its seed
      reached the minimum. */
  lemma {:induction false} SurvivorsExactly(stores: seq<Store>, seeds: seq<int>, minimum: int, n: nat, i: int)
    requires |seeds| == |stores| && n <= |stores|
    requires DistinctNames(stores)
    requires 0 <= i < n
    ensures stores[i].name in Survivors(stores, seeds, minimum, n) <==> seeds[i] >= minimum
  {
    var met := Survivors(stores, seeds, minimum, n - 1);
    if i < n - 1 {
      assert stores[i].name != stores[n - 1].name;
      SurvivorsExactly(stores, seeds, minimum, n - 1, i);
    } else {
      forall k | 0 <= k < |met|
        ensures met[k] != stores[i].name
      {
        SurvivorsSound(stores, seeds, minimum, n - 1, k);
      }
    }
  }

  /** stores_that_met_minimum. */
  function MetMinimum(total: real, stores: seq<Store>, minimum: int): (met: seq<string>)
    ensures |met| <= |stores|
  {
    Survivors(stores, Seeds(total, stores), minimum, |stores|)
  }

  /** A store is listed in stores_that_met_minimum exactly when its seeded
      quantity reached the minimum. */
  lemma MetMinimumExactly(total: real, stores: seq<Store>, minimum: int, i: int)
    requires DistinctNames(stores)
    requires 0 <= i < |stores|
    ensures stores[i].name in MetMinimum(total, stores, minimum) <==> Seed(total, stores[i]) >= minimum
  {
    SurvivorsExactly(stores, Seeds(total, stores), minimum, |stores|, i);
  }

  /** stores_that_met_minimum lists nothing else: each entry is the name of a
      store whose seeded quantity reached the minimum. */
  lemma MetMinimumSound(total: real, stores: seq<Store>, minimum: int, k: int)
    requires 0 <= k < |MetMinimum(total, stores, minimum)|
    ensures exists i :: (0 <= i < |stores| && stores[i].name == MetMinimum(total, stores, minimum)[k]
                         && Seed(total, stores[i]) >= minimum)
  {
    SurvivorsSound(stores, Seeds(total, stores), minimum, |stores|, k);
  }

  /** Which tier a store belongs to when the balancing order is built. */
  predicate InTier(f: Format, small: bool) {
    if small then f == Pequeno else Prioritized(f)
  }

  /** The positions from i onwards of stores in one tier that met the minimum,
      in roster order: one of the two comprehensions that build
      distribution_order_balancing. */
  function TierFrom(stores: seq<Store>, met: seq<string>, small: bool, i: nat): (r: seq<nat>)
    requires i <= |stores|
    ensures forall k :: 0 <= k < |r| ==>
      i <= r[k] < |stores| && InTier(stores[r[k]].format, small) && stores[r[k]].name in met
    ensures forall j :: i <= j < |stores| && InTier(stores[j].format, small) && stores[j].name in met ==> j in r
    ensures forall k, l :: 0 <= k < l < |r| ==> r[k] < r[l]
    decreases |stores| - i
  {
    if i == |stores| then []
    else if InTier(stores[i].format, small) && stores[i].name in met then [i] + TierFrom(stores, met, small, i + 1)
    else TierFrom(stores, met, small, i + 1)
  }

  /** distribution_order_balancing, as roster positions: every surviving
      Grande or Mediano store, then every surviving Pequeño store. */
  function BalancingOrder(stores: seq<Store>, met: seq<string>): (order: seq<nat>)
    ensures forall k :: 0 <= k < |order| ==> order[k] < |stores|
    ensures forall j :: 0 <= j < |stores| ==>
      (j in order <==> stores[j].name in met && stores[j].format != Other)
    ensures forall k, l :: 0 <= k < l < |order| ==> order[k] != order[l]
  {
    TierFrom(stores, met, false, 0) + TierFrom(stores, met, true, 0)
  }

  /** The priority rule: in the balancing order no Pequeño store comes before
      a Grande or Mediano one, and within a tier the roster order is kept. */
  lemma BalancingOrderPriority(stores: seq<Store>, met: seq<string>, k: int, l: int)
    requires 0 <= k < l < |BalancingOrder(stores, met)|
    ensures var order := BalancingOrder(stores, met);
      !(stores[order[k]].format == Pequeno && Prioritized(stores[order[l]].format))
    ensures var order := BalancingOrder(stores, met);
      (Prioritized(stores[order[k]].format) == Prioritized(stores[order[l]].format)) ==> order[k] < order[l]
  {
    var big := TierFrom(stores, met, false, 0);
    var small := TierFrom(stores, met, true, 0);
    var order := big + small;
    if l < |big| {
      assert order[k] == big[k] && order[l] == big[l];
    } else if k >= |big| {
      assert order[k] == small[k - |big|] && order[l] == small[l - |big|];
    } else {
      assert order[k] == big[k] && order[l] == small[l - |big|];
    }
  }
}
