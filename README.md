# Quantity distribution across stores

This project models `distribute_quantity` from `DistribucionAPP.py`. The routine
splits a total quantity of a product among the stores of a roster in four
stages:

1. **Seeding.** Each store gets `round(total * participation)`. Python's
   `round` breaks ties to the even neighbour (`Rounding.RoundHalfEven`).
2. **Minimum rule.** A seeded quantity below the minimum becomes zero. The
   stores that reached it are listed in `stores_that_met_minimum`
   (`Stores.Enforced`, `Stores.MetMinimum`).
3. **Balancing.** The difference between the rounded total and the seeded
   sum is settled one unit at a time. The loop walks round-robin over the
   surviving Grande/Mediano stores, then the surviving Pequeño stores
   (`Stores.BalancingOrder`). It adds a unit when the difference is positive.
   When the difference is negative, it takes a unit from a store only if that
   store is above the minimum, and otherwise moves on.
   - `Balancing.Step` and `Balancing.Run` state what one iteration and the
     first n iterations do.
   - `Balancing.Balance` runs the loop in place on an array and is proved to
     end in the state `Run` describes.
4. **Clamping.** Negative quantities become zero, and the dictionary from
   store name to quantity is returned (`Distribution.DistributeQuantity`).

How the modules map to the source:

- `Rounding` holds the tie-to-even rounding.
- `Stores` holds the roster, the seeding, the minimum rule and the balancing
  order.
- `Balancing` holds the loop:
  - a functional description (`Step`, `Run`);
  - its invariants;
  - the round-robin closed form for additions;
  - the divergence result for subtractions;
  - the imperative `Balance`.
- `Distribution` holds the whole routine: the methods `SeedAndEnforce`,
  `ClampNegatives` and `DistributeQuantity`, plus lemmas about
  `Final(total, stores, minimum, n)`, the result after n balancing iterations
  and the clamp.

The routine's three dictionaries are modelled as follows:

- `initial_quantity_by_store` is a `map<string, real>` from store name to
  share (`Distribution.InitialQuantities`).
- `adjusted_quantities` is an `array<int>` indexed by roster position, updated
  in place by the loops.
- The returned dictionary is a `map<string, int>` built from that array by
  `Distribution.ByName`.

Store names are assumed distinct, since they key every dictionary of the
routine.

The balancing loop does not terminate on every input. When the difference is
negative and the stores in the order cannot give up enough units above the
minimum, the loop cycles forever. An example is two Grande stores with
participation 0.6, a total of 10 and a minimum of 6: both seed to 6, the
difference is -2, and nobody can be decreased.

- `Distribution.BalancingTerminates` states the exact condition under which
  the loop stops.
- `DistributeQuantity` requires that condition.
- `Distribution.BalancingNeverEnds` proves that on every other input no
  number of iterations reaches a stopped state.
- `Distribution.StuckExample` proves this for the example above.

Balancing, as the code does it:

- the balancing order is computed once, before the loop, and never recomputed;
- subtraction walks the same order as addition, Grande/Mediano first;
- only stores that met the minimum are visited;
- there is no iteration cap;
- the loop can fail to terminate, as above.

## Model

| member | source | states |
|---|---|---|
| Rounding.RoundHalfEven | DistribucionAPP.py:137 | the rounded value is within one half of x, and on an exact tie it is even (Python 3 `round`) |
| Rounding.RoundHalfEvenUnique | DistribucionAPP.py:137 | any integer within one half of x that is even on a tie equals RoundHalfEven(x), so the contract fixes the rounding completely |
| Rounding.RoundHalfEvenOfInteger | DistribucionAPP.py:149 | rounding a whole total leaves it unchanged |
| Stores.FormatOfLabels | DistribucionAPP.py:153-154 | a 'Formato' label passes isin(['Grande', 'Mediano']) exactly when FormatOf reads it as a prioritized format, passes == 'Pequeño' exactly when it reads as Pequeno, and passes neither exactly when it reads as Other |
| Stores.Seed | DistribucionAPP.py:134-137 | rounded_quantity is within one half of the store's share total * participation |
| Stores.Seeds | DistribucionAPP.py:129-137 | the rounded quantities of the roster, one per store in roster order, each that store's Seed |
| Stores.Enforce | DistribucionAPP.py:140-143 | the minimum rule gives either zero or the seed itself at or above the minimum, and a seed that reaches the minimum is kept |
| Stores.Enforced | DistribucionAPP.py:129-143 | adjusted_quantities after the minimum rule has one entry per store of the roster |
| Stores.Survivors | DistribucionAPP.py:127-145 | after n passes of the loop, stores_that_met_minimum has at most n names |
| Stores.SurvivorsSound | DistribucionAPP.py:140-145 | every name appended in the first n passes is that of one of the first n stores, and that store's seed reached the minimum |
| Stores.SurvivorsExactly | DistribucionAPP.py:140-145 | one of the first n stores is appended in those passes if and only if its seed reached the minimum |
| Stores.MetMinimum | DistribucionAPP.py:127-145 | stores_that_met_minimum is no longer than the roster |
| Stores.MetMinimumSound | DistribucionAPP.py:140-145 | every name in stores_that_met_minimum is that of a store whose rounded seed reached the minimum |
| Stores.MetMinimumExactly | DistribucionAPP.py:140-145 | a store is in stores_that_met_minimum if and only if its rounded seed is at least the minimum |
| Stores.TierFrom | DistribucionAPP.py:153-157 | a tier's part of the order holds exactly the surviving stores of that tier from position i on, in strictly increasing roster order |
| Stores.BalancingOrder | DistribucionAPP.py:153-157 | the balancing order holds valid, distinct roster positions, and a store is in it if and only if it met the minimum and its format is Grande, Mediano or Pequeño |
| Stores.BalancingOrderPriority | DistribucionAPP.py:153-157 | no Pequeño store precedes a Grande or Mediano store, and stores of the same tier keep their roster order |
| Balancing.Step | DistribucionAPP.py:160-175 | one loop iteration keeps one quantity per store |
| Balancing.Run | DistribucionAPP.py:159-175 | n iterations keep one quantity per store |
| Balancing.At | DistribucionAPP.py:161 | the store visited at dist_index is the order entry at dist_index mod len(order) (a definition, without a contract) |
| Balancing.StepConserved | DistribucionAPP.py:160-175 | one iteration keeps the sum of the quantities plus the remaining difference constant |
| Balancing.StepSameSign | DistribucionAPP.py:160-175 | one iteration moves the remaining difference toward zero without crossing it, moves stores only in the difference's direction, and keeps slack above the minimum plus remaining difference constant while subtracting |
| Balancing.RunConserved | DistribucionAPP.py:149-175 | after any number of iterations, the quantities plus the remaining difference add up to what they did at the start |
| Balancing.RunUntouched | DistribucionAPP.py:156-175 | no iteration changes a store outside the balancing order |
| Balancing.RunSameSign | DistribucionAPP.py:160-175 | after any number of iterations, the remaining difference has not crossed zero, every store has moved only in the difference's direction, and while subtracting the slack above the minimum went down by exactly the units removed |
| Balancing.RunAtLeastMinimum | DistribucionAPP.py:166-172 | when every store in the order starts at or above the minimum, no number of iterations takes one below it |
| Balancing.RunInvariants | DistribucionAPP.py:149-175 | the same facts hold after any number of iterations: conservation, untouched stores outside the order, monotone per-store change, and the floor at the minimum |
| Balancing.RunNeverBalances | DistribucionAPP.py:160-175 | when the deficit exceeds the total slack above the minimum, the remaining difference stays negative after every number of iterations |
| Balancing.RunStaysStopped | DistribucionAPP.py:160 | once the loop condition fails, further iterations would change nothing, so the state at any later count is the same |
| Balancing.RunAddsRoundRobin | DistribucionAPP.py:159-165 | with a positive difference d, the first n ≤ d iterations give one unit each to order[0], order[1], … cyclically, and leave d − n to distribute |
| Balancing.AddUnitsShare | DistribucionAPP.py:161-165 | after n round-robin additions, the store at order position p has gained n / len(order) units, plus one if p < n mod len(order) |
| Balancing.SkipFindsMinimum | DistribucionAPP.py:166-172 | when a subtraction is skipped while enough slack remains, the skipped store sits exactly at the minimum, and fewer than len(order) iterations in a row can be skipped |
| Balancing.Iterate | DistribucionAPP.py:161-175 | the loop body, run in place on the quantities, leaves exactly the state that Step describes for that dist_index |
| Balancing.Balance | DistribucionAPP.py:159-175 | the in-place loop ends in exactly the state reached by Run after its number of steps, with remaining difference zero when the order is non-empty; with a positive difference it runs exactly that many steps; with an empty order it changes nothing |
| Distribution.Order | DistribucionAPP.py:153-157 | the balancing order built from the seeded roster holds valid, distinct positions |
| Distribution.InitialDifference | DistribucionAPP.py:149 | the post-minimum quantities plus remaining_integer_difference add up to round(total) |
| Distribution.Clamp | DistribucionAPP.py:179-180 | the clamped value is non-negative, at least v, and equal to v or zero, so it is the larger of v and zero |
| Distribution.ClampAll | DistribucionAPP.py:178-180 | the final pass keeps one entry per store, makes every entry non-negative, and keeps non-negative entries unchanged |
| Distribution.Final | DistribucionAPP.py:159-180 | the quantities after n loop iterations and the clamp: one non-negative entry per roster store |
| Distribution.ByName | DistribucionAPP.py:184 | the returned dictionary has exactly the roster's names as keys and maps each name to the quantity at that store's position |
| Distribution.OrderMembers | DistribucionAPP.py:140-157 | a store is in the balancing order if and only if its seed reached the minimum and its format is not Other, and every store in the order starts at or above the minimum |
| Distribution.FinalMinimumOrZero | DistribucionAPP.py:140-180 | after any number of iterations and the clamp, every quantity is non-negative and is either zero or at least the minimum |
| Distribution.FinalOutsideOrder | DistribucionAPP.py:140-180 | a store outside the balancing order keeps its post-minimum quantity (clamped): zero when its seed was below the minimum, its seed when its format is Other |
| Distribution.FinalDirection | DistribucionAPP.py:163-171 | with a negative difference no store gains, and with a positive difference no store loses |
| Distribution.FinalConserves | DistribucionAPP.py:149-180 | once the loop has stopped with a non-negative minimum and either a non-empty order or a zero difference, the quantities add up to round(total) |
| Distribution.StoppedFinal | DistribucionAPP.py:159-175 | any two iteration counts at which the loop has stopped give the same final quantities |
| Distribution.FinalRoundRobin | DistribucionAPP.py:159-175 | with a positive difference d and a non-empty order, the loop stops after d iterations, and at any stopping point the store at order position p holds its seed plus d / len(order), plus one if p < d mod len(order) (clamped) |
| Distribution.FinalNobodyMet | DistribucionAPP.py:140-160 | when no store reached the minimum, every final quantity is zero |
| Distribution.BalancingNeverEnds | DistribucionAPP.py:160-175 | when the termination condition fails, the order is non-empty and no number of iterations reaches a stopped state, so the source loop runs forever |
| Distribution.StuckSeeds | DistribucionAPP.py:129-149 | for two Grande stores at 0.6 with total 10 and minimum 6, both seeds are 6 and the difference is -2 |
| Distribution.StuckExample | DistribucionAPP.py:160-175 | two Grande stores at 0.6 with total 10 and minimum 6 violate the termination condition, and the loop never stops |
| Distribution.InitialQuantities | DistribucionAPP.py:118-122 | initial_quantity_by_store has exactly the roster's names as keys and maps each to total * participation |
| Distribution.SeedAndEnforce | DistribucionAPP.py:115-145 | the two roster loops produce the post-minimum quantities, their sum, and exactly stores_that_met_minimum |
| Distribution.ClampNegatives | DistribucionAPP.py:178-180 | every negative quantity becomes zero and the others are unchanged |
| Distribution.DistributeQuantity | DistribucionAPP.py:103-184 | the result has exactly the roster's names as keys. Every entry is non-negative and either zero or at least the minimum. Stores whose seed is below the minimum get zero, and Other-format stores keep their clamped seed. When nobody met the minimum, all entries are zero. With a non-negative minimum, the entries add up to round(total) whenever balancing can settle the difference. The result equals Final at an iteration count where the loop has stopped, so FinalRoundRobin and FinalDirection apply to it |

## Left out

- load_store_data and load_quantities_data (DistribucionAPP.py:11-100) read Excel/CSV files through pandas. That is file I/O, so the model takes the roster as a sequence of `Store` values.
- The Streamlit page (DistribucionAPP.py:187 onwards) and the other app scripts (`app.py`, `app 2.py`, `app 3.py`, `app 4.py`) are user interface and are not part of this model.
- Floating-point arithmetic: `float(total) * participation` is computed on exact reals. IEEE rounding of that product is not modelled, so a product that lands just beside a .5 tie may round differently in the source.
- The format column is modelled as the `Format` datatype. Any label other than 'Grande', 'Mediano' and 'Pequeño' is `Other` (`Stores.FormatOf`).
- DistributeQuantity: requires `BalancingTerminates`, because on every other input the source loop never returns (`Distribution.BalancingNeverEnds`).
- DistributeQuantity: requires distinct store names. With duplicate names the source's dictionaries merge entries, which is not modelled.
- DistributeQuantity: the round-robin share and the direction of change are not clauses of its own contract. It states that its result equals Final at a stopping point, and FinalRoundRobin (with StoppedFinal) and FinalDirection state those facts about Final.
- DistributeQuantity: the conservation clause is stated only for a non-negative minimum. With a negative minimum, clamping can raise the sum above round(total).
