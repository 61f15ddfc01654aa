# Anchor-layered barter appraiser

This project models the valuation solver `AnchorLayeredTrimmedSolver` of a
barter-price tracker for an online game. The solver takes a record of
observed trades, one entry per item. Each trade says how many units of the
item (`cntA`) were offered, and lists alternative bundles of
`(multiplier, item)` pairs that were asked for them. From that record it
estimates a unit value for every item, relative to one anchor item whose
value is 1.

The model has five parts:

- **Seeding.** The anchor starts at 1. Every one-pair bundle `m × name`
  with `m > 0` on an anchor trade with `cntA > 0` offers `name` the value
  `cntA / m`. The smallest value offered for an item wins, and the anchor's
  starting 1 competes under the same keep-the-smaller rule.
- **Propagation.** This runs round by round. An item without a value is
  costed from the items already known. Each trade's unit cost is the
  cheapest bundle whose items are all known with a positive value, divided
  by `cntA`. A trade with `cntA <= 0` or no such bundle has no unit cost.
  The item's value is then aggregated from those unit costs by a
  nearest-rank quantile that prefers small ("retail") trades.
- **Appraisal output.** Zeros are filled in for items without a positive
  value, and values are rounded for display. The anchor is shown as 1.
- **Trimming.** Every trade is re-costed against a frozen table. An item
  is trimmed only when it has at least `trim_min_trades` costed trades and
  `0 < alpha < 0.5`; otherwise all of its trades are kept. When it is
  trimmed, only the trades whose unit cost lies in the nearest-rank
  `[alpha, 1 - alpha]` band are kept, so trades with no unit cost are
  dropped as well.
- **The driver `solve_with_trimming`.** It appraises, then repeats
  re-cost, trim and re-appraise `max(1, passes - 1)` times.

Every method is proved equal to a specification function. The loops are
proved against a fold over a prefix of their input, and the properties are
proved as lemmas about those functions.

Modelling choices:

- Floating point becomes `real`. NaN and infinities do not exist, so the
  `math.isfinite` checks are always true and are dropped.
- `_quantile` of an empty list, which is NaN in Python, becomes `None`.
- Python's `round` is modelled as round-half-to-even (`RoundHalfEven`).
- The input dictionary becomes a sequence of entries in iteration order.
- Value tables are `map<string, real>`.
- The solver's settings are a `Config` value, because the solver never
  changes them. `DEFAULT_CONFIG` holds the constructor defaults.
- The driver's proof passes one trim round to its helper methods as a ghost
  function value (`round`). This keeps the solver from unfolding every
  appraisal inside every round. It changes nothing in what is computed.

Behaviour of the code that a reader may not expect, each proved about the model:

- **A value, once written, is never lowered.** The propagation loop
  (`anchor_layered.py:127-128`) compares a new aggregate with the previous
  value `prev` and adopts it only when it is lower by more than `1e-12`.
  But items in `known` are skipped at line 108, and `known` always holds
  exactly the keys of `values`. So `prev` is always `None` when the
  comparison is reached, and the improvement branch is dead
  (`Propagation.ItemStepWritesOnce`).
- **The anchor's working value can fall below 1.** Seeding starts the
  anchor at 1 (line 45). Then an anchor bundle that names the anchor
  itself goes through the same keep-the-smaller rule (lines 57-60). That
  lowers the anchor's value, and later items are costed against the lower
  value. Only the output resets the anchor to 1, at line 140
  (`Seeding.AnchorSelfOfferLowersAnchor`).
- **Multiplier signs are not checked when a bundle is costed.**
  `_offer_cost_if_known` (lines 66-74) checks only the referenced values,
  so a negative multiplier yields a negative cost
  (`Costing.NegativeMultiplierAccepted`). Only seeding rejects `m <= 0`
  (line 55).
- **The median of two picks the lower one.** Python's `round` sends
  `0.5` to `0` (ties go to the even integer), so at lines 89-91 a
  two-element pool with `agg_quantile = 0.5` selects its smaller element.
  For retail costs 10 and 12 the aggregate is 10
  (`Ranking.AggregateTwoPicksLower`, `Ranking.RetailPreferenceExample`).
- **`passes = 1` still trims once.** `max(1, passes - 1)` at line 213 runs
  one trim round for `passes = 1`, exactly as for `passes = 2`
  (`SolverSpec.OnePassStillTrims`).

As an example of trimming, twelve trades with unit costs 1 to 10, 100 and
1000 and `alpha = 0.1` have bounds at nearest-rank indices `round(1.1) = 1`
and `round(9.9) = 10`. That gives the band `[2, 100]`, so the trades
costing 1 and 1000 are dropped (`Trimming.TrimExclusionExample`).

## Model

| member | source | states |
|---|---|---|
| Rounding.RoundHalfEven | appraiser/anchor_layered.py:34 | the integer nearest to `x`, the even one on a tie, as Python's `round` |
| Rounding.RoundHalfEvenUnique | appraiser/anchor_layered.py:34 | any integer within 0.5 of `x` that is even on a tie is the rounding of `x` |
| Rounding.RoundHalfEvenMonotone | appraiser/anchor_layered.py:41 | rounding never reverses the order of two numbers |
| Rounding.RoundRule | appraiser/anchor_layered.py:33-34 | below 10 the result is a multiple of 0.1 within 0.05 of `x`; from 10 on it is a whole number within 0.5; non-negative input gives non-negative output |
| Rounding.RoundRuleBoundaries | appraiser/anchor_layered.py:33-34 | 9.96 shows as 10.0, 10 as 10 and 9.949 as 9.9 |
| Ranking.Insert | appraiser/anchor_layered.py:40 | inserting into an ascending list gives an ascending list holding the old elements plus `x` |
| Ranking.Sort | appraiser/anchor_layered.py:40 | the result is ascending and a permutation of the input |
| Ranking.SortOfSorted | appraiser/anchor_layered.py:40 | sorting an ascending list returns it unchanged |
| Ranking.NearestRank | appraiser/anchor_layered.py:41 | `int(round(q * (n - 1)))` is a valid index for every `q` in [0, 1] |
| Ranking.NearestRankMonotone | appraiser/anchor_layered.py:41 | a larger `q` never selects a smaller index |
| Ranking.Quantile | appraiser/anchor_layered.py:36-42 | no value (NaN) exactly for an empty list; otherwise an element of the list |
| Ranking.QuantileOfSorted | appraiser/anchor_layered.py:40-42 | on an ascending list the quantile is the element at the nearest-rank index |
| Ranking.SortExtremes | appraiser/anchor_layered.py:40 | the first and last sorted elements bound every element of the list |
| Ranking.QuantileBetweenExtremes | appraiser/anchor_layered.py:36-42 | quantile 0 is the minimum, quantile 1 the maximum, and every quantile lies between them |
| Ranking.QuantileMonotone | appraiser/anchor_layered.py:36-42 | a larger `q` never gives a smaller quantile |
| Ranking.TrimBandOrdered | appraiser/anchor_layered.py:187-188 | for `0 < alpha < 0.5` the lower trim bound is at most the upper one |
| Ranking.RetailUnits | appraiser/anchor_layered.py:84 | the retail list holds exactly the unit costs of observations with count at most the cap; it is empty only if no observation qualifies |
| Ranking.RetailPositions | appraiser/anchor_layered.py:84 | the positions of the retail observations (count at most the cap) below `n`: ascending, all retail, and every retail one included |
| Ranking.RetailPrefix | appraiser/anchor_layered.py:84 | the retail costs of the first `n` observations, in order |
| Ranking.RetailPrefixInOrder | appraiser/anchor_layered.py:84 | the first `n` retail costs are the costs at the retail positions below `n`, one per position, in position order |
| Ranking.RetailPrefixMembers | appraiser/anchor_layered.py:84 | a value is in the retail prefix exactly when one of the first `n` observations is retail at that cost |
| Ranking.RetailUnitsInOrder | appraiser/anchor_layered.py:84 | the retail list has one entry per retail observation, in their order, with duplicates kept |
| Ranking.AllUnits | appraiser/anchor_layered.py:85 | the unit costs of all observations, position by position |
| Ranking.PoolMember | appraiser/anchor_layered.py:84-85 | every pooled cost is some observation's cost, and a retail observation's when any retail one exists |
| Ranking.Pool | appraiser/anchor_layered.py:84-85 | the retail costs if there are any, otherwise all unit costs |
| Ranking.Clamp01 | appraiser/anchor_layered.py:89 | the clamped quantile lies in [0, 1] |
| Ranking.Aggregate | appraiser/anchor_layered.py:76-91 | no value exactly when there are no observations; otherwise an element of the pool, a retail cost whenever a retail observation exists, and always some observation's unit cost |
| Ranking.AggregateTwoPicksLower | appraiser/anchor_layered.py:88-91 | with the median and a pool of two, the lower of the two is picked |
| Ranking.AggregateIsPoolQuantile | appraiser/anchor_layered.py:88-91 | for any observations, the aggregate is the nearest-rank quantile of the non-empty pool at the clamped `agg_quantile` |
| Ranking.AggregateMonotone | appraiser/anchor_layered.py:89-91 | raising `agg_quantile` never lowers the aggregate |
| Ranking.RetailPreferenceExample | appraiser/anchor_layered.py:84-91 | with the defaults, costs 10 and 12 at count 2 and 1 at count 100 aggregate to 10 |
| Costing.Usable | appraiser/anchor_layered.py:68-72 | a pair is usable when its item is known, has a value, and that value is positive |
| Costing.WeightedSum | appraiser/anchor_layered.py:66-73 | the sum of multiplier times value over a bundle's pairs |
| Costing.CostFrom | appraiser/anchor_layered.py:66-74 | the remaining pairs have no cost exactly when one of them is unusable; otherwise the running sum plus their weighted sum |
| Costing.OfferCost | appraiser/anchor_layered.py:63-74 | a bundle has no cost exactly when some pair's item is unknown, missing or not positive; otherwise its cost is the sum of multiplier times value |
| Costing.PositiveBundleCost | appraiser/anchor_layered.py:66-74 | a non-empty bundle of usable items with positive multipliers has a positive cost |
| Costing.NegativeMultiplierAccepted | appraiser/anchor_layered.py:67-73 | a negative multiplier is costed, giving a negative cost |
| Costing.BestPrefix | appraiser/anchor_layered.py:114-121 | `best_for_trade` after the first `j` bundles: the least `cost / cntA` over the costable ones, none if none is costable |
| Costing.TradeUnit | appraiser/anchor_layered.py:111-123 | a trade's unit cost: none for a count not above 0, otherwise the best over all of its bundles |
| Costing.BestPrefixIsCheapest | appraiser/anchor_layered.py:114-121 | over the first `j` bundles, the best unit cost exists exactly when one bundle is costable, and is the least cost divided by `cntA` among them |
| Costing.TradeUnitIsCheapest | appraiser/anchor_layered.py:111-123 | a trade's unit cost exists exactly when one of its bundles is costable, and is the least `cost / cntA` over its bundles |
| Costing.ObservationsPrefix | appraiser/anchor_layered.py:110-123 | the `units`/`acc` list after the first `i` trades: one observation `(cntA, unit cost, index)` for each trade that has a unit cost, appended in trade order |
| Costing.Observations | appraiser/anchor_layered.py:110-123 | the list over all of an item's trades, which `TradeObservations` returns (the same list is `acc` at appraiser/anchor_layered.py:155-168) |
| Costing.ObservationsPrefixSound | appraiser/anchor_layered.py:111-123 | every observation from the first `i` trades records one of them: positive count, that count, its cheapest unit cost |
| Costing.ObservationsPrefixOrdered | appraiser/anchor_layered.py:111-123 | observations are listed in strictly increasing trade order |
| Costing.ObservationsPrefixComplete | appraiser/anchor_layered.py:111-123 | every costable trade among the first `i` has an observation |
| Costing.ObservationsSpec | appraiser/anchor_layered.py:110-123 | an item's observation list is sound, in trade order and complete |
| Costing.TradeObservations | appraiser/anchor_layered.py:110-123 | the loop builds exactly the observation list |
| Offers.Lookup | appraiser/anchor_layered.py:48 | `trades_by_item.get(anchor, [])`: the anchor's trades, or none |
| Seeding.SeedCandidate | appraiser/anchor_layered.py:49-57 | a bundle seeds `(name, cntA / m)` when the count is positive, the bundle has one pair, and `m` is positive |
| Seeding.Relax | appraiser/anchor_layered.py:58-60 | a candidate is written when its item has no value or the candidate is smaller |
| Seeding.SeedOffersPrefix | appraiser/anchor_layered.py:51-60 | the table after the first `j` bundles of one anchor trade, each relaxing it in turn |
| Seeding.SeedTradesPrefix | appraiser/anchor_layered.py:45-60 | the table after the first `i` anchor trades, starting from `{anchor: 1}` |
| Seeding.SeedValues | appraiser/anchor_layered.py:44-61 | the anchor at 1, relaxed by every bundle of every anchor trade, in order |
| Seeding.SeedFromAnchor | appraiser/anchor_layered.py:44-61 | the loop builds the seeded table, and the known set is its key set |
| Seeding.NonPositiveCountSeedsNothing | appraiser/anchor_layered.py:48-50 | an anchor trade with a count not above 0 seeds nothing |
| Seeding.RelaxStep | appraiser/anchor_layered.py:54-60 | keeping the smaller candidate preserves: every earlier candidate is matched or beaten, and every entry is the anchor's 1 or some earlier candidate |
| Seeding.SeedOffersPrefixSeeds | appraiser/anchor_layered.py:51-60 | the same invariant holds after the first `j` bundles of a trade |
| Seeding.SeedTradesPrefixSeeds | appraiser/anchor_layered.py:48-60 | the same invariant holds after the first `i` anchor trades |
| Seeding.SeedIsMinimum | appraiser/anchor_layered.py:44-61 | the anchor is seeded at most 1; each qualifying one-pair bundle seeds its item at no more than `cntA / m`; every seeded value is the anchor's 1 or one such candidate |
| Seeding.AnchorSeededAtOne | appraiser/anchor_layered.py:45-60 | without a bundle naming the anchor itself, the anchor is seeded at exactly 1 |
| Seeding.AnchorSelfOfferLowersAnchor | appraiser/anchor_layered.py:45-60 | an anchor bundle of two anchors for one lowers the anchor to 0.5 |
| Propagation.ItemStep | appraiser/anchor_layered.py:107-131 | a known item is skipped; otherwise its observations are aggregated, and the result is adopted when the item has no value or the result is lower by more than `1e-12` |
| Propagation.RoundPrefix | appraiser/anchor_layered.py:107-131 | the item steps over the first `i` items, each seeing the updates before it |
| Propagation.Round | appraiser/anchor_layered.py:104-131 | one round: `changed` cleared, then every item visited in input order |
| Propagation.Run | appraiser/anchor_layered.py:101-106 | rounds repeat while `changed` holds and rounds remain |
| Propagation.RoundCap | appraiser/anchor_layered.py:102-103 | the number of rounds `iters < max_iters` allows: `max_iters`, or 0 when it is negative |
| Propagation.RoundsRun | appraiser/anchor_layered.py:102-105 | how many rounds the loop performs before `changed` is clear or the cap is reached |
| Propagation.Start | appraiser/anchor_layered.py:99-101 | the loop's starting state: the seeded table, its key set as `known`, and `changed` set |
| Propagation.Propagated | appraiser/anchor_layered.py:99-131 | the state when the loop ends: `Run` from `Start` with the round cap; `Propagate` returns its table and known set |
| Propagation.ZeroFill | appraiser/anchor_layered.py:134-137 | every input key whose value is missing or not positive becomes 0; other entries are kept |
| Propagation.Display | appraiser/anchor_layered.py:138-140 | non-positive values show as 0, others by the display rule; the anchor shows as 1 |
| Propagation.AppraiseSpec | appraiser/anchor_layered.py:95-141 | the propagated table, zero-filled over the input keys, then displayed |
| Propagation.PropagationRound | appraiser/anchor_layered.py:104-131 | one pass over the items computes exactly `Round` of the state it starts from |
| Propagation.Propagate | appraiser/anchor_layered.py:99-131 | seeding and the round loop end in the propagated state |
| Propagation.Appraise | appraiser/anchor_layered.py:95-141 | the method returns the appraisal: propagated table, zero-filled, rounded, anchor 1 |
| Propagation.ZeroFillStep | appraiser/anchor_layered.py:134-137 | zero-filling one more key sets it to 0 when missing or not positive and changes nothing else |
| Propagation.ItemStepNeverIncreases | appraiser/anchor_layered.py:107-131 | an item step never raises a value, never forgets a known or valued item, and never clears `changed` |
| Propagation.ItemStepWritesOnce | appraiser/anchor_layered.py:108-130 | with known equal to the table's keys, an item step keeps that equality, keeps every existing value and adds at most its own item |
| Propagation.ItemStepKeepsOrChanges | appraiser/anchor_layered.py:125-131 | an item step leaves the state alone or raises `changed` |
| Propagation.RoundPrefixNeverIncreases | appraiser/anchor_layered.py:107-131 | over part of a round values never rise and the known set only grows |
| Propagation.RoundPrefixExtends | appraiser/anchor_layered.py:107-131 | over part of a round a consistent state stays consistent, keeps its values and gains only input items |
| Propagation.RunNeverIncreases | appraiser/anchor_layered.py:101-131 | across rounds values never rise and the known set only grows |
| Propagation.RunExtends | appraiser/anchor_layered.py:101-131 | across rounds a consistent state stays consistent, keeps its values and gains only input items |
| Propagation.QuietRoundPrefix | appraiser/anchor_layered.py:104-131 | a round that leaves `changed` clear leaves the state unchanged |
| Propagation.QuietRoundItem | appraiser/anchor_layered.py:104-131 | in such a round, every item step leaves the state unchanged |
| Propagation.RunStops | appraiser/anchor_layered.py:101-105 | at most `max_iters` rounds run; stopping before the cap means the last round changed nothing and one more would change nothing |
| Propagation.FixpointLeavesNothingPriceable | appraiser/anchor_layered.py:107-123 | at a fixed point, no unknown item has a single costable trade |
| Propagation.PropagationOutcome | appraiser/anchor_layered.py:99-131 | at most `max_iters` rounds; known equals the table's keys; seeded values survive unchanged; only input items are added; stopping early leaves no unknown item priceable |
| Propagation.AppraiseOutput | appraiser/anchor_layered.py:133-141 | the output keys are the input items and the seeded items; the anchor shows 1; every value is at least 0; every other item shows its rounded propagated value, or 0 when missing or not positive |
| Trimming.PositiveKeys | appraiser/anchor_layered.py:152 | the known set of the collection pass: the entries with a positive value |
| Trimming.EntryUnits | appraiser/anchor_layered.py:155-169 | one item's `acc`: its trades' observations against the table, with the positive entries as `known` |
| Trimming.CollectPrefix | appraiser/anchor_layered.py:153-169 | `per_item_units` after the first `i` items, each item mapped to its `acc` |
| Trimming.CollectUnits | appraiser/anchor_layered.py:153-170 | every item mapped to its trades' observations against the positive entries; a later entry with the same item overwrites an earlier one |
| Trimming.KeepSet | appraiser/anchor_layered.py:189 | the indices of observations whose cost lies between the bounds; none when a bound is missing (NaN) |
| Trimming.Band | appraiser/anchor_layered.py:186-189 | the keep set between the `alpha` and `1 - alpha` quantiles of the item's unit costs |
| Trimming.TrimActive | appraiser/anchor_layered.py:185 | trimming applies when the item has at least `trim_min_trades` observations and `0 < alpha < 0.5` |
| Trimming.GetUnits | appraiser/anchor_layered.py:183 | `units_per_item.get(item, [])`: the item's observations, or none |
| Trimming.KeptPrefix | appraiser/anchor_layered.py:190-192 | the trades among the first `n` whose position is in the keep set, in their original order |
| Trimming.TrimItem | appraiser/anchor_layered.py:185-195 | when trimming is active, the trades at band positions in order; otherwise all trades |
| Trimming.TrimPrefix | appraiser/anchor_layered.py:181-196 | `trimmed` after the first `i` items: each item with its trades trimmed, in input order |
| Trimming.Trimmed | appraiser/anchor_layered.py:181-196 | what `_trim_trades_by_units` returns, over all items; `TrimTrades` returns it |
| Trimming.CollectUnitCosts | appraiser/anchor_layered.py:145-170 | the loop builds exactly `CollectUnits` of its input and table |
| Trimming.CollectPrefixKeys | appraiser/anchor_layered.py:154-169 | the keys collected from the first `i` entries are their items |
| Trimming.CollectPrefixEntries | appraiser/anchor_layered.py:154-169 | with distinct items, each entry maps to its own observations |
| Trimming.CollectUnitsSpec | appraiser/anchor_layered.py:145-170 | the unit table has exactly the input's items; each item's observations record its own trades against the positive entries of the table, in trade order, one for every costable trade |
| Trimming.KeptPositions | appraiser/anchor_layered.py:189-192 | the kept positions are ascending, below `n`, in the keep set, and include every such position |
| Trimming.KeptPrefixIsSubsequence | appraiser/anchor_layered.py:190-192 | the kept trades are the trades at the kept positions, in order |
| Trimming.KeptPrefixShorter | appraiser/anchor_layered.py:190-192 | trimming never lengthens a trade list |
| Trimming.KeptPrefixAll | appraiser/anchor_layered.py:190-192 | keeping every position keeps the whole list |
| Trimming.KeptPrefixNone | appraiser/anchor_layered.py:190-192 | keeping no position keeps nothing |
| Trimming.KeptPrefixMember | appraiser/anchor_layered.py:190-192 | every kept trade sits at a kept position of the original list |
| Trimming.TrimPrefixEntries | appraiser/anchor_layered.py:181-196 | the first `i` trimmed entries keep their item names and hold their trimmed trades |
| Trimming.TrimTrades | appraiser/anchor_layered.py:172-196 | the loop builds exactly the trimmed input |
| Trimming.TrimmedKeys | appraiser/anchor_layered.py:181-196 | trimming keeps the number, order and names of items, and distinct names stay distinct |
| Trimming.TrimItemShrinks | appraiser/anchor_layered.py:185-195 | a trimmed list is no longer than the original and holds only original trades |
| Trimming.TrimmedKeepsOnlyOld | appraiser/anchor_layered.py:190-195 | every trade of a trimmed item was a trade of that item |
| Trimming.TrimInactiveKeepsAll | appraiser/anchor_layered.py:185-195 | with too few observations or `alpha` outside (0, 0.5), the trades are kept unchanged |
| Trimming.TrimActiveKeepsBand | appraiser/anchor_layered.py:185-192 | with trimming active, the kept trades are exactly those at band positions, in order |
| Trimming.TrimFullBandKeepsAll | appraiser/anchor_layered.py:189-192 | with trimming active but every position in the band, the trades are kept unchanged |
| Trimming.TrimDropsInfeasible | appraiser/anchor_layered.py:157-168 | with trimming active, a trade with no unit cost is outside the band and is dropped |
| Trimming.NoObservationsDropsAll | appraiser/anchor_layered.py:183-192 | with `trim_min_trades` at most 0, an item without observations has an empty band and loses every trade |
| Trimming.AscendingBandBounds | appraiser/anchor_layered.py:186-189 | on ascending unit costs, the band's bounds are the costs at the two nearest-rank positions |
| Trimming.AscendingKeepSet | appraiser/anchor_layered.py:189 | on strictly ascending, position-indexed observations, the keep set between positions `lo` and `hi` is exactly those positions |
| Trimming.AscendingBand | appraiser/anchor_layered.py:186-189 | on such observations, the band is exactly the positions between the two nearest-rank indices |
| Trimming.TrimExclusionExample | appraiser/anchor_layered.py:185-189 | twelve costs 1..10, 100, 1000 with the defaults keep positions 1 to 10: the costs 1 and 1000 are dropped |
| SolverSpec.TrimRoundCount | appraiser/anchor_layered.py:213 | at least one round, and `passes - 1` rounds from `passes = 2` on |
| SolverSpec.TrimRound | appraiser/anchor_layered.py:214-216 | one round: the trades re-costed against their own appraisal, then trimmed |
| SolverSpec.Iterate | appraiser/anchor_layered.py:213-216 | a round applied `n` times, one application per loop iteration |
| SolverSpec.TrimRounds | appraiser/anchor_layered.py:213-216 | the filtered trades after `n` collect-and-trim rounds |
| SolverSpec.Solve | appraiser/anchor_layered.py:198-218 | the appraisal of the trades after `max(1, passes - 1)` rounds |
| SolverSpec.TrimRoundKeepsItems | appraiser/anchor_layered.py:214-215 | a round keeps the number, order and names of items |
| SolverSpec.TrimRoundKeepsOnlyOld | appraiser/anchor_layered.py:214-215 | a round keeps only trades the item had |
| SolverSpec.IterateKeepsItems | appraiser/anchor_layered.py:213-216 | any number of such rounds keeps the item names in order |
| SolverSpec.IterateKeepsOnlyOld | appraiser/anchor_layered.py:213-216 | any number of such rounds keeps only original trades |
| SolverSpec.SolveOutput | appraiser/anchor_layered.py:198-218 | the final trades keep the input's items in order and only drop trades; every input item is in the result; the anchor is 1; every value is at least 0 |
| SolverSpec.OnePassStillTrims | appraiser/anchor_layered.py:213 | `passes = 1` gives the same result as `passes = 2`: the appraisal after one trim round |
| SolverSpec.TrimRoundFunction | appraiser/anchor_layered.py:214-216 | a function value that equals one trim round, and whose iterations equal the trim rounds |
| Solver.TrimPass | appraiser/anchor_layered.py:214-216 | one loop body re-costs, trims and re-appraises: the next trades are one round later and the table is their appraisal |
| Solver.TrimPasses | appraiser/anchor_layered.py:208-216 | the first appraisal followed by `n` passes gives the appraisal of the trades after `n` rounds |
| Solver.SolveWithTrimming | appraiser/anchor_layered.py:198-218 | the method returns the appraisal of the input after `max(1, passes - 1)` trim rounds |

## Left out

- Floating point: NaN, infinities and `math.isfinite` are not modelled. Values are exact reals, so a NaN quantile occurs only as the empty-list case.
- Rounding.RoundRule: `round(x, 1)` is modelled exactly on reals. It does not model how binary floating point represents tenths.
- Propagation.Appraise: the output is a map. The ordering of `items_sorted` by descending value is not modelled, because it does not affect the dictionary's contents.
- Python's `int` result for values from 10 up (and for the anchor's 1) is modelled as a whole `real`.
- The `__main__` block, which reads `sample_input.json` and prints the appraisal, is file I/O and is not modelled.
- appraiser/chat_gpt.py, db/dynamodb.py, db/firestore.py, main.py and the package `__init__` files are not part of this model. They fetch trade data, store results, or call a remote language model.
- Repeated item names: the input is a sequence of entries, which can name an item twice, but a Python dictionary cannot. The model does not exclude such inputs. On them `Offers.Lookup` takes the first entry and `Trimming.CollectUnits` keeps the last, and neither choice has a counterpart in the source.
- Malformed input shapes (a bundle pair that is not a two-element list, a non-numeric count) cannot occur in the typed model.
