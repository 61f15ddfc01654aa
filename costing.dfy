/**
 * Costing trades against a value table: the cost of one bundle
 * (`_offer_cost_if_known`), the cheapest unit cost of one trade, and the
 * list of unit-cost observations of an item's trades (the loop shared by
 * `appraise` and `_collect_unit_costs_per_item`).
 */
module Costing {
  import opened Offers

  /** A pair can be priced: its item is known and has a positive value. */
  predicate Usable(p: Pair, values: Table, known: set<string>) {
    p.name in known && p.name in values && values[p.name] > 0.0
  }

  /** The total price of a bundle, `sum(m * values[name])`, as a plain sum over its pairs. */
  function WeightedSum(offer: Bundle, values: Table): real {
    if offer == [] then 0.0
    else offer[0].mult * Get(values, offer[0].name) + WeightedSum(offer[1..], values)
  }

  /**
   * The loop of `_offer_cost_if_known` from pair `i` on, with `s` the sum
   * accumulated so far: it stops with `None` at the first pair that cannot
   * be priced.
   */
  function CostFrom(offer: Bundle, values: Table, known: set<string>, i: nat, s: real): (r: Option<real>)
    requires i <= |offer|
    ensures r.None? <==> exists k :: i <= k < |offer| && !Usable(offer[k], values, known)
    ensures r.Some? ==> r.value == s + WeightedSum(offer[i..], values)
    decreases |offer| - i
  {
    if i == |offer| then Some(s)
    else if !Usable(offer[i], values, known) then None
    else
      assert offer[i..][1..] == offer[i + 1..];
      CostFrom(offer, values, known, i + 1, s + offer[i].mult * values[offer[i].name])
  }

  /**
   * `_offer_cost_if_known`: `None` exactly when some pair's item is unknown,
   * missing from the table or not positive; otherwise the bundle's total price.
   * The sign of the multipliers is not checked.
   */
  function OfferCost(offer: Bundle, values: Table, known: set<string>): (r: Option<real>)
    ensures r.None? <==> exists k :: 0 <= k < |offer| && !Usable(offer[k], values, known)
    ensures r.Some? ==> r.value == WeightedSum(offer, values)
  {
    assert offer[0..] == offer;
    CostFrom(offer, values, known, 0, 0.0)
  }

  /** A non-empty bundle of positive multipliers of usable items has a positive price. */
  lemma {:induction false} PositiveBundleCost(offer: Bundle, values: Table, known: set<string>)
    requires offer != []
    requires forall k :: 0 <= k < |offer| ==> Usable(offer[k], values, known) && offer[k].mult > 0.0
    ensures OfferCost(offer, values, known).Some?
    ensures OfferCost(offer, values, known).value > 0.0
  {
    var head := offer[0].mult * values[offer[0].name];
    assert head > 0.0;
    if |offer| > 1 {
      PositiveBundleCost(offer[1..], values, known);
    }
  }

  /** The multiplier's sign is not checked: a negative multiplier yields a negative cost. */
  lemma NegativeMultiplierAccepted()
    ensures OfferCost([Pair(-1.0, "x")], map["x" := 2.0], {"x"}) == Some(-2.0)
  {
    assert WeightedSum([Pair(-1.0, "x")], map["x" := 2.0]) == -2.0;
  }

  /** The cheapest unit cost over the first `j` bundles of a trade (`best_for_trade`), `None` while none is costable. */
  function BestPrefix(t: Trade, values: Table, known: set<string>, j: nat): Option<real>
    requires 0 < t.count
    requires j <= |t.offers|
  {
    if j == 0 then None
    else
      var best := BestPrefix(t, values, known, j - 1);
      match OfferCost(t.offers[j - 1], values, known)
      case None => best
      case Some(c) =>
        var u := c / t.count as real;
        Some(if best.None? then u else Min(best.value, u))
  }

  /** The unit cost a trade contributes: `None` for a non-positive count or when no bundle is costable. */
  function TradeUnit(t: Trade, values: Table, known: set<string>): Option<real> {
    if t.count <= 0 then None else BestPrefix(t, values, known, |t.offers|)
  }

  /** The unit cost of bundle `j` of trade `t`, when it is costable. */
  predicate OffersUnit(t: Trade, values: Table, known: set<string>, j: int, u: real) {
    0 < t.count && 0 <= j < |t.offers| && OfferCost(t.offers[j], values, known).Some?
    && u == OfferCost(t.offers[j], values, known).value / t.count as real
  }

  lemma {:induction false} BestPrefixIsCheapest(t: Trade, values: Table, known: set<string>, j: nat)
    requires 0 < t.count
    requires j <= |t.offers|
    ensures BestPrefix(t, values, known, j).Some? <==>
              exists k :: 0 <= k < j && OfferCost(t.offers[k], values, known).Some?
    ensures BestPrefix(t, values, known, j).Some? ==>
              && (exists k :: 0 <= k < j && OffersUnit(t, values, known, k, BestPrefix(t, values, known, j).value))
              && forall k, u :: 0 <= k < j && OffersUnit(t, values, known, k, u) ==> BestPrefix(t, values, known, j).value <= u
  {
    if j > 0 {
      BestPrefixIsCheapest(t, values, known, j - 1);
      var best := BestPrefix(t, values, known, j - 1);
      var c := OfferCost(t.offers[j - 1], values, known);
      if c.Some? {
        var u := c.value / t.count as real;
        assert OffersUnit(t, values, known, j - 1, u);
        if best.Some? {
          var k :| 0 <= k < j - 1 && OffersUnit(t, values, known, k, best.value);
        }
      }
    }
  }

  /**
   * A trade contributes a unit cost exactly when its count is positive and
   * one of its bundles is costable; that unit cost is the cost of some
   * costable bundle divided by the count, and no costable bundle is cheaper.
   */
  lemma TradeUnitIsCheapest(t: Trade, values: Table, known: set<string>)
    ensures TradeUnit(t, values, known).Some? <==>
              0 < t.count && exists k :: 0 <= k < |t.offers| && OfferCost(t.offers[k], values, known).Some?
    ensures TradeUnit(t, values, known).Some? ==>
              && (exists k :: OffersUnit(t, values, known, k, TradeUnit(t, values, known).value))
              && forall k, u :: OffersUnit(t, values, known, k, u) ==> TradeUnit(t, values, known).value <= u
  {
    if 0 < t.count {
      BestPrefixIsCheapest(t, values, known, |t.offers|);
    }
  }

  /** The observations of the first `i` trades, in trade order (the accumulator of the trade loop). */
  function ObservationsPrefix(trades: seq<Trade>, values: Table, known: set<string>, i: nat): seq<Observation>
    requires i <= |trades|
  {
    if i == 0 then []
    else
      var prev := ObservationsPrefix(trades, values, known, i - 1);
      match TradeUnit(trades[i - 1], values, known)
      case None => prev
      case Some(u) => prev + [Observation(trades[i - 1].count, u, i - 1)]
  }

  /** Observation `o` records trade `o.index`: a positive count, that count, and the trade's unit cost. */
  predicate Records(trades: seq<Trade>, values: Table, known: set<string>, o: Observation) {
    o.index < |trades| && 0 < o.count == trades[o.index].count
    && TradeUnit(trades[o.index], values, known) == Some(o.unit)
  }

  /** The observations follow trade order, at most one per trade. */
  predicate InTradeOrder(obs: seq<Observation>) {
    forall k, l :: 0 <= k < l < |obs| ==> obs[k].index < obs[l].index
  }

  /** Every observation of the first `i` trades records one of them. */
  lemma {:induction false} ObservationsPrefixSound(trades: seq<Trade>, values: Table, known: set<string>, i: nat)
    requires i <= |trades|
    ensures forall o :: o in ObservationsPrefix(trades, values, known, i) ==> o.index < i && Records(trades, values, known, o)
  {
    if i > 0 {
      ObservationsPrefixSound(trades, values, known, i - 1);
    }
  }

  /** The observations of the first `i` trades are in trade order, at most one per trade. */
  lemma {:induction false} ObservationsPrefixOrdered(trades: seq<Trade>, values: Table, known: set<string>, i: nat)
    requires i <= |trades|
    ensures InTradeOrder(ObservationsPrefix(trades, values, known, i))
  {
    if i > 0 {
      ObservationsPrefixOrdered(trades, values, known, i - 1);
      ObservationsPrefixSound(trades, values, known, i - 1);
      var prev := ObservationsPrefix(trades, values, known, i - 1);
      var obs := ObservationsPrefix(trades, values, known, i);
      if TradeUnit(trades[i - 1], values, known).Some? {
        assert obs[|prev|].index == i - 1;
        assert forall k :: 0 <= k < |prev| ==> obs[k] == prev[k] && prev[k] in prev;
      }
    }
  }

  /** Each of the first `i` trades that has a unit cost has an observation. */
  lemma {:induction false} ObservationsPrefixComplete(trades: seq<Trade>, values: Table, known: set<string>, i: nat)
    requires i <= |trades|
    ensures forall j :: 0 <= j < i && TradeUnit(trades[j], values, known).Some? ==>
              exists o :: o in ObservationsPrefix(trades, values, known, i) && o.index == j
  {
    if i > 0 {
      ObservationsPrefixComplete(trades, values, known, i - 1);
      var prev := ObservationsPrefix(trades, values, known, i - 1);
      var obs := ObservationsPrefix(trades, values, known, i);
      if TradeUnit(trades[i - 1], values, known).Some? {
        assert obs[|prev|] in obs && obs[|prev|].index == i - 1;
      }
    }
  }

  /** The observations of all of an item's trades: one per trade that has a unit cost, in trade order. */
  function Observations(trades: seq<Trade>, values: Table, known: set<string>): seq<Observation> {
    ObservationsPrefix(trades, values, known, |trades|)
  }

  /**
   * The observations of an item's trades: each records one of its trades,
   * they follow trade order, and every trade with a unit cost has one.
   */
  lemma ObservationsSpec(trades: seq<Trade>, values: Table, known: set<string>)
    ensures forall o :: o in Observations(trades, values, known) ==> Records(trades, values, known, o)
    ensures InTradeOrder(Observations(trades, values, known))
    ensures forall j :: 0 <= j < |trades| && TradeUnit(trades[j], values, known).Some? ==>
              exists o :: o in Observations(trades, values, known) && o.index == j
  {
    ObservationsPrefixSound(trades, values, known, |trades|);
    ObservationsPrefixOrdered(trades, values, known, |trades|);
    ObservationsPrefixComplete(trades, values, known, |trades|);
  }

  /**
   * The trade loop of `appraise` and `_collect_unit_costs_per_item`: for each
   * trade with a positive count, the cheapest unit cost over its costable
   * bundles, tagged with the count and the trade's index.
   */
  method TradeObservations(trades: seq<Trade>, values: Table, known: set<string>) returns (acc: seq<Observation>)
    ensures acc == Observations(trades, values, known)
  {
    acc := [];
    for idx := 0 to |trades|
      invariant acc == ObservationsPrefix(trades, values, known, idx)
    {
      var t := trades[idx];
      if t.count <= 0 {
        continue;
      }
      // `best` stands for math.inf while `feasible` is false.
      var best := 0.0;
      var feasible := false;
      for j := 0 to |t.offers|
        invariant (if feasible then Some(best) else None) == BestPrefix(t, values, known, j)
      {
        var cost := OfferCost(t.offers[j], values, known);
        if cost.None? {
          continue;
        }
        var unit := cost.value / t.count as real;
        best := if feasible then Min(best, unit) else unit;
        feasible := true;
      }
      if feasible {
        acc := acc + [Observation(t.count, best, idx)];
      }
    }
  }
}
