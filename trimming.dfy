/**
 * The trimming pass: every trade is re-costed against a frozen value table
 * (`_collect_unit_costs_per_item`), and the trades whose unit cost lies
 * outside the nearest-rank `[alpha, 1 - alpha]` band of their item are
 * dropped (`_trim_trades_by_units`).
 */
module Trimming {
  import opened Offers
  import opened Rounding
  import opened Ranking
  import opened Costing

  /** Item -> its unit-cost observations, each tagged with its trade's index. */
  type UnitTable = map<string, seq<Observation>>

  /** The fixed known set of the collection pass: the table entries with a positive value. */
  function PositiveKeys(values: Table): set<string> {
    set k | k in values && values[k] > 0.0
  }

  /** The observations collected for one entry: its trades costed against `values`, every positive entry counting as known. */
  function EntryUnits(e: Entry, values: Table): seq<Observation> {
    Observations(e.trades, values, PositiveKeys(values))
  }

  /** The unit table after the first `i` entries of the input; a later entry overwrites an earlier one with the same key. */
  function CollectPrefix(input: Input, values: Table, i: nat): UnitTable
    requires i <= |input|
  {
    if i == 0 then map[]
    else
      var e := input[i - 1];
      CollectPrefix(input, values, i - 1)[e.item := EntryUnits(e, values)]
  }

  /** What `_collect_unit_costs_per_item` returns. */
  function CollectUnits(input: Input, values: Table): UnitTable {
    CollectPrefix(input, values, |input|)
  }

  /**
   * `_collect_unit_costs_per_item`: for every item, the observations of its
   * trades costed against `values`, with every positive entry counting as known.
   */
  method CollectUnitCosts(input: Input, values: Table) returns (units: UnitTable)
    ensures units == CollectUnits(input, values)
  {
    var known := set k | k in values && values[k] > 0.0;
    units := map[];
    for i := 0 to |input|
      invariant units == CollectPrefix(input, values, i)
    {
      var acc := TradeObservations(input[i].trades, values, known);
      units := units[input[i].item := acc];
    }
  }

  /** The keys collected from the first `i` entries are their items. */
  lemma {:induction false} CollectPrefixKeys(input: Input, values: Table, i: nat)
    requires i <= |input|
    ensures forall k :: k in CollectPrefix(input, values, i) <==> exists j :: 0 <= j < i && input[j].item == k
  {
    if i > 0 {
      CollectPrefixKeys(input, values, i - 1);
    }
  }

  /** With distinct keys, each of the first `i` entries maps to its own observations. */
  lemma {:induction false} CollectPrefixEntries(input: Input, values: Table, i: nat)
    requires i <= |input|
    requires DistinctKeys(input)
    ensures forall j :: 0 <= j < i ==>
              input[j].item in CollectPrefix(input, values, i)
              && CollectPrefix(input, values, i)[input[j].item] == EntryUnits(input[j], values)
  {
    if i > 0 {
      CollectPrefixEntries(input, values, i - 1);
      forall j | 0 <= j < i - 1
        ensures input[j].item != input[i - 1].item
      {
      }
    }
  }

  /**
   * The unit table has exactly the input's keys, and maps each item to its
   * own observations: each records one of the item's trades (positive count,
   * that count, its cheapest unit cost), they follow trade order, and every
   * trade with a unit cost has one.
   */
  lemma CollectUnitsSpec(input: Input, values: Table)
    requires DistinctKeys(input)
    ensures CollectUnits(input, values).Keys == Keys(input)
    ensures forall i :: 0 <= i < |input| ==> CollectUnits(input, values)[input[i].item] == EntryUnits(input[i], values)
    ensures forall i, o :: 0 <= i < |input| && o in EntryUnits(input[i], values) ==>
              Records(input[i].trades, values, PositiveKeys(values), o)
    ensures forall i :: 0 <= i < |input| ==> InTradeOrder(EntryUnits(input[i], values))
    ensures forall i, j :: 0 <= i < |input| && 0 <= j < |input[i].trades| && TradeUnit(input[i].trades[j], values, PositiveKeys(values)).Some? ==>
              exists o :: o in EntryUnits(input[i], values) && o.index == j
  {
    CollectPrefixKeys(input, values, |input|);
    CollectPrefixEntries(input, values, |input|);
    forall i | 0 <= i < |input|
      ensures var e := input[i];
              && (forall o :: o in EntryUnits(e, values) ==> Records(e.trades, values, PositiveKeys(values), o))
              && InTradeOrder(EntryUnits(e, values))
              && (forall j :: 0 <= j < |e.trades| && TradeUnit(e.trades[j], values, PositiveKeys(values)).Some? ==>
                    exists o :: o in EntryUnits(e, values) && o.index == j)
    {
      ObservationsSpec(input[i].trades, values, PositiveKeys(values));
    }
  }

  /** The indices of a trimmed item's trades that survive: those of observations inside `[lo, hi]`, none when a bound is missing (NaN). */
  function KeepSet(units: seq<Observation>, lo: Option<real>, hi: Option<real>): set<nat> {
    if lo.None? || hi.None? then {}
    else set u | u in units && lo.value <= u.unit <= hi.value :: u.index
  }

  /** The trades among the first `n` whose index is in `keep`, in their original order. */
  function KeptPrefix(trades: seq<Trade>, keep: set<nat>, n: nat): seq<Trade>
    requires n <= |trades|
  {
    if n == 0 then []
    else KeptPrefix(trades, keep, n - 1) + (if n - 1 in keep then [trades[n - 1]] else [])
  }

  /** The positions below `n` that are in `keep`, ascending. */
  function KeptPositions(keep: set<nat>, n: nat): (pos: seq<nat>)
    ensures forall k :: 0 <= k < |pos| ==> pos[k] < n && pos[k] in keep
    ensures forall k, l :: 0 <= k < l < |pos| ==> pos[k] < pos[l]
    ensures forall j: nat :: j < n && j in keep ==> j in pos
  {
    if n == 0 then []
    else KeptPositions(keep, n - 1) + (if n - 1 in keep then [n - 1] else [])
  }

  /**
   * The list comprehension over `enumerate(trade_list)`: the result is the
   * order-preserving subsequence of the trades at the kept positions.
   */
  lemma {:induction false} KeptPrefixIsSubsequence(trades: seq<Trade>, keep: set<nat>, n: nat)
    requires n <= |trades|
    ensures |KeptPrefix(trades, keep, n)| == |KeptPositions(keep, n)|
    ensures forall k :: 0 <= k < |KeptPositions(keep, n)| ==>
              KeptPrefix(trades, keep, n)[k] == trades[KeptPositions(keep, n)[k]]
  {
    if n > 0 {
      KeptPrefixIsSubsequence(trades, keep, n - 1);
    }
  }

  /** The kept trades are never more than the trades. */
  lemma {:induction false} KeptPrefixShorter(trades: seq<Trade>, keep: set<nat>, n: nat)
    requires n <= |trades|
    ensures |KeptPrefix(trades, keep, n)| <= n
  {
    if n > 0 {
      KeptPrefixShorter(trades, keep, n - 1);
    }
  }

  /** Keeping every position keeps the whole list. */
  lemma {:induction false} KeptPrefixAll(trades: seq<Trade>, keep: set<nat>, n: nat)
    requires n <= |trades|
    requires forall j: nat :: j < n ==> j in keep
    ensures KeptPrefix(trades, keep, n) == trades[..n]
  {
    if n > 0 {
      KeptPrefixAll(trades, keep, n - 1);
      assert trades[..n] == trades[..n - 1] + [trades[n - 1]];
    }
  }

  /** Keeping no position keeps nothing. */
  lemma {:induction false} KeptPrefixNone(trades: seq<Trade>, n: nat)
    requires n <= |trades|
    ensures KeptPrefix(trades, {}, n) == []
  {
    if n > 0 {
      KeptPrefixNone(trades, n - 1);
    }
  }

  /** Whether trimming applies to an item with `count` observations. */
  predicate TrimActive(cfg: Config, count: nat) {
    count >= cfg.trimMinTrades && 0.0 < cfg.trimAlpha < 0.5
  }

  /** The kept indices of an item: those of its observations inside `[quantile(alpha), quantile(1 - alpha)]`. */
  function Band(cfg: Config, units: seq<Observation>): set<nat>
    requires 0.0 <= cfg.trimAlpha <= 1.0
  {
    var vals := AllUnits(units);
    KeepSet(units, Quantile(vals, cfg.trimAlpha), Quantile(vals, Complement(cfg.trimAlpha)))
  }

  /** The trades of one item after trimming against its observations. */
  function TrimItem(cfg: Config, trades: seq<Trade>, units: seq<Observation>): seq<Trade> {
    if TrimActive(cfg, |units|) then KeptPrefix(trades, Band(cfg, units), |trades|) else trades
  }

  /** `units_per_item.get(item, [])`. */
  function GetUnits(units: UnitTable, item: string): seq<Observation> {
    if item in units then units[item] else []
  }

  /** The trimmed dictionary after the first `i` entries: same keys in the same order, each item's trades trimmed. */
  function TrimPrefix(cfg: Config, input: Input, units: UnitTable, i: nat): Input
    requires i <= |input|
  {
    if i == 0 then []
    else
      var e := input[i - 1];
      TrimPrefix(cfg, input, units, i - 1) + [Entry(e.item, TrimItem(cfg, e.trades, GetUnits(units, e.item)))]
  }

  /** Entry `k` of the trimmed dictionary is entry `k` of the input with its trades trimmed. */
  lemma {:induction false} TrimPrefixEntries(cfg: Config, input: Input, units: UnitTable, i: nat)
    requires i <= |input|
    ensures |TrimPrefix(cfg, input, units, i)| == i
    ensures forall k :: 0 <= k < i ==>
              && TrimPrefix(cfg, input, units, i)[k].item == input[k].item
              && TrimPrefix(cfg, input, units, i)[k].trades == TrimItem(cfg, input[k].trades, GetUnits(units, input[k].item))
  {
    if i > 0 {
      TrimPrefixEntries(cfg, input, units, i - 1);
    }
  }

  /** What `_trim_trades_by_units` returns. */
  function Trimmed(cfg: Config, input: Input, units: UnitTable): Input {
    TrimPrefix(cfg, input, units, |input|)
  }

  /** `_trim_trades_by_units`: a new dictionary with the same keys, in order, and every item's trades trimmed. */
  method TrimTrades(cfg: Config, input: Input, units: UnitTable) returns (trimmed: Input)
    ensures trimmed == Trimmed(cfg, input, units)
  {
    trimmed := [];
    for i := 0 to |input|
      invariant trimmed == TrimPrefix(cfg, input, units, i)
    {
      var item, tradeList := input[i].item, input[i].trades;
      var obs := if item in units then units[item] else [];
      var kept: seq<Trade>;
      if |obs| >= cfg.trimMinTrades && 0.0 < cfg.trimAlpha < 0.5 {
        var unitVals := AllUnits(obs);
        var lo := Quantile(unitVals, cfg.trimAlpha);
        var hi := Quantile(unitVals, Complement(cfg.trimAlpha));
        var keep := KeepSet(obs, lo, hi);
        kept := [];
        for j := 0 to |tradeList|
          invariant kept == KeptPrefix(tradeList, keep, j)
        {
          if j in keep {
            kept := kept + [tradeList[j]];
          }
        }
      } else {
        kept := tradeList;
      }
      trimmed := trimmed + [Entry(item, kept)];
    }
  }

  /** Trimming keeps the dictionary's keys, in order, and so its key set. */
  lemma TrimmedKeys(cfg: Config, input: Input, units: UnitTable)
    ensures |Trimmed(cfg, input, units)| == |input|
    ensures forall i :: 0 <= i < |input| ==> Trimmed(cfg, input, units)[i].item == input[i].item
    ensures Keys(Trimmed(cfg, input, units)) == Keys(input)
    ensures DistinctKeys(input) ==> DistinctKeys(Trimmed(cfg, input, units))
  {
    var t := Trimmed(cfg, input, units);
    TrimPrefixEntries(cfg, input, units, |input|);
    forall k | k in Keys(input)
      ensures k in Keys(t)
    {
      var i :| 0 <= i < |input| && input[i].item == k;
      assert t[i].item == k;
    }
  }

  /** Trimming one item only removes trades: every kept trade is one of the item's trades, and none is added. */
  lemma TrimItemShrinks(cfg: Config, trades: seq<Trade>, units: seq<Observation>)
    ensures |TrimItem(cfg, trades, units)| <= |trades|
    ensures forall t :: t in TrimItem(cfg, trades, units) ==> t in trades
  {
    if TrimActive(cfg, |units|) {
      var keep := Band(cfg, units);
      KeptPrefixShorter(trades, keep, |trades|);
      forall t | t in TrimItem(cfg, trades, units)
        ensures t in trades
      {
        KeptPrefixMember(trades, keep, t);
      }
    }
  }

  /** Trimming the whole dictionary keeps, for each item, only trades it had before. */
  lemma TrimmedKeepsOnlyOld(cfg: Config, input: Input, units: UnitTable, i: nat, t: Trade)
    requires i < |input|
    requires i < |Trimmed(cfg, input, units)| && t in Trimmed(cfg, input, units)[i].trades
    ensures t in input[i].trades
  {
    TrimPrefixEntries(cfg, input, units, |input|);
    TrimItemShrinks(cfg, input[i].trades, GetUnits(units, input[i].item));
  }

  /** With too few observations or `alpha` outside `(0, 0.5)`, an item's trades are kept unchanged. */
  lemma TrimInactiveKeepsAll(cfg: Config, trades: seq<Trade>, units: seq<Observation>)
    requires !(|units| >= cfg.trimMinTrades && 0.0 < cfg.trimAlpha < 0.5)
    ensures TrimItem(cfg, trades, units) == trades
  {
  }

  /**
   * With trimming active, the kept trades are, in their original order,
   * exactly the trades at the band's indices.
   */
  lemma TrimActiveKeepsBand(cfg: Config, trades: seq<Trade>, units: seq<Observation>)
    requires TrimActive(cfg, |units|)
    ensures var pos := KeptPositions(Band(cfg, units), |trades|);
            && |TrimItem(cfg, trades, units)| == |pos|
            && forall k :: 0 <= k < |pos| ==> TrimItem(cfg, trades, units)[k] == trades[pos[k]]
  {
    KeptPrefixIsSubsequence(trades, Band(cfg, units), |trades|);
  }

  /** With trimming active but every trade's position in the band, nothing is dropped. */
  lemma TrimFullBandKeepsAll(cfg: Config, trades: seq<Trade>, units: seq<Observation>)
    requires TrimActive(cfg, |units|)
    requires forall j: nat :: j < |trades| ==> j in Band(cfg, units)
    ensures TrimItem(cfg, trades, units) == trades
  {
    KeptPrefixAll(trades, Band(cfg, units), |trades|);
    assert trades[..|trades|] == trades;
  }

  /**
   * When an item's observations are those of its own trades, trimming keeps
   * only costable trades: a trade with a non-positive count or no costable
   * bundle has no observation and is dropped.
   */
  lemma TrimDropsInfeasible(cfg: Config, trades: seq<Trade>, values: Table, j: nat)
    requires j < |trades|
    requires TradeUnit(trades[j], values, PositiveKeys(values)).None?
    requires TrimActive(cfg, |Observations(trades, values, PositiveKeys(values))|)
    ensures j !in Band(cfg, Observations(trades, values, PositiveKeys(values)))
  {
    ObservationsSpec(trades, values, PositiveKeys(values));
  }

  /**
   * With `trim_min_trades` at most 0, trimming applies even to an item with
   * no observation, and then its band is empty: every trade of it is dropped.
   */
  lemma NoObservationsDropsAll(cfg: Config, trades: seq<Trade>)
    requires TrimActive(cfg, 0)
    ensures Band(cfg, []) == {}
    ensures TrimItem(cfg, trades, []) == []
  {
    KeptPrefixNone(trades, |trades|);
  }

  /** On ascending unit costs, the band's bounds are the costs at the two nearest-rank positions. */
  lemma AscendingBandBounds(cfg: Config, units: seq<Observation>)
    requires 0.0 < cfg.trimAlpha < 0.5
    requires units != []
    requires SortedAsc(AllUnits(units))
    ensures Band(cfg, units) == KeepSet(units, Some(units[NearestRank(cfg.trimAlpha, |units|)].unit),
                                         Some(units[NearestRank(Complement(cfg.trimAlpha), |units|)].unit))
  {
    QuantileOfSorted(AllUnits(units), cfg.trimAlpha);
    QuantileOfSorted(AllUnits(units), Complement(cfg.trimAlpha));
  }

  /** Observations that are strictly ascending in unit cost and carry their own position as index. */
  predicate AscendingByPosition(units: seq<Observation>) {
    && (forall k :: 0 <= k < |units| ==> units[k].index == k)
    && (forall k, l :: 0 <= k < l < |units| ==> units[k].unit < units[l].unit)
  }

  /** On such observations, the keep set between the costs at positions `lo` and `hi` is the positions from `lo` to `hi`. */
  lemma AscendingKeepSet(units: seq<Observation>, lo: nat, hi: nat, j: nat)
    requires AscendingByPosition(units)
    requires lo <= hi < |units|
    ensures j in KeepSet(units, Some(units[lo].unit), Some(units[hi].unit)) <==> lo <= j <= hi
  {
    if lo <= j <= hi {
      if lo < j {
        assert units[lo].unit < units[j].unit;
      }
      if j < hi {
        assert units[j].unit < units[hi].unit;
      }
      assert units[j] in units;
    }
    if j in KeepSet(units, Some(units[lo].unit), Some(units[hi].unit)) {
      var u :| u in units && units[lo].unit <= u.unit <= units[hi].unit && u.index == j;
      var k :| 0 <= k < |units| && units[k] == u;
      assert k == j;
    }
  }

  /**
   * When the observations are strictly ascending in unit cost and each
   * carries its own position as index, the band is exactly the positions
   * between the two nearest-rank indices.
   */
  lemma AscendingBand(cfg: Config, units: seq<Observation>)
    requires 0.0 < cfg.trimAlpha < 0.5
    requires units != []
    requires AscendingByPosition(units)
    ensures forall j: nat :: j in Band(cfg, units) <==>
              NearestRank(cfg.trimAlpha, |units|) <= j <= NearestRank(Complement(cfg.trimAlpha), |units|)
  {
    var lo := NearestRank(cfg.trimAlpha, |units|);
    var hi := NearestRank(Complement(cfg.trimAlpha), |units|);
    AscendingBandBounds(cfg, units);
    NearestRankMonotone(cfg.trimAlpha, Complement(cfg.trimAlpha), |units|);
    forall j: nat
      ensures j in Band(cfg, units) <==> lo <= j <= hi
    {
      AscendingKeepSet(units, lo, hi, j);
    }
  }

  /**
   * Twelve single-unit observations with unit costs 1 to 10, 100 and 1000
   * and the default `alpha = 0.1`: the bounds sit at nearest-rank indices
   * `round(1.1) = 1` and `round(9.9) = 10`, that is at 2 and 100, so the
   * cheapest trade and the 1000 outlier are dropped while 100 is kept.
   */
  lemma TrimExclusionExample(units: seq<Observation>)
    requires |units| == 12
    requires forall k :: 0 <= k < 12 ==> units[k].count == 1 && units[k].index == k
    requires forall k :: 0 <= k < 10 ==> units[k].unit == (k + 1) as real
    requires units[10].unit == 100.0 && units[11].unit == 1000.0
    ensures TrimActive(DEFAULT_CONFIG, |units|)
    ensures forall j: nat :: j in Band(DEFAULT_CONFIG, units) <==> 1 <= j <= 10
  {
    RoundHalfEvenUnique(0.1 * 11.0, 1);
    RoundHalfEvenUnique(Complement(0.1) * 11.0, 10);
    assert AscendingByPosition(units);
    AscendingBand(DEFAULT_CONFIG, units);
  }

  /** Every trade in the kept list sits at a kept position of the original list. */
  lemma KeptPrefixMember(trades: seq<Trade>, keep: set<nat>, t: Trade)
    requires t in KeptPrefix(trades, keep, |trades|)
    ensures exists j :: 0 <= j < |trades| && j in keep && trades[j] == t
  {
    KeptPrefixIsSubsequence(trades, keep, |trades|);
    var pos := KeptPositions(keep, |trades|);
    var k :| 0 <= k < |KeptPrefix(trades, keep, |trades|)| && KeptPrefix(trades, keep, |trades|)[k] == t;
    assert trades[pos[k]] == t;
  }
}
