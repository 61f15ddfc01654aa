/**
 * Sorting and nearest-rank selection: the solver's `_quantile` and its
 * retail-preferring aggregation `_aggregate_units`.
 */
module Ranking {
  import opened Offers
  import opened Rounding

  predicate SortedAsc(s: seq<real>) {
    forall i, j :: 0 <= i < j < |s| ==> s[i] <= s[j]
  }

  /** Inserts `x` into a sorted sequence. */
  function Insert(x: real, s: seq<real>): (r: seq<real>)
    requires SortedAsc(s)
    ensures SortedAsc(r)
    ensures multiset(r) == multiset(s) + multiset{x}
    ensures |r| == |s| + 1
    ensures r[0] == x || (s != [] && r[0] == s[0])
  {
    if s == [] || x <= s[0] then [x] + s
    else
      var rest := Insert(x, s[1..]);
      assert s == [s[0]] + s[1..];
      [s[0]] + rest
  }

  /** Python's `sorted` on a list of numbers: ascending and a permutation of the input. */
  function Sort(s: seq<real>): (r: seq<real>)
    ensures SortedAsc(r)
    ensures multiset(r) == multiset(s)
    ensures |r| == |s|
  {
    if s == [] then []
    else
      assert s == [s[0]] + s[1..];
      var r := Insert(s[0], Sort(s[1..]));
      assert |r| == |multiset(r)| == |s|;
      r
  }

  /** Sorting a list that is already ascending returns it unchanged. */
  lemma {:induction false} SortOfSorted(s: seq<real>)
    requires SortedAsc(s)
    ensures Sort(s) == s
  {
    if s != [] {
      SortOfSorted(s[1..]);
      assert s == [s[0]] + s[1..];
    }
  }

  /** `int(round(q * (n - 1)))`, the nearest-rank index; it is always a valid index. */
  function NearestRank(q: real, n: nat): (idx: nat)
    requires 0.0 <= q <= 1.0
    requires 0 < n
    ensures idx < n
  {
    var y := q * (n - 1) as real;
    assert 0.0 <= y <= (n - 1) as real by {
      assert q * (n - 1) as real <= 1.0 * (n - 1) as real;
    }
    var r := RoundHalfEven(y);
    assert r as real <= (n - 1) as real + 0.5;
    r
  }

  /** A larger quantile never selects a smaller rank. */
  lemma NearestRankMonotone(q1: real, q2: real, n: nat)
    requires 0.0 <= q1 <= q2 <= 1.0
    requires 0 < n
    ensures NearestRank(q1, n) <= NearestRank(q2, n)
  {
    assert q1 * (n - 1) as real <= q2 * (n - 1) as real;
    RoundHalfEvenMonotone(q1 * (n - 1) as real, q2 * (n - 1) as real);
  }

  /** `_quantile`: the element at the nearest-rank index of the sorted list; `None` (Python's NaN) for an empty list. */
  function Quantile(arr: seq<real>, q: real): (r: Option<real>)
    requires 0.0 <= q <= 1.0
    ensures r.None? <==> arr == []
    ensures r.Some? ==> r.value in multiset(arr)
  {
    if arr == [] then None
    else
      var s := Sort(arr);
      assert s[NearestRank(q, |arr|)] in multiset(s);
      Some(s[NearestRank(q, |arr|)])
  }

  /** On an ascending list, the quantile is the element at the nearest-rank index itself. */
  lemma QuantileOfSorted(arr: seq<real>, q: real)
    requires 0.0 <= q <= 1.0
    requires arr != [] && SortedAsc(arr)
    ensures Quantile(arr, q) == Some(arr[NearestRank(q, |arr|)])
  {
    SortOfSorted(arr);
  }

  /** The first and last elements of the sorted list are the minimum and the maximum. */
  lemma SortExtremes(arr: seq<real>)
    requires arr != []
    ensures forall x :: x in arr ==> Sort(arr)[0] <= x <= Sort(arr)[|arr| - 1]
  {
    var s := Sort(arr);
    forall x | x in arr
      ensures s[0] <= x <= s[|s| - 1]
    {
      assert x in multiset(s);
      var k :| 0 <= k < |s| && s[k] == x;
    }
  }

  /** The quantile lies between the minimum and the maximum of the list. */
  lemma QuantileBetweenExtremes(arr: seq<real>, q: real)
    requires 0.0 <= q <= 1.0
    requires arr != []
    ensures forall x :: x in arr ==> Quantile(arr, 0.0).value <= x <= Quantile(arr, 1.0).value
    ensures Quantile(arr, 0.0).value <= Quantile(arr, q).value <= Quantile(arr, 1.0).value
  {
    SortExtremes(arr);
    assert NearestRank(0.0, |arr|) == 0;
    assert NearestRank(1.0, |arr|) == |arr| - 1;
    QuantileMonotone(arr, 0.0, q);
    QuantileMonotone(arr, q, 1.0);
  }

  /** A larger quantile never yields a smaller value. */
  lemma QuantileMonotone(arr: seq<real>, q1: real, q2: real)
    requires 0.0 <= q1 <= q2 <= 1.0
    requires arr != []
    ensures Quantile(arr, q1).value <= Quantile(arr, q2).value
  {
    var s := Sort(arr);
    var i1, i2 := NearestRank(q1, |arr|), NearestRank(q2, |arr|);
    NearestRankMonotone(q1, q2, |arr|);
    assert s[i1] <= s[i2];
  }

  /** The upper quantile level `1.0 - alpha` of a trimming band. */
  function Complement(alpha: real): real {
    1.0 - alpha
  }

  /** With `0 < alpha < 0.5` the trimming band `[quantile(alpha), quantile(1 - alpha)]` is never empty. */
  lemma TrimBandOrdered(arr: seq<real>, alpha: real)
    requires 0.0 < alpha < 0.5
    requires arr != []
    ensures Quantile(arr, alpha).value <= Quantile(arr, Complement(alpha)).value
  {
    QuantileMonotone(arr, alpha, Complement(alpha));
  }

  /** The positions below `n` of the observations whose count is at most `cap` (the retail ones), ascending. */
  function RetailPositions(units: seq<Observation>, cap: int, n: nat): (pos: seq<nat>)
    requires n <= |units|
    ensures forall k :: 0 <= k < |pos| ==> pos[k] < n && units[pos[k]].count <= cap
    ensures forall k, l :: 0 <= k < l < |pos| ==> pos[k] < pos[l]
    ensures forall j :: 0 <= j < n && units[j].count <= cap ==> j in pos
  {
    if n == 0 then []
    else RetailPositions(units, cap, n - 1) + (if units[n - 1].count <= cap then [n - 1] else [])
  }

  /** The retail unit costs among the first `n` observations, in order. */
  function RetailPrefix(units: seq<Observation>, cap: int, n: nat): seq<real>
    requires n <= |units|
  {
    if n == 0 then []
    else RetailPrefix(units, cap, n - 1) + (if units[n - 1].count <= cap then [units[n - 1].unit] else [])
  }

  /** The first `n` retail costs are those at the retail positions below `n`, one each, in order. */
  lemma {:induction false} RetailPrefixInOrder(units: seq<Observation>, cap: int, n: nat)
    requires n <= |units|
    ensures |RetailPrefix(units, cap, n)| == |RetailPositions(units, cap, n)|
    ensures forall k :: 0 <= k < |RetailPrefix(units, cap, n)| ==>
              RetailPrefix(units, cap, n)[k] == units[RetailPositions(units, cap, n)[k]].unit
  {
    if n > 0 {
      RetailPrefixInOrder(units, cap, n - 1);
    }
  }

  /** A value is among the first `n` retail costs exactly when one of the first `n` observations is retail at that cost. */
  lemma {:induction false} RetailPrefixMembers(units: seq<Observation>, cap: int, n: nat)
    requires n <= |units|
    ensures forall x :: x in RetailPrefix(units, cap, n) <==>
              exists j :: 0 <= j < n && units[j].count <= cap && units[j].unit == x
  {
    if n > 0 {
      RetailPrefixMembers(units, cap, n - 1);
    }
  }

  /**
   * `[u for c, u in units if c <= cap]`: the unit costs of the retail
   * observations, one for each of them (duplicates kept), in their order.
   */
  function RetailUnits(units: seq<Observation>, cap: int): (r: seq<real>)
    ensures forall x :: x in r <==> exists u :: u in units && u.count <= cap && u.unit == x
    ensures r == [] ==> forall u :: u in units ==> cap < u.count
  {
    RetailPrefixMembers(units, cap, |units|);
    assert forall j :: 0 <= j < |units| && units[j].count <= cap ==> units[j].unit in RetailPrefix(units, cap, |units|);
    RetailPrefix(units, cap, |units|)
  }

  /**
   * The retail list in full: one entry per retail observation, in the
   * observations' order, duplicates kept; so the median sees every retail trade.
   */
  lemma RetailUnitsInOrder(units: seq<Observation>, cap: int)
    ensures |RetailUnits(units, cap)| == |RetailPositions(units, cap, |units|)|
    ensures forall k :: 0 <= k < |RetailUnits(units, cap)| ==>
              RetailUnits(units, cap)[k] == units[RetailPositions(units, cap, |units|)[k]].unit
  {
    RetailPrefixInOrder(units, cap, |units|);
  }

  /** The unit costs of all observations, in order. */
  function AllUnits(units: seq<Observation>): (r: seq<real>)
    ensures |r| == |units|
    ensures forall k :: 0 <= k < |units| ==> r[k] == units[k].unit
  {
    if units == [] then [] else [units[0].unit] + AllUnits(units[1..])
  }

  /** The pool aggregation draws from: the retail unit costs if there are any, all of them otherwise. */
  function Pool(cfg: Config, units: seq<Observation>): seq<real> {
    var retail := RetailUnits(units, cfg.retailCntMax);
    if retail != [] then retail else AllUnits(units)
  }

  /** Every pool value is the unit cost of some observation, a retail one whenever retail ones exist. */
  lemma PoolMember(cfg: Config, units: seq<Observation>, x: real)
    requires x in Pool(cfg, units)
    ensures exists u :: u in units && u.unit == x
    ensures (exists u :: u in units && u.count <= cfg.retailCntMax) ==>
              exists u :: u in units && u.count <= cfg.retailCntMax && u.unit == x
  {
    var retail := RetailUnits(units, cfg.retailCntMax);
    if retail != [] {
      assert x in retail;
    } else {
      var all := AllUnits(units);
      var k :| 0 <= k < |all| && all[k] == x;
      assert units[k] in units;
    }
  }

  /** `min(max(q, 0.0), 1.0)`. */
  function Clamp01(q: real): (r: real)
    ensures 0.0 <= r <= 1.0
  {
    if q < 0.0 then 0.0 else if q > 1.0 then 1.0 else q
  }

  /** `_aggregate_units`: a nearest-rank quantile of the pool, `None` when there are no observations. */
  function Aggregate(cfg: Config, units: seq<Observation>): (r: Option<real>)
    ensures r.None? <==> units == []
    ensures r.Some? ==> r.value in Pool(cfg, units)
    ensures r.Some? && (exists u :: u in units && u.count <= cfg.retailCntMax) ==>
              exists u :: u in units && u.count <= cfg.retailCntMax && u.unit == r.value
    ensures r.Some? ==> exists u :: u in units && u.unit == r.value
  {
    if units == [] then None
    else
      var pool := Pool(cfg, units);
      assert units[0].unit == AllUnits(units)[0];
      if pool == [] then None
      else
        var s := Sort(pool);
        var idx := NearestRank(Clamp01(cfg.aggQuantile), |s|);
        assert s[idx] in multiset(pool);
        PoolMember(cfg, units, s[idx]);
        Some(s[idx])
  }

  /** The aggregate is the nearest-rank quantile, at the clamped `agg_quantile`, of the pool. */
  lemma AggregateIsPoolQuantile(cfg: Config, units: seq<Observation>)
    requires units != []
    ensures Pool(cfg, units) != []
    ensures Aggregate(cfg, units) == Quantile(Pool(cfg, units), Clamp01(cfg.aggQuantile))
  {
    assert units[0].unit == AllUnits(units)[0];
  }

  /** Raising `agg_quantile`, with everything else unchanged, never lowers the aggregate. */
  lemma AggregateMonotone(cfg: Config, units: seq<Observation>, q: real)
    requires units != []
    requires cfg.aggQuantile <= q
    ensures Aggregate(cfg, units).value <= Aggregate(cfg.(aggQuantile := q), units).value
  {
    var cfg' := cfg.(aggQuantile := q);
    AggregateIsPoolQuantile(cfg, units);
    AggregateIsPoolQuantile(cfg', units);
    assert Pool(cfg', units) == Pool(cfg, units);
    QuantileMonotone(Pool(cfg, units), Clamp01(cfg.aggQuantile), Clamp01(q));
  }

  /** With two pooled values and the median quantile, round(0.5) is 0 (ties go to even), so the smaller value is chosen. */
  lemma AggregateTwoPicksLower(cfg: Config, units: seq<Observation>)
    requires Clamp01(cfg.aggQuantile) == 0.5
    requires |Pool(cfg, units)| == 2
    ensures Aggregate(cfg, units) == Some(Min(Pool(cfg, units)[0], Pool(cfg, units)[1]))
  {
    var pool := Pool(cfg, units);
    var s := Sort(pool);
    assert NearestRank(0.5, 2) == 0;
    assert s[0] <= s[1];
    assert multiset(s) == multiset{pool[0], pool[1]} by {
      assert pool == [pool[0], pool[1]];
    }
    assert s == [s[0], s[1]];
    assert s[0] in multiset{pool[0], pool[1]} && s[1] in multiset{pool[0], pool[1]};
  }

  /** Retail preference: two retail trades at 10 and 12 and one bulk trade at 1 aggregate to 10 under the defaults. */
  lemma RetailPreferenceExample()
    ensures Aggregate(DEFAULT_CONFIG, [Observation(2, 10.0, 0), Observation(2, 12.0, 1), Observation(100, 1.0, 2)])
            == Some(10.0)
  {
    var units := [Observation(2, 10.0, 0), Observation(2, 12.0, 1), Observation(100, 1.0, 2)];
    assert RetailPrefix(units, 5, 1) == [10.0];
    assert RetailPrefix(units, 5, 2) == [10.0, 12.0];
    assert RetailUnits(units, 5) == RetailPrefix(units, 5, 3) == [10.0, 12.0];
    AggregateTwoPicksLower(DEFAULT_CONFIG, units);
  }
}
