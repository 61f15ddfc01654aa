/**
 * The anchor seeder `_seed_from_anchor`: the anchor is worth 1, and every
 * one-pair bundle in the anchor's own trades prices that pair's item at
 * `cntA / m`; the cheapest such price wins.
 */
module Seeding {
  import opened Offers

  /**
   * What one bundle of an anchor trade seeds: `(name, cntA / m)` when the
   * trade's count is positive and the bundle is a single pair with `m > 0`.
   */
  function SeedCandidate(count: int, offer: Bundle): Option<(string, real)> {
    if count <= 0 || |offer| != 1 || offer[0].mult <= 0.0 then None
    else Some((offer[0].name, count as real / offer[0].mult))
  }

  /** Adopts a candidate when its item has no value yet or the candidate is strictly cheaper. */
  function Relax(values: Table, c: Option<(string, real)>): Table {
    match c
    case None => values
    case Some((name, v)) => if name !in values || v < values[name] then values[name := v] else values
  }

  /** The table after the first `j` bundles of anchor trade `t`, starting from `values`. */
  function SeedOffersPrefix(values: Table, t: Trade, j: nat): Table
    requires j <= |t.offers|
  {
    if j == 0 then values
    else Relax(SeedOffersPrefix(values, t, j - 1), SeedCandidate(t.count, t.offers[j - 1]))
  }

  /** The table after the first `i` anchor trades, starting from `{anchor: 1}`. */
  function SeedTradesPrefix(cfg: Config, trades: seq<Trade>, i: nat): Table
    requires i <= |trades|
  {
    if i == 0 then map[cfg.anchor := 1.0]
    else
      var t := trades[i - 1];
      SeedOffersPrefix(SeedTradesPrefix(cfg, trades, i - 1), t, |t.offers|)
  }

  /** The seeded table: every anchor trade and every bundle of it, in order. */
  function SeedValues(cfg: Config, input: Input): Table {
    var trades := Lookup(input, cfg.anchor);
    SeedTradesPrefix(cfg, trades, |trades|)
  }

  /**
   * `_seed_from_anchor`: the seeded table, and the known set, which is
   * exactly its key set.
   */
  method SeedFromAnchor(cfg: Config, input: Input) returns (values: Table, known: set<string>)
    ensures values == SeedValues(cfg, input)
    ensures known == values.Keys
  {
    values := map[cfg.anchor := 1.0];
    known := {cfg.anchor};
    var trades := Lookup(input, cfg.anchor);
    for i := 0 to |trades|
      invariant values == SeedTradesPrefix(cfg, trades, i)
      invariant known == values.Keys
    {
      var t := trades[i];
      if t.count <= 0 {
        NonPositiveCountSeedsNothing(values, t, |t.offers|);
        continue;
      }
      ghost var before := values;
      for j := 0 to |t.offers|
        invariant values == SeedOffersPrefix(before, t, j)
        invariant known == values.Keys
      {
        var offer := t.offers[j];
        if |offer| != 1 {
          continue;
        }
        var m, name := offer[0].mult, offer[0].name;
        if m <= 0.0 {
          continue;
        }
        var val := t.count as real / m;
        if name !in values || val < values[name] {
          values := values[name := val];
          known := known + {name};
        }
      }
    }
  }

  /** A trade whose count is not positive seeds nothing. */
  lemma {:induction false} NonPositiveCountSeedsNothing(values: Table, t: Trade, j: nat)
    requires t.count <= 0
    requires j <= |t.offers|
    ensures SeedOffersPrefix(values, t, j) == values
  {
    if j > 0 {
      NonPositiveCountSeedsNothing(values, t, j - 1);
    }
  }

  /** Bundle `b` of anchor trade `a` seeds item `name` at value `v`. */
  predicate SeedsFrom(trades: seq<Trade>, a: int, b: int, name: string, v: real) {
    0 <= a < |trades| && 0 <= b < |trades[a].offers| && SeedCandidate(trades[a].count, trades[a].offers[b]) == Some((name, v))
  }

  /** Bundle `b` of trade `a` comes before bundle `j` of trade `i` in iteration order. */
  predicate Before(a: int, b: int, i: int, j: int) {
    a < i || (a == i && b < j)
  }

  /**
   * `values` is the result of seeding every bundle before position `(i, j)`:
   * the anchor is at most 1, every seeded candidate is at least its item's
   * value, and every value is the anchor's 1 or some candidate.
   */
  ghost predicate SeededBefore(values: Table, cfg: Config, trades: seq<Trade>, i: int, j: int) {
    && cfg.anchor in values && values[cfg.anchor] <= 1.0
    && (forall a, b, n, v :: SeedsFrom(trades, a, b, n, v) && Before(a, b, i, j) ==> n in values && values[n] <= v)
    && (forall n :: n in values ==>
          (n == cfg.anchor && values[n] == 1.0) || exists a, b :: SeedsFrom(trades, a, b, n, values[n]) && Before(a, b, i, j))
  }

  lemma RelaxStep(values: Table, cfg: Config, trades: seq<Trade>, i: nat, j: nat)
    requires i < |trades| && j < |trades[i].offers|
    requires SeededBefore(values, cfg, trades, i, j)
    ensures SeededBefore(Relax(values, SeedCandidate(trades[i].count, trades[i].offers[j])), cfg, trades, i, j + 1)
  {
    var c := SeedCandidate(trades[i].count, trades[i].offers[j]);
    var r := Relax(values, c);
    if c.Some? {
      var (name, v) := c.value;
      assert SeedsFrom(trades, i, j, name, v);
      forall n | n in r
        ensures (n == cfg.anchor && r[n] == 1.0) || exists a, b :: SeedsFrom(trades, a, b, n, r[n]) && Before(a, b, i, j + 1)
      {
        if n == name && r[n] == v {
          assert SeedsFrom(trades, i, j, n, r[n]) && Before(i, j, i, j + 1);
        } else {
          assert n in values && r[n] == values[n];
        }
      }
    }
  }

  lemma {:induction false} SeedOffersPrefixSeeds(cfg: Config, trades: seq<Trade>, start: Table, i: nat, j: nat)
    requires i < |trades| && j <= |trades[i].offers|
    requires SeededBefore(start, cfg, trades, i, 0)
    ensures SeededBefore(SeedOffersPrefix(start, trades[i], j), cfg, trades, i, j)
  {
    if j > 0 {
      var prev := SeedOffersPrefix(start, trades[i], j - 1);
      SeedOffersPrefixSeeds(cfg, trades, start, i, j - 1);
      RelaxStep(prev, cfg, trades, i, j - 1);
      assert SeedOffersPrefix(start, trades[i], j) == Relax(prev, SeedCandidate(trades[i].count, trades[i].offers[j - 1]));
    }
  }

  lemma {:induction false} SeedTradesPrefixSeeds(cfg: Config, trades: seq<Trade>, i: nat)
    requires i <= |trades|
    ensures SeededBefore(SeedTradesPrefix(cfg, trades, i), cfg, trades, i, 0)
  {
    if i > 0 {
      SeedTradesPrefixSeeds(cfg, trades, i - 1);
      var t := trades[i - 1];
      SeedOffersPrefixSeeds(cfg, trades, SeedTradesPrefix(cfg, trades, i - 1), i - 1, |t.offers|);
      forall a, b, n, v | SeedsFrom(trades, a, b, n, v)
        ensures Before(a, b, i, 0) <==> Before(a, b, i - 1, |t.offers|)
      {
      }
    }
  }

  /**
   * Min wins: the anchor is seeded at 1 unless the anchor's own trades offer
   * it cheaper; every qualifying one-pair anchor bundle seeds its item at no
   * more than `cntA / m`; and every seeded value is either the anchor's 1 or
   * the `cntA / m` of some qualifying bundle.
   */
  lemma SeedIsMinimum(cfg: Config, input: Input)
    ensures cfg.anchor in SeedValues(cfg, input)
    ensures SeedValues(cfg, input)[cfg.anchor] <= 1.0
    ensures forall a, b, n, v :: SeedsFrom(Lookup(input, cfg.anchor), a, b, n, v) ==>
              n in SeedValues(cfg, input) && SeedValues(cfg, input)[n] <= v
    ensures forall n :: n in SeedValues(cfg, input) ==>
              || (n == cfg.anchor && SeedValues(cfg, input)[n] == 1.0)
              || exists a, b :: SeedsFrom(Lookup(input, cfg.anchor), a, b, n, SeedValues(cfg, input)[n])
  {
    var trades := Lookup(input, cfg.anchor);
    SeedTradesPrefixSeeds(cfg, trades, |trades|);
  }

  /** When no anchor bundle names the anchor itself, the anchor is seeded at exactly 1. */
  lemma AnchorSeededAtOne(cfg: Config, input: Input)
    requires forall a, b, v :: !SeedsFrom(Lookup(input, cfg.anchor), a, b, cfg.anchor, v)
    ensures cfg.anchor in SeedValues(cfg, input) && SeedValues(cfg, input)[cfg.anchor] == 1.0
  {
    SeedIsMinimum(cfg, input);
  }

  /** The anchor offered against itself lowers its own seeded value below 1. */
  lemma AnchorSelfOfferLowersAnchor()
    ensures var input := [Entry("A", [Trade(1, [[Pair(2.0, "A")]])])];
            SeedValues(Config("A", 50, 5, 0.5, 0.1, 10), input)["A"] == 0.5
  {
    var cfg := Config("A", 50, 5, 0.5, 0.1, 10);
    var input := [Entry("A", [Trade(1, [[Pair(2.0, "A")]])])];
    assert Lookup(input, "A") == [Trade(1, [[Pair(2.0, "A")]])];
    assert SeedCandidate(1, [Pair(2.0, "A")]) == Some(("A", 0.5));
  }
}
