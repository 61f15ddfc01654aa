/**
 * `solve_with_trimming`: a first appraisal, then rounds of re-costing every
 * trade against the latest table, trimming each item's trades to the
 * nearest-rank band, and appraising the trimmed data again.
 */
module SolverSpec {
  import opened Offers
  import opened Ranking
  import opened Costing
  import opened Seeding
  import opened Propagation
  import opened Trimming

  /** `max(1, passes - 1)`: the number of trim-and-reappraise rounds. */
  function TrimRoundCount(passes: int): (n: nat)
    ensures 1 <= n
    ensures passes >= 2 ==> n == passes - 1
  {
    if passes - 1 < 1 then 1 else passes - 1
  }

  /**
   * One round: the trades re-costed against their own appraisal and trimmed.
   * (The first round collects against the first appraisal of the input; every
   * later one against the appraisal of the trades the round before left.)
   */
  function TrimRound(cfg: Config, filtered: Input): Input {
    Trimmed(cfg, filtered, CollectUnits(filtered, AppraiseSpec(cfg, filtered)))
  }

  /** `round` applied `n` times to `f`. */
  function Iterate(round: Input -> Input, f: Input, n: nat): Input
    decreases n
  {
    if n == 0 then f else Iterate(round, round(f), n - 1)
  }

  /** The trades after `n` more rounds. */
  function TrimRounds(cfg: Config, filtered: Input, n: nat): Input {
    Iterate(f => TrimRound(cfg, f), filtered, n)
  }

  /** What `solve_with_trimming` returns: the appraisal of the finally filtered trades. */
  function Solve(cfg: Config, input: Input, passes: int): Table {
    AppraiseSpec(cfg, TrimRounds(cfg, input, TrimRoundCount(passes)))
  }

  /** A round keeps the item names, in their order. */
  lemma TrimRoundKeepsItems(cfg: Config)
    ensures forall f :: |TrimRound(cfg, f)| == |f|
    ensures forall f: Input, i :: 0 <= i < |f| ==> TrimRound(cfg, f)[i].item == f[i].item
  {
    forall f {
      TrimmedKeys(cfg, f, CollectUnits(f, AppraiseSpec(cfg, f)));
    }
  }

  /** A round keeps, for each item, only trades it had before the round. */
  lemma TrimRoundKeepsOnlyOld(cfg: Config)
    ensures forall f: Input, i, t :: 0 <= i < |f| && i < |TrimRound(cfg, f)| && t in TrimRound(cfg, f)[i].trades ==> t in f[i].trades
  {
    forall f: Input, i, t | 0 <= i < |f| && i < |TrimRound(cfg, f)| && t in TrimRound(cfg, f)[i].trades
      ensures t in f[i].trades
    {
      TrimmedKeepsOnlyOld(cfg, f, CollectUnits(f, AppraiseSpec(cfg, f)), i, t);
    }
  }

  /** Repeating a step that keeps the item names keeps them too. */
  lemma {:induction false} IterateKeepsItems(round: Input -> Input, f: Input, n: nat)
    requires forall g :: |round(g)| == |g|
    requires forall g: Input, i :: 0 <= i < |g| ==> round(g)[i].item == g[i].item
    ensures |Iterate(round, f, n)| == |f|
    ensures forall i :: 0 <= i < |f| ==> Iterate(round, f, n)[i].item == f[i].item
    decreases n
  {
    if n > 0 {
      IterateKeepsItems(round, round(f), n - 1);
    }
  }

  /** Repeating a step that only drops trades only drops trades. */
  lemma {:induction false} IterateKeepsOnlyOld(round: Input -> Input, f: Input, n: nat, i: nat, t: Trade)
    requires forall g :: |round(g)| == |g|
    requires forall g: Input, j, u :: 0 <= j < |g| && j < |round(g)| && u in round(g)[j].trades ==> u in g[j].trades
    requires i < |f| && i < |Iterate(round, f, n)| && t in Iterate(round, f, n)[i].trades
    ensures t in f[i].trades
    decreases n
  {
    if n > 0 {
      IterateKeepsOnlyOld(round, round(f), n - 1, i, t);
    }
  }

  /**
   * The result of `solve_with_trimming` is the appraisal of trades that keep
   * the input's item names in order and only drop trades; so every input
   * item appears, every value is at least 0, and the anchor is exactly 1.
   */
  lemma SolveOutput(cfg: Config, input: Input, passes: int)
    ensures |TrimRounds(cfg, input, TrimRoundCount(passes))| == |input|
    ensures forall i :: 0 <= i < |input| ==> TrimRounds(cfg, input, TrimRoundCount(passes))[i].item == input[i].item
    ensures forall i, t :: 0 <= i < |input| && t in TrimRounds(cfg, input, TrimRoundCount(passes))[i].trades ==> t in input[i].trades
    ensures Keys(input) <= Solve(cfg, input, passes).Keys
    ensures cfg.anchor in Solve(cfg, input, passes) && Solve(cfg, input, passes)[cfg.anchor] == 1.0
    ensures forall k :: k in Solve(cfg, input, passes) ==> 0.0 <= Solve(cfg, input, passes)[k]
  {
    var f := TrimRounds(cfg, input, TrimRoundCount(passes));
    var round := g => TrimRound(cfg, g);
    TrimRoundKeepsItems(cfg);
    TrimRoundKeepsOnlyOld(cfg);
    IterateKeepsItems(round, input, TrimRoundCount(passes));
    forall i, t | 0 <= i < |input| && t in f[i].trades
      ensures t in input[i].trades
    {
      IterateKeepsOnlyOld(round, input, TrimRoundCount(passes), i, t);
    }
    AppraiseOutput(cfg, f);
    forall k | k in Keys(input)
      ensures k in Keys(f)
    {
      var i :| 0 <= i < |input| && input[i].item == k;
      assert f[i].item == k;
    }
  }

  /** `passes = 1` still trims once: it gives the same result as the default `passes = 2`. */
  lemma OnePassStillTrims(cfg: Config, input: Input)
    ensures Solve(cfg, input, 1) == Solve(cfg, input, 2)
    ensures Solve(cfg, input, 1) == AppraiseSpec(cfg, TrimRound(cfg, input))
  {
  }

  /**
   * A function value standing for one round. Its two facts only fire on an
   * explicit `TrimRound` or `TrimRounds` term, so code that iterates it does
   * not unfold the appraisal inside every round.
   */
  lemma TrimRoundFunction(cfg: Config) returns (round: Input -> Input)
    ensures forall f {:trigger TrimRound(cfg, f)} :: round(f) == TrimRound(cfg, f)
    ensures forall f, n {:trigger TrimRounds(cfg, f, n)} :: Iterate(round, f, n) == TrimRounds(cfg, f, n)
  {
    round := g => TrimRound(cfg, g);
  }
}

/** The driver loop of `solve_with_trimming`, proved against `SolverSpec`. */
module Solver {
  import opened Offers
  import opened Propagation
  import opened Trimming
  import opened SolverSpec

  /**
   * One pass of the loop body: re-cost every trade against the current table,
   * trim, and appraise the trimmed trades. `round` is one round of `SolverSpec`.
   */
  method TrimPass(cfg: Config, ghost round: Input -> Input, filtered: Input, values: Table)
    returns (next: Input, nextValues: Table)
    requires forall f {:trigger TrimRound(cfg, f)} :: round(f) == TrimRound(cfg, f)
    requires values == AppraiseSpec(cfg, filtered)
    ensures next == round(filtered)
    ensures nextValues == AppraiseSpec(cfg, next)
  {
    var units := CollectUnitCosts(filtered, values);
    next := TrimTrades(cfg, filtered, units);
    assert next == TrimRound(cfg, filtered);
    nextValues := Appraise(cfg, next);
  }

  /** The first appraisal, then `n` passes; the table of the last appraisal. */
  method TrimPasses(cfg: Config, ghost round: Input -> Input, input: Input, n: nat) returns (values: Table)
    requires forall f {:trigger TrimRound(cfg, f)} :: round(f) == TrimRound(cfg, f)
    ensures values == AppraiseSpec(cfg, Iterate(round, input, n))
  {
    var filtered := input;
    values := Appraise(cfg, input);
    var left := n;
    while left > 0
      invariant values == AppraiseSpec(cfg, filtered)
      invariant Iterate(round, filtered, left) == Iterate(round, input, n)
    {
      filtered, values := TrimPass(cfg, round, filtered, values);
      left := left - 1;
    }
  }

  /** `solve_with_trimming`: appraise, then `max(1, passes - 1)` rounds of collect, trim and appraise. */
  method SolveWithTrimming(cfg: Config, input: Input, passes: int) returns (values: Table)
    ensures values == Solve(cfg, input, passes)
  {
    ghost var round := TrimRoundFunction(cfg);
    var rounds: nat := if passes - 1 < 1 then 1 else passes - 1;
    values := TrimPasses(cfg, round, input, rounds);
  }
}
