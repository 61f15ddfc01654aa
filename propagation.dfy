/**
 * The propagation engine `appraise`: seed from the anchor, then price unknown
 * items round by round from the items already known until a round changes
 * nothing or the round cap is reached, then fill in zeros and round for
 * display.
 */
module Propagation {
  import opened Offers
  import opened Rounding
  import opened Ranking
  import opened Costing
  import opened Seeding

  /** The strict-improvement tolerance `1e-12`. */
  const TOLERANCE: real := 0.000000000001

  /** The loop state of `appraise`: the value table, the known set and the `changed` flag. */
  datatype State = State(values: Table, known: set<string>, changed: bool)

  /** The known set is exactly the key set of the value table. */
  ghost predicate Consistent(st: State) {
    st.known == st.values.Keys
  }

  /**
   * One item of a round: a known item is skipped; otherwise its trades are
   * costed against the current table, and the aggregate is adopted when the
   * item has no value yet or the aggregate is lower by more than the tolerance.
   */
  function ItemStep(cfg: Config, e: Entry, st: State): State {
    if e.item in st.known then st
    else
      var agg := Aggregate(cfg, Observations(e.trades, st.values, st.known));
      if agg.Some? && (e.item !in st.values || agg.value < st.values[e.item] - TOLERANCE) then
        State(st.values[e.item := agg.value], st.known + {e.item}, true)
      else st
  }

  /** The state after the first `i` items of a round; each item sees the updates of the items before it. */
  function RoundPrefix(cfg: Config, input: Input, st: State, i: nat): State
    requires i <= |input|
  {
    if i == 0 then st else ItemStep(cfg, input[i - 1], RoundPrefix(cfg, input, st, i - 1))
  }

  /** One full round: `changed` is cleared, then every item is visited in input order. */
  function Round(cfg: Config, input: Input, st: State): State {
    RoundPrefix(cfg, input, st.(changed := false), |input|)
  }

  /** The number of rounds `max_iters` allows. */
  function RoundCap(cfg: Config): nat {
    if cfg.maxIters < 0 then 0 else cfg.maxIters
  }

  /** `while changed and iters < max_iters`, with `budget` rounds left. */
  function Run(cfg: Config, input: Input, st: State, budget: nat): State
    decreases budget
  {
    if !st.changed || budget == 0 then st else Run(cfg, input, Round(cfg, input, st), budget - 1)
  }

  /** How many rounds `Run` performs. */
  function RoundsRun(cfg: Config, input: Input, st: State, budget: nat): nat
    decreases budget
  {
    if !st.changed || budget == 0 then 0 else 1 + RoundsRun(cfg, input, Round(cfg, input, st), budget - 1)
  }

  /** The state the loop starts from: the seeded table, its key set as the known set, and `changed` set. */
  function Start(cfg: Config, input: Input): State {
    var seeded := SeedValues(cfg, input);
    State(seeded, seeded.Keys, true)
  }

  /** The table when the propagation loop ends. */
  function Propagated(cfg: Config, input: Input): State {
    Run(cfg, input, Start(cfg, input), RoundCap(cfg))
  }

  /** Every input key whose value is missing or not positive is set to 0; other entries are kept. */
  function ZeroFill(values: Table, keys: set<string>): Table {
    map k | k in values.Keys + keys :: if k in values && (k !in keys || 0.0 < values[k]) then values[k] else 0.0
  }

  /** Zero-filling one more key updates at most that key. */
  lemma ZeroFillStep(values: Table, keys: set<string>, k: string)
    ensures var z := ZeroFill(values, keys);
            ZeroFill(values, keys + {k}) == if k !in z || z[k] <= 0.0 then z[k := 0.0] else z
  {
    var z := ZeroFill(values, keys);
    var z' := ZeroFill(values, keys + {k});
    var expected := if k !in z || z[k] <= 0.0 then z[k := 0.0] else z;
    assert z'.Keys == expected.Keys;
    forall j | j in z'
      ensures z'[j] == expected[j]
    {
    }
  }

  /** Non-positive values show as 0, others by the display rule; the anchor shows as 1. */
  function Display(cfg: Config, values: Table): Table {
    (map k | k in values :: if values[k] <= 0.0 then 0.0 else RoundRule(values[k]))[cfg.anchor := 1.0]
  }

  /** What `appraise` returns. */
  function AppraiseSpec(cfg: Config, input: Input): Table {
    Display(cfg, ZeroFill(Propagated(cfg, input).values, Keys(input)))
  }

  /**
   * One round of the propagation loop: every item not yet known is costed
   * against the current table, and later items see the updates of earlier
   * ones.
   */
  method PropagationRound(cfg: Config, input: Input, values0: Table, known0: set<string>)
    returns (values: Table, known: set<string>, changed: bool)
    ensures State(values, known, changed) == Round(cfg, input, State(values0, known0, true))
  {
    values, known, changed := values0, known0, false;
    for i := 0 to |input|
      invariant State(values, known, changed) == RoundPrefix(cfg, input, State(values0, known0, false), i)
    {
      ghost var st := State(values, known, changed);
      var item := input[i].item;
      if item in known {
        continue;
      }
      var units := TradeObservations(input[i].trades, values, known);
      var agg := Aggregate(cfg, units);
      if agg.Some? {
        if item !in values || agg.value < values[item] - TOLERANCE {
          values := values[item := agg.value];
          known := known + {item};
          changed := true;
        }
      }
      assert State(values, known, changed) == ItemStep(cfg, input[i], st);
    }
  }

  /** The seeding and the propagation loop of `appraise`. */
  method Propagate(cfg: Config, input: Input) returns (values: Table, known: set<string>)
    ensures values == Propagated(cfg, input).values
    ensures known == Propagated(cfg, input).known
  {
    values, known := SeedFromAnchor(cfg, input);
    ghost var start := State(values, known, true);
    assert start == Start(cfg, input);
    var changed := true;
    var iters := 0;
    while changed && iters < cfg.maxIters
      invariant 0 <= iters <= RoundCap(cfg)
      invariant Run(cfg, input, State(values, known, changed), RoundCap(cfg) - iters)
                == Run(cfg, input, start, RoundCap(cfg))
    {
      values, known, changed := PropagationRound(cfg, input, values, known);
      iters := iters + 1;
    }
    assert Run(cfg, input, State(values, known, changed), RoundCap(cfg) - iters) == State(values, known, changed);
  }

  /** `appraise`: propagation, then zeros for missing or non-positive input items, then display rounding. */
  method Appraise(cfg: Config, input: Input) returns (out: Table)
    ensures out == AppraiseSpec(cfg, input)
  {
    var values, known := Propagate(cfg, input);
    ghost var propagated := values;
    for i := 0 to |input|
      invariant values == ZeroFill(propagated, Keys(input[..i]))
    {
      KeysStep(input, i);
      var k := input[i].item;
      ZeroFillStep(propagated, Keys(input[..i]), k);
      if k !in values || values[k] <= 0.0 {
        values := values[k := 0.0];
      }
    }
    assert input[..|input|] == input;
    out := map k | k in values :: if values[k] <= 0.0 then 0.0 else RoundRule(values[k]);
    out := out[cfg.anchor := 1.0];
  }

  /** An item step never raises a value and never forgets a known item or a valued one. */
  lemma ItemStepNeverIncreases(cfg: Config, e: Entry, st: State)
    ensures st.known <= ItemStep(cfg, e, st).known
    ensures forall k :: k in st.values ==> k in ItemStep(cfg, e, st).values && ItemStep(cfg, e, st).values[k] <= st.values[k]
    ensures st.changed ==> ItemStep(cfg, e, st).changed
  {
  }

  /**
   * While the known set is the key set of the table, an item step writes
   * only an item that had no value: the strict-improvement comparison never
   * sees a previous value, so values are written once.
   */
  lemma ItemStepWritesOnce(cfg: Config, e: Entry, st: State)
    requires Consistent(st)
    ensures Consistent(ItemStep(cfg, e, st))
    ensures forall k :: k in st.values ==> k in ItemStep(cfg, e, st).values && ItemStep(cfg, e, st).values[k] == st.values[k]
    ensures ItemStep(cfg, e, st).values.Keys <= st.values.Keys + {e.item}
  {
  }

  /** An item step either leaves the state as it was or raises `changed`. */
  lemma ItemStepKeepsOrChanges(cfg: Config, e: Entry, st: State)
    ensures ItemStep(cfg, e, st) == st || ItemStep(cfg, e, st).changed
  {
  }

  /** Over part of a round, values never rise, the known set only grows, and a raised `changed` stays raised. */
  lemma {:induction false} RoundPrefixNeverIncreases(cfg: Config, input: Input, st: State, i: nat)
    requires i <= |input|
    ensures st.known <= RoundPrefix(cfg, input, st, i).known
    ensures forall k :: k in st.values ==>
              k in RoundPrefix(cfg, input, st, i).values && RoundPrefix(cfg, input, st, i).values[k] <= st.values[k]
    ensures st.changed ==> RoundPrefix(cfg, input, st, i).changed
  {
    if i > 0 {
      var prev := RoundPrefix(cfg, input, st, i - 1);
      var cur := RoundPrefix(cfg, input, st, i);
      assert cur == ItemStep(cfg, input[i - 1], prev);
      RoundPrefixNeverIncreases(cfg, input, st, i - 1);
      ItemStepNeverIncreases(cfg, input[i - 1], prev);
      forall k | k in st.values
        ensures k in cur.values && cur.values[k] <= st.values[k]
      {
        assert k in prev.values && prev.values[k] <= st.values[k];
      }
    }
  }

  /** Over part of a round, a consistent state stays consistent, keeps every value, and gains only input items. */
  lemma {:induction false} RoundPrefixExtends(cfg: Config, input: Input, st: State, i: nat)
    requires i <= |input|
    requires Consistent(st)
    ensures Consistent(RoundPrefix(cfg, input, st, i))
    ensures forall k :: k in st.values ==>
              k in RoundPrefix(cfg, input, st, i).values && RoundPrefix(cfg, input, st, i).values[k] == st.values[k]
    ensures RoundPrefix(cfg, input, st, i).values.Keys <= st.values.Keys + Keys(input)
  {
    if i > 0 {
      RoundPrefixExtends(cfg, input, st, i - 1);
      ItemStepWritesOnce(cfg, input[i - 1], RoundPrefix(cfg, input, st, i - 1));
    }
  }

  /** Across all rounds, values never rise and the known set only grows. */
  lemma {:induction false} RunNeverIncreases(cfg: Config, input: Input, st: State, budget: nat)
    ensures st.known <= Run(cfg, input, st, budget).known
    ensures forall k :: k in st.values ==>
              k in Run(cfg, input, st, budget).values && Run(cfg, input, st, budget).values[k] <= st.values[k]
    decreases budget
  {
    if st.changed && budget > 0 {
      RoundPrefixNeverIncreases(cfg, input, st.(changed := false), |input|);
      RunNeverIncreases(cfg, input, Round(cfg, input, st), budget - 1);
    }
  }

  /** Across all rounds, a consistent state stays consistent, keeps every value, and gains only input items. */
  lemma {:induction false} RunExtends(cfg: Config, input: Input, st: State, budget: nat)
    requires Consistent(st)
    ensures Consistent(Run(cfg, input, st, budget))
    ensures forall k :: k in st.values ==>
              k in Run(cfg, input, st, budget).values && Run(cfg, input, st, budget).values[k] == st.values[k]
    ensures Run(cfg, input, st, budget).values.Keys <= st.values.Keys + Keys(input)
    decreases budget
  {
    if st.changed && budget > 0 {
      RoundPrefixExtends(cfg, input, st.(changed := false), |input|);
      RunExtends(cfg, input, Round(cfg, input, st), budget - 1);
    }
  }

  /** A round that ends with `changed` still clear changed nothing. */
  lemma {:induction false} QuietRoundPrefix(cfg: Config, input: Input, st: State, i: nat)
    requires i <= |input|
    requires !st.changed
    requires !RoundPrefix(cfg, input, st, i).changed
    ensures RoundPrefix(cfg, input, st, i) == st
  {
    if i > 0 {
      var prev := RoundPrefix(cfg, input, st, i - 1);
      ItemStepKeepsOrChanges(cfg, input[i - 1], prev);
      QuietRoundPrefix(cfg, input, st, i - 1);
    }
  }

  /** In a round that ends with `changed` still clear, every item step left the state as it was. */
  lemma {:induction false} QuietRoundItem(cfg: Config, input: Input, st: State, i: nat, j: nat)
    requires j < i <= |input|
    requires !st.changed
    requires !RoundPrefix(cfg, input, st, i).changed
    ensures ItemStep(cfg, input[j], st) == st
  {
    var prev := RoundPrefix(cfg, input, st, i - 1);
    ItemStepKeepsOrChanges(cfg, input[i - 1], prev);
    QuietRoundPrefix(cfg, input, st, i - 1);
    if j < i - 1 {
      QuietRoundItem(cfg, input, st, i - 1, j);
    }
  }

  /**
   * The loop runs at most `budget` rounds; if it stops before the budget is
   * used up, its last round changed nothing, so one more round would not
   * change the table either.
   */
  lemma {:induction false} RunStops(cfg: Config, input: Input, st: State, budget: nat)
    ensures RoundsRun(cfg, input, st, budget) <= budget
    ensures Run(cfg, input, st, budget).changed ==> RoundsRun(cfg, input, st, budget) == budget
    ensures st.changed && RoundsRun(cfg, input, st, budget) < budget ==>
              && !Run(cfg, input, st, budget).changed
              && Round(cfg, input, Run(cfg, input, st, budget)) == Run(cfg, input, st, budget)
    decreases budget
  {
    if st.changed && budget > 0 {
      var next := Round(cfg, input, st);
      RunStops(cfg, input, next, budget - 1);
      if !next.changed {
        QuietRoundPrefix(cfg, input, st.(changed := false), |input|);
        assert next == st.(changed := false);
      }
    }
  }

  /**
   * At a fixed point of a consistent state, no unknown item has a single
   * costable trade: everything the trades can price has been priced.
   */
  lemma FixpointLeavesNothingPriceable(cfg: Config, input: Input, st: State)
    requires Consistent(st)
    requires !st.changed && Round(cfg, input, st) == st
    ensures forall i :: 0 <= i < |input| && input[i].item !in st.known ==>
              Observations(input[i].trades, st.values, st.known) == []
  {
    assert st.(changed := false) == st;
    forall i | 0 <= i < |input| && input[i].item !in st.known
      ensures Observations(input[i].trades, st.values, st.known) == []
    {
      QuietRoundItem(cfg, input, st, |input|, i);
    }
  }

  /**
   * What the propagation loop of `appraise` ends with: at most `max_iters`
   * rounds; the known set is the key set of the table; every seeded value
   * survives unchanged; only input items are added; and if it stopped before
   * the cap, no unknown input item has a costable trade left.
   */
  lemma PropagationOutcome(cfg: Config, input: Input)
    ensures RoundsRun(cfg, input, Start(cfg, input), RoundCap(cfg)) <= RoundCap(cfg)
    ensures Consistent(Propagated(cfg, input))
    ensures forall k :: k in SeedValues(cfg, input) ==>
              k in Propagated(cfg, input).values && Propagated(cfg, input).values[k] == SeedValues(cfg, input)[k]
    ensures Propagated(cfg, input).values.Keys <= SeedValues(cfg, input).Keys + Keys(input)
    ensures RoundsRun(cfg, input, Start(cfg, input), RoundCap(cfg)) < RoundCap(cfg) ==>
              forall i :: 0 <= i < |input| && input[i].item !in Propagated(cfg, input).known ==>
                Observations(input[i].trades, Propagated(cfg, input).values, Propagated(cfg, input).known) == []
  {
    var st := Start(cfg, input);
    RunExtends(cfg, input, st, RoundCap(cfg));
    RunStops(cfg, input, st, RoundCap(cfg));
    var f := Propagated(cfg, input);
    if RoundsRun(cfg, input, st, RoundCap(cfg)) < RoundCap(cfg) {
      FixpointLeavesNothingPriceable(cfg, input, f);
    }
  }

  /**
   * The output of `appraise`: its keys are the input's keys and the seeded
   * items; the anchor shows as exactly 1; every value is at least 0; every
   * other item shows its propagated value rounded by the display rule, or 0
   * when that value is missing or not positive.
   */
  lemma AppraiseOutput(cfg: Config, input: Input)
    ensures AppraiseSpec(cfg, input).Keys == Keys(input) + SeedValues(cfg, input).Keys
    ensures cfg.anchor in AppraiseSpec(cfg, input) && AppraiseSpec(cfg, input)[cfg.anchor] == 1.0
    ensures forall k :: k in AppraiseSpec(cfg, input) ==> 0.0 <= AppraiseSpec(cfg, input)[k]
    ensures forall k :: k in AppraiseSpec(cfg, input) && k != cfg.anchor ==>
              var p := Propagated(cfg, input).values;
              AppraiseSpec(cfg, input)[k] == if k in p && 0.0 < p[k] then RoundRule(p[k]) else 0.0
  {
    PropagationOutcome(cfg, input);
    SeedIsMinimum(cfg, input);
    var p := Propagated(cfg, input).values;
    assert p.Keys + Keys(input) == Keys(input) + SeedValues(cfg, input).Keys;
  }
}
