/**
 * The offer model: the in-memory item -> trades table the solver reads, the
 * unit-cost observations it derives from it, and the solver's configuration.
 */
module Offers {

  datatype Option<+T> = None | Some(value: T)

  /** One `(multiplier, name)` pair of a bundle: `mult` units of item `name`. */
  datatype Pair = Pair(mult: real, name: string)

  /** One alternative bundle offered in exchange for the subject item. */
  type Bundle = seq<Pair>

  /** One observed trade: `count` units of the subject item against any one of `offers`. */
  datatype Trade = Trade(count: int, offers: seq<Bundle>)

  /** One entry of the item -> trades dictionary; the input is a list of entries in iteration order. */
  datatype Entry = Entry(item: string, trades: seq<Trade>)

  type Input = seq<Entry>

  /** A value table: item name -> estimated value in anchor units. */
  type Table = map<string, real>

  /**
   * A unit-cost observation of one trade: the subject count, the cheapest
   * feasible unit cost, and the trade's position in its item's trade list.
   */
  datatype Observation = Observation(count: int, unit: real, index: nat)

  /** The solver's tunables, as set by its constructor and never changed afterwards. */
  datatype Config = Config(
    anchor: string,
    maxIters: int,
    retailCntMax: int,
    aggQuantile: real,
    trimAlpha: real,
    trimMinTrades: int)

  /** The constructor's defaults. */
  const DEFAULT_CONFIG := Config("Perfect Amethyst", 50, 5, 0.5, 0.1, 10)

  /** The key set of the input dictionary. */
  function Keys(input: Input): set<string> {
    set i | 0 <= i < |input| :: input[i].item
  }

  /** The keys of one more entry are the keys so far and that entry's item. */
  lemma KeysStep(input: Input, i: nat)
    requires i < |input|
    ensures Keys(input[..i + 1]) == Keys(input[..i]) + {input[i].item}
  {
    assert forall j :: 0 <= j < i ==> input[..i + 1][j] == input[..i][j];
  }

  /** A dictionary never holds a key twice. */
  predicate DistinctKeys(input: Input) {
    forall i, j :: 0 <= i < j < |input| ==> input[i].item != input[j].item
  }

  /** `trades_by_item.get(key, [])`. */
  function Lookup(input: Input, key: string): seq<Trade> {
    if input == [] then []
    else if input[0].item == key then input[0].trades
    else Lookup(input[1..], key)
  }

  /** `values.get(name)` for a name known to be present, 0 otherwise. */
  function Get(values: Table, name: string): real {
    if name in values then values[name] else 0.0
  }

  function Min(a: real, b: real): real {
    if a <= b then a else b
  }
}
