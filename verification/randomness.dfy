/** `random.randint` and `random.choice` as oracles: the random draw is an
    arbitrary `seed` supplied by the caller, and every admissible value is
    reachable by some seed. */
module Randomness {

  /** A closed integer interval `(min, max)` as the configuration tables store it. */
  datatype Range = Range(lo: int, hi: int)
  {
    predicate Contains(v: int) { lo <= v <= hi }
  }

  /** `random.randint(r.lo, r.hi)`. */
  function RandInt(r: Range, seed: nat): (v: int)
    requires r.lo <= r.hi
    ensures r.Contains(v)
  {
    r.lo + seed % (r.hi - r.lo + 1)
  }

  /** Every value of the interval is drawn by some seed. */
  lemma RandIntReachesAll(r: Range, v: int)
    requires r.Contains(v)
    ensures RandInt(r, (v - r.lo) as nat) == v
  {
  }

  /** `random.choice(xs)`. */
  function Choice<T>(xs: seq<T>, seed: nat): (x: T)
    requires |xs| > 0
    ensures x in xs
  {
    xs[seed % |xs|]
  }

  /** Every element can be chosen. */
  lemma ChoiceReachesAll<T>(xs: seq<T>, j: nat)
    requires j < |xs|
    ensures Choice(xs, j) == xs[j]
  {
  }

  /** `table.get(key, fallback)` on a table of ranges. */
  function RangeFor<K>(table: map<K, Range>, key: K, fallback: Range): Range
  {
    if key in table then table[key] else fallback
  }

  /** Every range of the table is non-empty and starts at 1 or above. */
  ghost predicate PositiveRanges<K>(table: map<K, Range>)
  {
    forall k :: k in table ==> 1 <= table[k].lo <= table[k].hi
  }
}
