/**
  The three-way banding that every probability display of the site applies:
  the verdict, its colour and icon, the factor bars and the graph nodes all
  compare against the same two strict thresholds.
 */
module Tiers {

  datatype Tier = High | Middle | Low

  const HighAbove: real := 0.7
  const MiddleAbove: real := 0.3

  /** `p > 0.7` is high, `0.3 < p <= 0.7` is middle, anything else is low.
      Both comparisons are strict, so 0.7 itself is middle and 0.3 is low. */
  function TierOf(p: real): (t: Tier)
    ensures t == High <==> p > 0.7
    ensures t == Middle <==> 0.3 < p <= 0.7
    ensures t == Low <==> p <= 0.3
  {
    if p > HighAbove then High else if p > MiddleAbove then Middle else Low
  }

  function Rank(t: Tier): nat
  {
    match t
    case Low => 0
    case Middle => 1
    case High => 2
  }

  /** A larger probability never lands in a lower tier. */
  lemma TierMonotone(p: real, q: real)
    requires p <= q
    ensures Rank(TierOf(p)) <= Rank(TierOf(q))
  {
  }

  /** The boundaries themselves fall into the lower tier. */
  lemma TierBoundaries()
    ensures TierOf(0.7) == Middle
    ensures TierOf(0.3) == Low
    ensures forall p :: 0.3 < p <= 0.7 ==> TierOf(p) == Middle
  {
  }
}
