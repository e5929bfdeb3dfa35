/**
  The presentation of a probability: the verdict text, the colour of the
  verdict and of the factor bars, and the verdict icon. The site computes each
  of them with its own pair of comparisons against 0.7 and 0.3; the model keeps
  those comparisons as written and proves that they all agree with `TierOf`.
 */
module Verdicts {
  import opened Tiers

  const LikelyAuthentic: string := "Likely Authentic"
  const Uncertain: string := "Uncertain"
  const LikelyFake: string := "Likely Fake"

  /** The colour families the site uses. One constructor stands for all the
      Tailwind classes of one family and tier, whatever the prefix and shade:
      `TruthHue` covers `text-truth-600`, `bg-truth-500` and `fill-truth-500`
      alike, `DestructiveHue` covers `text-destructive`, `bg-destructive` and
      `fill-destructive`. The class names themselves are not modelled. */
  datatype Hue = TruthHue | AmberHue | DestructiveHue | NetworkHue

  datatype Icon = CheckCircle | InfoIcon | AlertTriangle

  /** The verdict text of each tier. */
  function Label(t: Tier): string
  {
    match t
    case High => LikelyAuthentic
    case Middle => Uncertain
    case Low => LikelyFake
  }

  /** The colour of each tier. */
  function HueOf(t: Tier): Hue
  {
    match t
    case High => TruthHue
    case Middle => AmberHue
    case Low => DestructiveHue
  }

  /** The icon of each tier. */
  function IconOf(t: Tier): Icon
  {
    match t
    case High => CheckCircle
    case Middle => InfoIcon
    case Low => AlertTriangle
  }


  /** `getVerdict` of the analyzer. */
  function GetVerdict(p: real): (v: string)
    ensures v == LikelyAuthentic <==> p > 0.7
    ensures v == Uncertain <==> 0.3 < p <= 0.7
    ensures v == LikelyFake <==> p <= 0.3
  {
    if p > 0.7 then LikelyAuthentic
    else if p > 0.3 then Uncertain
    else LikelyFake
  }

  /** `getVerdictColor` of the analyzer. */
  function GetVerdictColor(p: real): (h: Hue)
    ensures h == TruthHue <==> p > 0.7
    ensures h == AmberHue <==> 0.3 < p <= 0.7
    ensures h == DestructiveHue <==> p <= 0.3
  {
    if p > 0.7 then TruthHue
    else if p > 0.3 then AmberHue
    else DestructiveHue
  }

  /** `getVerdictIcon`, written the same way in the analyzer and in the
      result tabs. */
  function GetVerdictIcon(p: real): (i: Icon)
    ensures i == CheckCircle <==> p > 0.7
    ensures i == InfoIcon <==> 0.3 < p <= 0.7
    ensures i == AlertTriangle <==> p <= 0.3
  {
    if p > 0.7 then CheckCircle
    else if p > 0.3 then InfoIcon
    else AlertTriangle
  }

  /** The colour of a factor's bar: the same thresholds, applied to the
      factor score. */
  function BarHue(score: real): (h: Hue)
    ensures h == TruthHue <==> score > 0.7
    ensures h == AmberHue <==> 0.3 < score <= 0.7
    ensures h == DestructiveHue <==> score <= 0.3
  {
    if score > 0.7 then TruthHue
    else if score > 0.3 then AmberHue
    else DestructiveHue
  }

  /** Verdict, colour and icon always name the same tier, and the bar of a
      factor is coloured as a verdict of the same value would be. */
  lemma DisplayAgrees(p: real)
    ensures GetVerdict(p) == Label(TierOf(p))
    ensures GetVerdictColor(p) == HueOf(TierOf(p))
    ensures GetVerdictIcon(p) == IconOf(TierOf(p))
    ensures BarHue(p) == GetVerdictColor(p)
  {
  }
}
