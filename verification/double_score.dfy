/**
  The base probability as the source evaluates it: in IEEE-754 binary64
  arithmetic, one rounded operation per statement. A double in [2^-8, 2) is
  an integer multiple of 2^-60, so doubles are represented here by that
  integer; every literal and every intermediate value of the score lies in
  that range (`IntermediatesInRange`).
 */
module DoubleScore {
  import opened Detectors
  import opened Tiers
  import Scoring

  /** 2^-60, the unit in which doubles are counted. */
  const Unit: nat := 0x1000_0000_0000_0000

  /** Spacing of doubles around `a / b` units, for values in [2^-8, 2). */
  function Spacing(a: nat, b: nat): nat
    requires b > 0
  {
    if a < b * 0x20_0000_0000_0000 then 1
    else if a < b * 0x40_0000_0000_0000 then 2
    else if a < b * 0x80_0000_0000_0000 then 4
    else if a < b * 0x100_0000_0000_0000 then 8
    else if a < b * 0x200_0000_0000_0000 then 16
    else if a < b * 0x400_0000_0000_0000 then 32
    else if a < b * 0x800_0000_0000_0000 then 64
    else if a < b * 0x1000_0000_0000_0000 then 128
    else 256
  }

  /** Round-to-nearest, ties-to-even, of the rational `a / b` units. */
  function RoundNearest(a: int, b: nat): int
    requires b > 0
  {
    if a < 0 then -RoundMagnitude(-a, b) else RoundMagnitude(a, b)
  }

  function RoundMagnitude(a: nat, b: nat): int
    requires b > 0
  {
      var u := Spacing(a, b);
      var q := a / (b * u);
      var r := a % (b * u);
      if 2 * r < b * u then q * u
      else if 2 * r > b * u then (q + 1) * u
      else if q % 2 == 0 then q * u
      else (q + 1) * u
  }

  /** The double a decimal literal `num / den` denotes. */
  function Literal(num: nat, den: nat): int
    requires den > 0
  {
    RoundNearest(num * Unit, den)
  }

  /** The doubles of the decimal literals the source uses. */
  lemma LiteralValues()
    ensures Literal(1, 2) == 576460752303423488
    ensures Literal(2, 10) == 230584300921369408
    ensures Literal(1, 10) == 115292150460684704
    ensures Literal(15, 100) == 172938225691027040
    ensures Literal(5, 100) == 57646075230342352
    ensures Literal(25, 100) == 288230376151711744
    ensures Literal(7, 10) == 807045053224792832
    ensures Literal(3, 10) == 345876451382054080
    ensures Literal(95, 100) == 1095275429376504576
  {
    StepLiterals();
    ThresholdLiterals();
  }

  lemma StepLiterals()
    ensures Literal(1, 2) == 576460752303423488
    ensures Literal(2, 10) == 230584300921369408
    ensures Literal(1, 10) == 115292150460684704
    ensures Literal(15, 100) == 172938225691027040
    ensures Literal(5, 100) == 57646075230342352
  {
  }

  lemma ThresholdLiterals()
    ensures Literal(25, 100) == 288230376151711744
    ensures Literal(7, 10) == 807045053224792832
    ensures Literal(3, 10) == 345876451382054080
    ensures Literal(95, 100) == 1095275429376504576
  {
  }

  /** `x + y` on doubles: the exact sum, rounded once. */
  function Add(x: int, y: int): int
  {
    RoundNearest(x + y, 1)
  }

  function Max(x: int, y: int): int { if x >= y then x else y }
  function Min(x: int, y: int): int { if x <= y then x else y }

  /** The statements of the source, in order, on doubles. */
  function AfterCitation(f: Flags): int
  {
    Add(Literal(1, 2), if f.citation then Literal(2, 10) else -Literal(1, 10))
  }

  function AfterNumerical(f: Flags): int
  {
    Add(AfterCitation(f), if f.numerical then Literal(15, 100) else -Literal(5, 100))
  }

  function AfterEmotional(f: Flags): int
  {
    Add(AfterNumerical(f), -(if f.emotional then Literal(25, 100) else 0))
  }

  /** `Math.min(Math.max(base, 0.05), 0.95)` on doubles. */
  function AsWrittenProbability(f: Flags): int
  {
    Min(Max(AfterEmotional(f), Literal(5, 100)), Literal(95, 100))
  }

  /** The verdict tier of a double, compared against the doubles 0.7 and 0.3. */
  function DoubleTier(d: int): Tier
  {
    if d > Literal(7, 10) then High else if d > Literal(3, 10) then Middle else Low
  }

  /** The value after each statement, for each combination of flags. */
  lemma CitationTrace(f: Flags)
    ensures AfterCitation(f) == if f.citation then 807045053224792832 else 461168601842738816
  {
    StepLiterals();
    CitationSteps();
  }

  /** The first statement's two cases. */
  lemma CitationSteps()
    ensures Add(576460752303423488, 230584300921369408) == 807045053224792832
    ensures Add(576460752303423488, -115292150460684704) == 461168601842738816
  {
  }

  lemma NumericalTrace(f: Flags)
    ensures AfterNumerical(f) ==
      if f.citation then
        (if f.numerical then 979983278915819904 else 749398977994450432)
      else
        (if f.numerical then 634106827533765888 else 403522526612396480)
  {
    StepLiterals();
    CitationTrace(f);
    NumericalSteps();
  }

  /** The second statement's additions, evaluated one by one. */
  lemma NumericalSteps()
    ensures Add(807045053224792832, 172938225691027040) == 979983278915819904
    ensures Add(807045053224792832, -57646075230342352) == 749398977994450432
    ensures Add(461168601842738816, 172938225691027040) == 634106827533765888
    ensures Add(461168601842738816, -57646075230342352) == 403522526612396480
  {
    assert Spacing(979983278915819872, 1) == 128;
    assert Spacing(749398977994450480, 1) == 128;
    assert Spacing(634106827533765856, 1) == 128;
    assert Spacing(403522526612396464, 1) == 64;
  }

  /** The last statement's subtractions of 0.25, evaluated one by one. */
  lemma QuarterSteps()
    ensures Add(979983278915819904, -288230376151711744) == 691752902764108160
    ensures Add(749398977994450432, -288230376151711744) == 461168601842738688
    ensures Add(634106827533765888, -288230376151711744) == 345876451382054144
    ensures Add(403522526612396480, -288230376151711744) == 115292150460684736
  {
    HighQuarterSteps();
    LowQuarterSteps();
  }

  lemma HighQuarterSteps()
    ensures Add(979983278915819904, -288230376151711744) == 691752902764108160
    ensures Add(749398977994450432, -288230376151711744) == 461168601842738688
  {
  }

  lemma LowQuarterSteps()
    ensures Add(634106827533765888, -288230376151711744) == 345876451382054144
    ensures Add(403522526612396480, -288230376151711744) == 115292150460684736
  {
  }

  /** Subtracting 0 leaves each reachable double unchanged. */
  lemma ZeroSteps()
    ensures Add(979983278915819904, 0) == 979983278915819904
    ensures Add(749398977994450432, 0) == 749398977994450432
    ensures Add(634106827533765888, 0) == 634106827533765888
    ensures Add(403522526612396480, 0) == 403522526612396480
  {
    HighZeroSteps();
    LowZeroSteps();
  }

  lemma HighZeroSteps()
    ensures Add(979983278915819904, 0) == 979983278915819904
    ensures Add(749398977994450432, 0) == 749398977994450432
  {
    assert Add(979983278915819904, 0) == 979983278915819904 by {
      assert Spacing(979983278915819904, 1) == 128;
    }
    assert Add(749398977994450432, 0) == 749398977994450432 by {
      assert Spacing(749398977994450432, 1) == 128;
    }
  }

  lemma LowZeroSteps()
    ensures Add(634106827533765888, 0) == 634106827533765888
    ensures Add(403522526612396480, 0) == 403522526612396480
  {
    assert Add(634106827533765888, 0) == 634106827533765888 by {
      assert Spacing(634106827533765888, 1) == 128;
    }
    assert Add(403522526612396480, 0) == 403522526612396480 by {
      assert Spacing(403522526612396480, 1) == 64;
    }
  }

  lemma EmotionalTrace(f: Flags)
    ensures AfterEmotional(f) ==
      if f.citation then
        (if f.numerical then
           (if f.emotional then 691752902764108160 else 979983278915819904)
         else
           (if f.emotional then 461168601842738688 else 749398977994450432))
      else
        (if f.numerical then
           (if f.emotional then 345876451382054144 else 634106827533765888)
         else
           (if f.emotional then 115292150460684736 else 403522526612396480))
  {
    LiteralValues();
    NumericalTrace(f);
    QuarterSteps();
    ZeroSteps();
  }

  /** Every value the computation passes through is in [2^-8, 2), where the
      spacing table is exact. */
  lemma IntermediatesInRange(f: Flags)
    ensures Unit / 256 <= AfterCitation(f) < 2 * Unit
    ensures Unit / 256 <= AfterNumerical(f) < 2 * Unit
    ensures Unit / 256 <= AfterEmotional(f) < 2 * Unit
  {
    EmotionalTrace(f);
    NumericalTrace(f);
    CitationTrace(f);
  }

  /** As written, the no-citation, numerical, emotional case evaluates to
      0.30000000000000004, one spacing above the double 0.3, and is classed
      "Uncertain"; the exact arithmetic gives 0.30 and "Likely Fake". */
  lemma AsWrittenBoundaryCase()
    ensures AsWrittenProbability(Flags(true, false, true)) == Literal(3, 10) + 64
    ensures DoubleTier(AsWrittenProbability(Flags(true, false, true))) == Middle
    ensures Scoring.Score(Flags(true, false, true)) == 30
    ensures TierOf(Scoring.Probability(Flags(true, false, true))) == Low
  {
    LiteralValues();
    EmotionalTrace(Flags(true, false, true));
  }

  /** In every other case the double evaluation lands in the same tier as the
      exact one, and the clamp is inactive either way. */
  lemma AsWrittenAgreesElsewhere(f: Flags)
    requires f != Flags(true, false, true)
    ensures DoubleTier(AsWrittenProbability(f)) == TierOf(Scoring.Probability(f))
    ensures AsWrittenProbability(f) == AfterEmotional(f)
  {
    LiteralValues();
    EmotionalTrace(f);
  }

  /** The verdict the page shows, as written: "Likely Authentic" exactly for a
      cited, numerical, calm text, and "Likely Fake" exactly for an emotional
      text with neither a citation nor numbers; an emotional text with
      numbers but no citation lands in "Uncertain". */
  lemma AsWrittenVerdict(f: Flags)
    ensures var t := DoubleTier(AsWrittenProbability(f));
      && (t == High <==> f.citation && f.numerical && !f.emotional)
      && (t == Low <==> f.emotional && !f.citation && !f.numerical)
  {
    if f == Flags(true, false, true) {
      AsWrittenBoundaryCase();
    } else {
      AsWrittenAgreesElsewhere(f);
    }
  }
}
