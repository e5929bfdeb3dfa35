/**
  The deterministic part of `analyzeNewsContent`: the base probability built
  from the three detector flags and clamped to [0.05, 0.95]. The arithmetic is
  kept exact, in integer hundredths; the IEEE-double evaluation the source
  actually performs is modelled separately in `DoubleScore`.
 */
module Scoring {
  import opened Strings
  import opened Detectors

  const Base: int := 50
  const ClampLow: int := 5
  const ClampHigh: int := 95

  /** Every score the heuristic can produce, in hundredths. */
  const ReachableScores: set<int> := {10, 30, 35, 40, 55, 60, 65, 85}

  /** The base probability before clamping, in hundredths. */
  function RawScore(f: Flags): (s: int)
    ensures ClampLow < 10 <= s <= 85 < ClampHigh && s % 5 == 0
  {
    Base
    + (if f.citation then 20 else -10)
    + (if f.numerical then 15 else -5)
    - (if f.emotional then 25 else 0)
  }

  /** `Math.min(Math.max(s, 0.05), 0.95)` in hundredths. */
  function Clamp(s: int): (c: int)
    ensures ClampLow <= c <= ClampHigh
    ensures ClampLow <= s <= ClampHigh ==> c == s
    ensures s < ClampLow ==> c == ClampLow
    ensures s > ClampHigh ==> c == ClampHigh
  {
    var lifted := if s > ClampLow then s else ClampLow;
    if lifted < ClampHigh then lifted else ClampHigh
  }

  /** The final probability in hundredths. It is always one of eight values,
      and the clamp never changes it. */
  function Score(f: Flags): (s: int)
    ensures s in ReachableScores
    ensures s == RawScore(f)
    ensures ClampLow < s < ClampHigh
  {
    Clamp(RawScore(f))
  }

  /** The final probability as a number in [0.05, 0.95]. */
  function Probability(f: Flags): (p: real)
    ensures 0.05 <= p <= 0.95
    ensures p * 100.0 == Score(f) as real
  {
    Score(f) as real / 100.0
  }

  /** Each of the eight scores is produced by exactly one flag combination. */
  lemma ScoresAreReachable(s: int)
    requires s in ReachableScores
    ensures exists f :: Score(f) == s
    ensures forall f, g :: Score(f) == s && Score(g) == s ==> f == g
  {
    if s == 10 { assert Score(Flags(true, false, false)) == s; }
    else if s == 30 { assert Score(Flags(true, false, true)) == s; }
    else if s == 35 { assert Score(Flags(false, false, false)) == s; }
    else if s == 40 { assert Score(Flags(true, true, false)) == s; }
    else if s == 55 { assert Score(Flags(false, false, true)) == s; }
    else if s == 60 { assert Score(Flags(true, true, true)) == s; }
    else if s == 65 { assert Score(Flags(false, true, false)) == s; }
    else { assert Score(Flags(false, true, true)) == s; }
  }

  /** Citations and numbers never lower the score; emotional language never raises it. */
  lemma ScoreMonotone(f: Flags, g: Flags)
    requires f.citation ==> g.citation
    requires f.numerical ==> g.numerical
    requires g.emotional ==> f.emotional
    ensures Score(f) <= Score(g)
  {
  }

  /** The deterministic probability of a text. */
  function TextScore(text: string): (s: int)
    ensures s in ReachableScores
  {
    Score(FlagsOf(text))
  }

  /** A shortest-form text with the given flags: "study " for a citation,
      "1% " for numerical data and "cure" for emotional language. */
  function Witness(f: Flags): string
  {
    (if f.citation then "study " else "")
    + (if f.numerical then "1% " else "")
    + (if f.emotional then "cure" else "")
  }

  /** Each piece trips exactly its own detector, so the witness has exactly
      the flags it was built from. */
  lemma WitnessHasFlags(f: Flags)
    ensures FlagsOf(Witness(f)) == f
  {
    WitnessCitation(f);
    WitnessNumerical(f);
    WitnessEmotional(f);
  }

  lemma WitnessCitation(f: Flags)
    ensures HasSourceCitation(Witness(f)) == f.citation
  {
    var rest := (if f.numerical then "1% " else "") + (if f.emotional then "cure" else "");
    if f.citation {
      assert Witness(f) == "study " + rest;
      StudyFirst(rest);
    } else {
      assert Witness(f) == rest;
      NoCitationWithout(rest);
    }
  }

  lemma StudyFirst(rest: string)
    ensures HasSourceCitation("study " + rest)
  {
    assert MatchesAt("study " + rest, 0, CitationKeywords[3]);
  }

  lemma WitnessNumerical(f: Flags)
    ensures HasNumericalData(Witness(f)) == f.numerical
  {
    if f.numerical {
      WitnessHasNumber(f);
    } else {
      var t := (if f.citation then "study " else "") + (if f.emotional then "cure" else "");
      assert Witness(f) == t;
      NoNumbersWithout(t);
    }
  }

  lemma WitnessHasNumber(f: Flags)
    requires f.numerical
    ensures DigitsThen(Witness(f), "%")
  {
    var t := Witness(f);
    var at := if f.citation then 6 else 0;
    assert t[at] == '1' && t[at + 1] == '%';
    assert DigitRun(t, at, at + 1);
    assert MatchesAt(t, at + 1, "%");
  }

  lemma WitnessEmotional(f: Flags)
    ensures HasEmotionalLanguage(Witness(f)) == f.emotional
  {
    var front := (if f.citation then "study " else "") + (if f.numerical then "1% " else "");
    if f.emotional {
      assert Witness(f) == front + "cure";
      CureLast(front);
    } else {
      assert Witness(f) == front;
      NotEmotionalWithout(front);
    }
  }

  lemma CureLast(front: string)
    ensures HasEmotionalLanguage(front + "cure")
  {
    assert MatchesAt(front + "cure", |front|, EmotionalKeywords[5]);
  }

  /** Every reachable score is the score of some text, so `ReachableScores`
      is exactly the range of `TextScore`. */
  lemma EveryScoreHasAText(s: int)
    requires s in ReachableScores
    ensures exists text :: TextScore(text) == s
  {
    ScoresAreReachable(s);
    var f :| Score(f) == s;
    WitnessHasFlags(f);
    assert TextScore(Witness(f)) == s;
  }
}
