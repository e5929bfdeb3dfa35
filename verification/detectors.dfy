/**
  The three content detectors of `analyzeNewsContent`: case-insensitive
  regular-expression tests for emotional language, a source citation and
  numerical data. A regular expression `/A|B|C/i` succeeds on a text exactly
  when one of its alternatives matches somewhere in it, so each detector is
  stated as a disjunction of per-alternative occurrence predicates.
 */
module Detectors {
  import opened Strings

  /** The detector outcomes for one text. */
  datatype Flags = Flags(emotional: bool, citation: bool, numerical: bool)

  const EmotionalKeywords: seq<string> :=
    ["exclaim", "urgent", "breaking", "shocking", "miracle", "cure", "secret", "conspiracy"]

  const CitationKeywords: seq<string> :=
    ["according to", "published by", "reported by", "study", "research", "professor", "expert", "official"]

  const StudyOf: string := "study of "

  predicate OccursAny(text: string, kws: seq<string>)
  {
    exists k :: 0 <= k < |kws| && Occurs(text, kws[k])
  }

  /** `text[i..j]` is a non-empty run of ASCII digits (`\d+`). */
  predicate DigitRun(text: string, i: int, j: int)
  {
    0 <= i < j <= |text| && forall k :: i <= k < j ==> IsDigit(text[k])
  }

  /** The alternative `\d+<suffix>` matches somewhere. */
  predicate DigitsThen(text: string, suffix: string)
  {
    exists i, j :: 0 <= i < j <= |text| && DigitRun(text, i, j) && MatchesAt(text, j, suffix)
  }

  /** The alternative `study of \d+` matches somewhere. */
  predicate StudyOfDigits(text: string)
  {
    exists k, j :: |StudyOf| <= k < j <= |text| && DigitRun(text, k, j) && MatchesAt(text, k - |StudyOf|, StudyOf)
  }

  /** `/exclaim|urgent|breaking|shocking|miracle|cure|secret|conspiracy/i` */
  predicate HasEmotionalLanguage(text: string)
  {
    OccursAny(text, EmotionalKeywords)
  }

  /** `/according to|published by|reported by|study|research|professor|expert|official/i` */
  predicate HasSourceCitation(text: string)
  {
    OccursAny(text, CitationKeywords)
  }

  /** `/\d+%|\d+ percent|statistics|survey|study of \d+/i` */
  predicate HasNumericalData(text: string)
  {
    || DigitsThen(text, "%")
    || DigitsThen(text, " percent")
    || Occurs(text, "statistics")
    || Occurs(text, "survey")
    || StudyOfDigits(text)
  }

  function FlagsOf(text: string): Flags
  {
    Flags(HasEmotionalLanguage(text), HasSourceCitation(text), HasNumericalData(text))
  }

  /** A single digit directly before `suffix`: what `\d+<suffix>` reduces to. */
  predicate DigitBefore(text: string, suffix: string)
  {
    exists i :: 0 <= i < |text| && IsDigit(text[i]) && MatchesAt(text, i + 1, suffix)
  }

  /** A digit run before a suffix exists exactly when its last digit is one. */
  lemma DigitsThenIffDigitBefore(text: string, suffix: string)
    ensures DigitsThen(text, suffix) <==> DigitBefore(text, suffix)
  {
    if DigitsThen(text, suffix) {
      var i, j :| 0 <= i < j <= |text| && DigitRun(text, i, j) && MatchesAt(text, j, suffix);
      assert i <= j - 1 < j;
      assert IsDigit(text[j - 1]);
      assert MatchesAt(text, (j - 1) + 1, suffix);
    }
    if DigitBefore(text, suffix) {
      var i :| 0 <= i < |text| && IsDigit(text[i]) && MatchesAt(text, i + 1, suffix);
      assert DigitRun(text, i, i + 1);
      assert 0 <= i < i + 1 <= |text|;
    }
  }

  /** `study of \d+` matches exactly when a digit follows some `study of `. */
  lemma StudyOfDigitsIffDigit(text: string)
    ensures StudyOfDigits(text) <==>
            exists k :: |StudyOf| <= k < |text| && IsDigit(text[k]) && MatchesAt(text, k - |StudyOf|, StudyOf)
  {
    if exists k :: |StudyOf| <= k < |text| && IsDigit(text[k]) && MatchesAt(text, k - |StudyOf|, StudyOf) {
      var k :| |StudyOf| <= k < |text| && IsDigit(text[k]) && MatchesAt(text, k - |StudyOf|, StudyOf);
      assert DigitRun(text, k, k + 1);
      assert |StudyOf| <= k < k + 1 <= |text|;
    }
    if StudyOfDigits(text) {
      var k, j :| |StudyOf| <= k < j <= |text| && DigitRun(text, k, j) && MatchesAt(text, k - |StudyOf|, StudyOf);
      assert IsDigit(text[k]);
    }
  }

  /** Every `study of N` match is also a `study` match, so it makes the
      citation detector fire as well. */
  lemma StudyOfNumberIsCitation(text: string)
    requires StudyOfDigits(text)
    ensures HasSourceCitation(text)
  {
    var k, j :| |StudyOf| <= k < j <= |text| && DigitRun(text, k, j) && MatchesAt(text, k - |StudyOf|, StudyOf);
    assert Occurs(text, StudyOf);
    OccursOfPiece(text, StudyOf, 0, 5);
    assert StudyOf[0..5] == CitationKeywords[3];
  }

  /** There are no word boundaries: "Secure" contains "cure". */
  lemma SecureIsEmotional()
    ensures HasEmotionalLanguage("Secure")
  {
    assert MatchesAt("Secure", 2, EmotionalKeywords[5]);
  }

  /** Adding text around an input never switches a detector off. */
  lemma FlagsMonotone(text: string, before: string, after: string)
    ensures HasEmotionalLanguage(text) ==> HasEmotionalLanguage(before + text + after)
    ensures HasSourceCitation(text) ==> HasSourceCitation(before + text + after)
    ensures HasNumericalData(text) ==> HasNumericalData(before + text + after)
  {
    var t := before + text + after;
    forall kws: seq<string>, k | 0 <= k < |kws| && Occurs(text, kws[k])
      ensures Occurs(t, kws[k])
    {
      OccursInContext(text, kws[k], before, after);
    }
    forall suffix: string | DigitsThen(text, suffix)
      ensures DigitsThen(t, suffix)
    {
      var i, j :| 0 <= i < j <= |text| && DigitRun(text, i, j) && MatchesAt(text, j, suffix);
      ShiftMatch(text, j, suffix, before, after);
      ShiftRun(text, i, j, before, after);
    }
    if StudyOfDigits(text) {
      var k, j :| |StudyOf| <= k < j <= |text| && DigitRun(text, k, j) && MatchesAt(text, k - |StudyOf|, StudyOf);
      ShiftMatch(text, k - |StudyOf|, StudyOf, before, after);
      ShiftRun(text, k, j, before, after);
      assert DigitRun(t, |before| + k, |before| + j);
    }
    if Occurs(text, "statistics") {
      OccursInContext(text, "statistics", before, after);
    }
    if Occurs(text, "survey") {
      OccursInContext(text, "survey", before, after);
    }
  }

  lemma ShiftMatch(text: string, i: int, kw: string, before: string, after: string)
    requires MatchesAt(text, i, kw)
    ensures MatchesAt(before + text + after, |before| + i, kw)
  {
    var t := before + text + after;
    forall j | 0 <= j < |kw|
      ensures Lower(t[|before| + i + j]) == kw[j]
    {
      assert t[|before| + i + j] == text[i + j];
    }
  }

  lemma ShiftRun(text: string, i: int, j: int, before: string, after: string)
    requires DigitRun(text, i, j)
    ensures DigitRun(before + text + after, |before| + i, |before| + j)
  {
    var t := before + text + after;
    forall k | |before| + i <= k < |before| + j
      ensures IsDigit(t[k])
    {
      assert t[k] == text[k - |before|];
    }
  }

  /** Every emotional keyword contains a `c` or an `e`, so a text with
      neither letter is not emotional. */
  lemma EmotionalNeedsLetter(text: string)
    requires HasEmotionalLanguage(text)
    ensures HasLetter(text, 'c') || HasLetter(text, 'e')
  {
    var k :| 0 <= k < |EmotionalKeywords| && Occurs(text, EmotionalKeywords[k]);
    var kw := EmotionalKeywords[k];
    var i :| 0 <= i <= |text| - |kw| && MatchesAt(text, i, kw);
    var j := [0, 3, 2, 3, 4, 0, 1, 0][k];
    MatchHasLetter(text, i, kw, j);
  }

  /** Every citation phrase contains an `s`, `o`, `a` or `p`. */
  lemma CitationNeedsLetter(text: string)
    requires HasSourceCitation(text)
    ensures HasLetter(text, 's') || HasLetter(text, 'o') || HasLetter(text, 'a') || HasLetter(text, 'p')
  {
    var k :| 0 <= k < |CitationKeywords| && Occurs(text, CitationKeywords[k]);
    var kw := CitationKeywords[k];
    var i :| 0 <= i <= |text| - |kw| && MatchesAt(text, i, kw);
    var j := [0, 0, 2, 0, 2, 0, 2, 0][k];
    MatchHasLetter(text, i, kw, j);
  }

  /** Every numerical alternative needs a `%`, `p`, `a`, `v` or `o`. */
  lemma NumericalNeedsLetter(text: string)
    requires HasNumericalData(text)
    ensures || HasLetter(text, '%') || HasLetter(text, 'p') || HasLetter(text, 'a')
            || HasLetter(text, 'v') || HasLetter(text, 'o')
  {
    if DigitsThen(text, "%") {
      SuffixHasLetter(text, "%", 0);
    } else if DigitsThen(text, " percent") {
      SuffixHasLetter(text, " percent", 1);
    } else if Occurs(text, "statistics") {
      OccursHasLetter(text, "statistics", 2);
    } else if Occurs(text, "survey") {
      OccursHasLetter(text, "survey", 3);
    } else {
      StudyOfHasLetter(text);
    }
  }

  lemma SuffixHasLetter(text: string, suffix: string, n: int)
    requires DigitsThen(text, suffix) && 0 <= n < |suffix|
    ensures HasLetter(text, suffix[n])
  {
    var i, j :| 0 <= i < j <= |text| && DigitRun(text, i, j) && MatchesAt(text, j, suffix);
    MatchHasLetter(text, j, suffix, n);
  }

  lemma OccursHasLetter(text: string, kw: string, n: int)
    requires Occurs(text, kw) && 0 <= n < |kw|
    ensures HasLetter(text, kw[n])
  {
    var i :| 0 <= i <= |text| - |kw| && MatchesAt(text, i, kw);
    MatchHasLetter(text, i, kw, n);
  }

  lemma StudyOfHasLetter(text: string)
    requires StudyOfDigits(text)
    ensures HasLetter(text, 'o')
  {
    var k, j :| |StudyOf| <= k < j <= |text| && DigitRun(text, k, j) && MatchesAt(text, k - |StudyOf|, StudyOf);
    MatchHasLetter(text, k - |StudyOf|, StudyOf, 6);
  }

  /** Texts lacking the letters a detector needs do not trip it. */
  lemma NotEmotionalWithout(text: string)
    requires Absent(text, 'c') && Absent(text, 'e')
    ensures !HasEmotionalLanguage(text)
  {
    if HasEmotionalLanguage(text) {
      EmotionalNeedsLetter(text);
      AbsentHasNoLetter(text, 'c');
      AbsentHasNoLetter(text, 'e');
      assert false;
    }
  }

  lemma NoCitationWithout(text: string)
    requires Absent(text, 's') && Absent(text, 'o') && Absent(text, 'a') && Absent(text, 'p')
    ensures !HasSourceCitation(text)
  {
    if HasSourceCitation(text) {
      CitationNeedsLetter(text);
      AbsentHasNoLetter(text, 's');
      AbsentHasNoLetter(text, 'o');
      AbsentHasNoLetter(text, 'a');
      AbsentHasNoLetter(text, 'p');
      assert false;
    }
  }

  lemma NoNumbersWithout(text: string)
    requires Absent(text, '%') && Absent(text, 'p') && Absent(text, 'a') && Absent(text, 'v') && Absent(text, 'o')
    ensures !HasNumericalData(text)
  {
    if HasNumericalData(text) {
      NumericalNeedsLetter(text);
      AbsentHasNoLetter(text, '%');
      AbsentHasNoLetter(text, 'p');
      AbsentHasNoLetter(text, 'a');
      AbsentHasNoLetter(text, 'v');
      AbsentHasNoLetter(text, 'o');
      assert false;
    }
  }

  /** Whether any keyword of `kws` occurs: one regular-expression test. */
  method ContainsAny(text: string, kws: seq<string>) returns (found: bool)
    ensures found <==> OccursAny(text, kws)
  {
    var k := 0;
    while k < |kws|
      invariant 0 <= k <= |kws|
      invariant forall m :: 0 <= m < k ==> !Occurs(text, kws[m])
    {
      var idx := IndexOf(text, kws[k]);
      if idx >= 0 {
        return true;
      }
      k := k + 1;
    }
    return false;
  }

  /** Whether some digit is directly followed by `suffix`. */
  method ContainsDigitBefore(text: string, suffix: string) returns (found: bool)
    ensures found <==> DigitsThen(text, suffix)
  {
    DigitsThenIffDigitBefore(text, suffix);
    var i := 0;
    while i < |text|
      invariant 0 <= i <= |text|
      invariant forall m :: 0 <= m < i ==> !(IsDigit(text[m]) && MatchesAt(text, m + 1, suffix))
    {
      if IsDigit(text[i]) && i + 1 + |suffix| <= |text| {
        var j := 0;
        while j < |suffix| && Lower(text[i + 1 + j]) == suffix[j]
          invariant 0 <= j <= |suffix|
          invariant forall m :: 0 <= m < j ==> Lower(text[i + 1 + m]) == suffix[m]
        {
          j := j + 1;
        }
        if j == |suffix| {
          assert MatchesAt(text, i + 1, suffix);
          return true;
        }
      }
      i := i + 1;
    }
    return false;
  }

  /** Whether a digit directly follows some `study of `. */
  method ContainsStudyOfDigit(text: string) returns (found: bool)
    ensures found <==> StudyOfDigits(text)
  {
    StudyOfDigitsIffDigit(text);
    var k := |StudyOf|;
    while k < |text|
      invariant |StudyOf| <= k
      invariant forall m :: |StudyOf| <= m < k && m < |text| ==>
                  !(IsDigit(text[m]) && MatchesAt(text, m - |StudyOf|, StudyOf))
    {
      if IsDigit(text[k]) {
        var j := 0;
        while j < |StudyOf| && Lower(text[k - |StudyOf| + j]) == StudyOf[j]
          invariant 0 <= j <= |StudyOf|
          invariant forall m :: 0 <= m < j ==> Lower(text[k - |StudyOf| + m]) == StudyOf[m]
        {
          j := j + 1;
        }
        if j == |StudyOf| {
          assert MatchesAt(text, k - |StudyOf|, StudyOf);
          return true;
        }
      }
      k := k + 1;
    }
    return false;
  }

  /** The three regular-expression tests of `analyzeNewsContent`, run in order. */
  method Detect(text: string) returns (f: Flags)
    ensures f == FlagsOf(text)
  {
    var emotional := ContainsAny(text, EmotionalKeywords);
    var citation := ContainsAny(text, CitationKeywords);
    var percentSign := ContainsDigitBefore(text, "%");
    var percentWord := ContainsDigitBefore(text, " percent");
    var idx := IndexOf(text, "statistics");
    var statistics := idx >= 0;
    idx := IndexOf(text, "survey");
    var survey := idx >= 0;
    var studyOf := ContainsStudyOfDigit(text);
    f := Flags(emotional, citation, percentSign || percentWord || statistics || survey || studyOf);
  }
}
