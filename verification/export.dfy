/**
  `generateAnalysisSummary`: the plain-text report. The template literal is
  the '\n'-join of its lines; the analysed text and the factor block are
  spliced in unchanged, so they may span several lines. The timestamp of
  `new Date().toLocaleString()` is a parameter.
 */
module Export {
  import opened Format
  import opened Analysis
  import Scoring
  import Detectors
  import Strings

  /** `s` holds no separator `sep`. */
  predicate NoSep<T(==)>(s: seq<T>, sep: T)
  {
    sep !in s
  }

  /** `s.split(sep)` for a one-element separator. */
  function SplitOn<T(==)>(s: seq<T>, sep: T): (r: seq<seq<T>>)
    ensures |r| >= 1
    decreases |s|
  {
    if |s| == 0 then [[]]
    else
      var rest := SplitOn(s[1..], sep);
      if s[0] == sep then [[]] + rest
      else [[s[0]] + rest[0]] + rest[1..]
  }

  /** `pieces.join(sep)`. */
  function JoinOn<T>(pieces: seq<seq<T>>, sep: T): seq<T>
  {
    if |pieces| == 0 then []
    else if |pieces| == 1 then pieces[0]
    else pieces[0] + [sep] + JoinOn(pieces[1..], sep)
  }

  /** How a split begins: one element at a time. */
  lemma SplitCons<T>(x: T, t: seq<T>, sep: T)
    ensures var rest := SplitOn(t, sep);
      SplitOn([x] + t, sep) == if x == sep then [[]] + rest else [[x] + rest[0]] + rest[1..]
  {
    assert ([x] + t)[1..] == t;
  }

  lemma ConsFirst<T>(x: T, left: seq<seq<T>>, right: seq<seq<T>>)
    requires |left| >= 1
    ensures var rest := left + right;
      [[x] + rest[0]] + rest[1..] == ([[x] + left[0]] + left[1..]) + right
  {
    var rest := left + right;
    assert rest[0] == left[0];
    assert rest[1..] == left[1..] + right;
  }

  /** No piece of a split holds the separator. */
  lemma {:induction false} SplitPiecesHaveNoSep<T>(s: seq<T>, sep: T)
    ensures forall k :: 0 <= k < |SplitOn(s, sep)| ==> NoSep(SplitOn(s, sep)[k], sep)
    decreases |s|
  {
    if |s| > 0 {
      SplitPiecesHaveNoSep(s[1..], sep);
      assert s == [s[0]] + s[1..];
      SplitCons(s[0], s[1..], sep);
    }
  }

  /** Joining the pieces of a split gives the sequence back. */
  lemma {:induction false} JoinSplit<T>(s: seq<T>, sep: T)
    ensures JoinOn(SplitOn(s, sep), sep) == s
    decreases |s|
  {
    if |s| > 0 {
      var x, t := s[0], s[1..];
      assert s == [x] + t;
      JoinSplit(t, sep);
      SplitCons(x, t, sep);
      var rest := SplitOn(t, sep);
      if x == sep {
        assert JoinOn([[]] + rest, sep) == [] + [sep] + JoinOn(rest, sep);
      } else if |rest| == 1 {
        assert JoinOn([[x] + rest[0]] + rest[1..], sep) == [x] + rest[0];
      } else {
        assert JoinOn(rest, sep) == rest[0] + [sep] + JoinOn(rest[1..], sep);
        assert JoinOn([[x] + rest[0]] + rest[1..], sep) == [x] + rest[0] + [sep] + JoinOn(rest[1..], sep);
      }
    }
  }

  /** Splitting at a separator splits both sides. */
  lemma {:induction false} SplitAppend<T>(a: seq<T>, sep: T, b: seq<T>)
    ensures SplitOn(a + [sep] + b, sep) == SplitOn(a, sep) + SplitOn(b, sep)
    decreases |a|
  {
    if |a| == 0 {
      assert a + [sep] + b == [sep] + b;
      SplitCons(sep, b, sep);
    } else {
      var x, t := a[0], a[1..];
      assert a == [x] + t;
      SplitAppend(t, sep, b);
      SplitAppendCons(x, t, sep, b);
    }
  }

  lemma SplitAppendCons<T>(x: T, t: seq<T>, sep: T, b: seq<T>)
    requires SplitOn(t + [sep] + b, sep) == SplitOn(t, sep) + SplitOn(b, sep)
    ensures SplitOn([x] + t + [sep] + b, sep) == SplitOn([x] + t, sep) + SplitOn(b, sep)
  {
    assert [x] + t + [sep] + b == [x] + (t + [sep] + b);
    var left, right := SplitOn(t, sep), SplitOn(b, sep);
    if x != sep {
      assert SplitOn([x] + (t + [sep] + b), sep) == [[x] + (left + right)[0]] + (left + right)[1..] by {
        SplitCons(x, t + [sep] + b, sep);
      }
      assert SplitOn([x] + t, sep) == [[x] + left[0]] + left[1..] by {
        SplitCons(x, t, sep);
      }
      ConsFirst(x, left, right);
    } else {
      assert SplitOn([x] + (t + [sep] + b), sep) == [[]] + (left + right) by {
        SplitCons(x, t + [sep] + b, sep);
      }
      assert SplitOn([x] + t, sep) == [[]] + left by {
        SplitCons(x, t, sep);
      }
      assert [[]] + (left + right) == ([[]] + left) + right;
    }
  }

  /** A piece without a separator splits into itself. */
  lemma {:induction false} SplitSingle<T>(s: seq<T>, sep: T)
    requires NoSep(s, sep)
    ensures SplitOn(s, sep) == [s]
    decreases |s|
  {
    if |s| > 0 {
      SplitSingle(s[1..], sep);
      assert s == [s[0]] + s[1..];
      SplitCons(s[0], s[1..], sep);
    }
  }

  /** The pieces of every element, in order. */
  function SplitAll<T(==)>(pieces: seq<seq<T>>, sep: T): seq<seq<T>>
  {
    if |pieces| == 0 then [] else SplitOn(pieces[0], sep) + SplitAll(pieces[1..], sep)
  }

  lemma {:induction false} SplitAllAppend<T>(a: seq<seq<T>>, b: seq<seq<T>>, sep: T)
    ensures SplitAll(a + b, sep) == SplitAll(a, sep) + SplitAll(b, sep)
  {
    if |a| > 0 {
      SplitAllAppend(a[1..], b, sep);
      assert (a + b)[1..] == a[1..] + b;
      assert (a + b)[0] == a[0];
    } else {
      assert a + b == b;
    }
  }

  lemma {:induction false} SplitAllSingle<T>(pieces: seq<seq<T>>, sep: T)
    requires forall k :: 0 <= k < |pieces| ==> NoSep(pieces[k], sep)
    ensures SplitAll(pieces, sep) == pieces
  {
    if |pieces| > 0 {
      SplitSingle(pieces[0], sep);
      SplitAllSingle(pieces[1..], sep);
      assert pieces == [pieces[0]] + pieces[1..];
    }
  }

  /** Splitting a join splits each joined element. */
  lemma {:induction false} SplitJoinAll<T>(pieces: seq<seq<T>>, sep: T)
    requires |pieces| >= 1
    ensures SplitOn(JoinOn(pieces, sep), sep) == SplitAll(pieces, sep)
  {
    if |pieces| == 1 {
      assert SplitAll(pieces, sep) == SplitOn(pieces[0], sep) + SplitAll([], sep);
    } else {
      SplitJoinAll(pieces[1..], sep);
      SplitAppend(pieces[0], sep, JoinOn(pieces[1..], sep));
    }
  }

  /** Splitting the join of separator-free pieces gives them back. */
  lemma SplitJoin<T>(pieces: seq<seq<T>>, sep: T)
    requires |pieces| >= 1
    requires forall k :: 0 <= k < |pieces| ==> NoSep(pieces[k], sep)
    ensures SplitOn(JoinOn(pieces, sep), sep) == pieces
  {
    SplitJoinAll(pieces, sep);
    SplitAllSingle(pieces, sep);
  }

  predicate SingleLine(s: string)
  {
    NoSep(s, '\n')
  }

  /** `s.split('\n')`. */
  function Split(s: string): seq<string>
  {
    SplitOn(s, '\n')
  }

  /** `lines.join('\n')`. */
  function Join(lines: seq<string>): string
  {
    JoinOn(lines, '\n')
  }

  /** One line of the factor block: `- <name>: <score, one decimal>%`. */
  function FactorLine(f: Factor): string
  {
    "- " + f.name + ": " + ToFixed(f.score * 100.0, 1) + "%"
  }

  function FactorLines(factors: seq<Factor>): (lines: seq<string>)
    ensures |lines| == |factors|
    ensures forall k :: 0 <= k < |factors| ==> lines[k] == FactorLine(factors[k])
  {
    if |factors| == 0 then [] else [FactorLine(factors[0])] + FactorLines(factors[1..])
  }

  const HeaderLines: seq<string> := [
    "",
    "News or Nonsense? Analysis Report",
    "================================",
    "",
    "Analyzed Content:",
    "----------------"]

  function ResultLines(verdict: string, score: string): seq<string>
  {
    [ "",
      "Analysis Results:",
      "----------------",
      "Verdict: " + verdict,
      "Authenticity Score: " + score + "%",
      "",
      "Contributing Factors:",
      "-------------------" ]
  }

  function TrailerLines(nodeCount: string, date: string): seq<string>
  {
    [ "",
      "Network Analysis:",
      "----------------",
      "The Bayesian network analysis considered " + nodeCount + " different factors",
      "and their relationships to " + "determine the final verdict.",
      "",
      "Generated on: " + date,
      "" ]
  }

  /** `generateAnalysisSummary(newsText, result)`, stamped with `date`. */
  /** `generateAnalysisSummary(newsText, result)`, stamped with `date`. */
  function GenerateAnalysisSummary(newsText: string, r: AnalysisResult, date: string): string
  {
    var verdict := GetVerdictDetails(r.probability).verdict;
    var score := ToFixed(r.probability * 100.0, 1);
    Join(HeaderLines + [newsText] + ResultLines(verdict, score)
      + [Join(FactorLines(r.factors))] + TrailerLines(NatToString(|r.nodes|), date))
  }

  /** Whatever the text, the factors and the date contain, the report opens
      with the heading and the text exactly as given, and closes with the date
      line and a final line break. */
  lemma ReportFrame(newsText: string, r: AnalysisResult, date: string)
    ensures var s, head := GenerateAnalysisSummary(newsText, r, date), Join(HeaderLines) + "\n" + newsText + "\n";
      |head| <= |s| && s[..|head|] == head
    ensures var s, dateLine := GenerateAnalysisSummary(newsText, r, date), "Generated on: " + date;
      var last := "\n" + dateLine + "\n";
      |last| <= |s| && s[|s| - |last|..] == last
  {
    var verdict, score := GetVerdictDetails(r.probability).verdict, ToFixed(r.probability * 100.0, 1);
    var block, nodeCount := Join(FactorLines(r.factors)), NatToString(|r.nodes|);
    assert GenerateAnalysisSummary(newsText, r, date)
      == Join(HeaderLines + [newsText] + ResultLines(verdict, score) + [block] + TrailerLines(nodeCount, date));
    SummaryFrame(newsText, verdict, score, block, nodeCount, date);
  }

  lemma SummaryFrame(newsText: string, verdict: string, score: string, block: string, nodeCount: string, date: string)
    ensures var s := Join(HeaderLines + [newsText] + ResultLines(verdict, score) + [block] + TrailerLines(nodeCount, date));
      var opening := Join(HeaderLines) + "\n" + newsText + "\n";
      |opening| <= |s| && s[..|opening|] == opening
    ensures var s := Join(HeaderLines + [newsText] + ResultLines(verdict, score) + [block] + TrailerLines(nodeCount, date));
      var last := "\n" + ("Generated on: " + date) + "\n";
      |last| <= |s| && s[|s| - |last|..] == last
  {
    TrailerEnds(nodeCount, date);
    Framed(HeaderLines, newsText, ResultLines(verdict, score), block, TrailerLines(nodeCount, date), "Generated on: " + date);
  }

  lemma TrailerEnds(nodeCount: string, date: string)
    ensures var tail := TrailerLines(nodeCount, date);
      |tail| >= 2 && tail[|tail| - 2] == "Generated on: " + date && tail[|tail| - 1] == ""
  {
  }

  /** Lines `head`, then a free-form `text`, then the rest, ending in `x` and
      an empty line: the join begins with the head and the text as given, and
      ends with `x` and a line break. */
  lemma Framed(head: seq<string>, text: string, mid: seq<string>, block: string, tail: seq<string>, x: string)
    requires |head| >= 1 && |tail| >= 2 && tail[|tail| - 2] == x && tail[|tail| - 1] == ""
    ensures var s, opening := Join(head + [text] + mid + [block] + tail), Join(head) + "\n" + text + "\n";
      |opening| <= |s| && s[..|opening|] == opening
    ensures var s, last := Join(head + [text] + mid + [block] + tail), "\n" + x + "\n";
      |last| <= |s| && s[|s| - |last|..] == last
  {
    var lines := head + [text] + mid + [block] + tail;
    var k := |head| + 1;
    assert lines[..k] == head + [text];
    JoinStartsWith(lines, k);
    JoinAppend(head, [text], '\n');
    JoinEndsWith(lines, x);
  }

  /** The join of `lines` begins with the join of its first `k` lines and a
      line break. */
  lemma JoinStartsWith(lines: seq<string>, k: nat)
    requires 1 <= k < |lines|
    ensures var s, head := Join(lines), Join(lines[..k]) + "\n";
      |head| <= |s| && s[..|head|] == head
  {
    assert lines == lines[..k] + lines[k..];
    JoinPrefix(lines[..k], lines[k..]);
  }

  /** A join whose last two lines are `x` and the empty line ends with `x`
      between two line breaks. */
  lemma JoinEndsWith(lines: seq<string>, x: string)
    requires |lines| >= 3 && lines[|lines| - 2] == x && lines[|lines| - 1] == ""
    ensures var s, last := Join(lines), "\n" + x + "\n";
      |last| <= |s| && s[|s| - |last|..] == last
  {
    var early := lines[..|lines| - 2];
    assert lines == early + [x, ""];
    JoinSuffix(early, [x, ""]);
    JoinPair(x, "");
  }

  lemma JoinPair(x: string, y: string)
    ensures Join([x, y]) == x + "\n" + y
  {
    assert [x, y][1..] == [y];
    assert Join([x, y]) == x + ['\n'] + Join([y]);
  }

  /** The join of `a + b` begins with the join of `a` and a line break. */
  lemma JoinPrefix(a: seq<string>, b: seq<string>)
    requires |a| >= 1 && |b| >= 1
    ensures var s, head := Join(a + b), Join(a) + "\n";
      |head| <= |s| && s[..|head|] == head
  {
    JoinAppend(a, b, '\n');
  }

  /** The join of `a + b` ends with a line break and the join of `b`. */
  lemma JoinSuffix(a: seq<string>, b: seq<string>)
    requires |a| >= 1 && |b| >= 1
    ensures var s, last := Join(a + b), "\n" + Join(b);
      |last| <= |s| && s[|s| - |last|..] == last
  {
    JoinAppend(a, b, '\n');
  }

  /** Joining two non-empty runs of pieces puts one separator between them. */
  lemma {:induction false} JoinAppend<T>(a: seq<seq<T>>, b: seq<seq<T>>, sep: T)
    requires |a| >= 1 && |b| >= 1
    ensures JoinOn(a + b, sep) == JoinOn(a, sep) + [sep] + JoinOn(b, sep)
  {
    if |a| == 1 {
      assert (a + b)[1..] == b;
    } else {
      assert (a + b)[1..] == a[1..] + b;
      JoinAppend(a[1..], b, sep);
    }
  }

  /** The factor block as lines: one line per factor, or a single empty line
      when there is none. */
  function FactorBlock(factors: seq<Factor>): seq<string>
  {
    if |factors| == 0 then [""] else FactorLines(factors)
  }

  /** The lines of the report: the header, the lines of the text exactly as
      given, the verdict and score lines, one line per factor in order, and
      the trailer with the node count and the date. */
  lemma ReportLines(newsText: string, r: AnalysisResult, date: string)
    requires forall k :: 0 <= k < |r.factors| ==> SingleLine(r.factors[k].name)
    requires SingleLine(date)
    ensures var verdict, score := GetVerdictDetails(r.probability).verdict, ToFixed(r.probability * 100.0, 1);
      Split(GenerateAnalysisSummary(newsText, r, date))
        == HeaderLines + Split(newsText) + ResultLines(verdict, score)
          + FactorBlock(r.factors) + TrailerLines(NatToString(|r.nodes|), date)
  {
    ReportPieces(r, date);
    SectionsSplit(HeaderLines, newsText,
      ResultLines(GetVerdictDetails(r.probability).verdict, ToFixed(r.probability * 100.0, 1)),
      Join(FactorLines(r.factors)), TrailerLines(NatToString(|r.nodes|), date));
  }

  /** The fixed lines of a report hold no line break, and the factor block
      splits into its lines. */
  lemma ReportPieces(r: AnalysisResult, date: string)
    requires forall k :: 0 <= k < |r.factors| ==> SingleLine(r.factors[k].name)
    requires SingleLine(date)
    ensures AllSingle(HeaderLines)
    ensures AllSingle(ResultLines(GetVerdictDetails(r.probability).verdict, ToFixed(r.probability * 100.0, 1)))
    ensures AllSingle(TrailerLines(NatToString(|r.nodes|), date))
    ensures Split(Join(FactorLines(r.factors))) == FactorBlock(r.factors)
  {
    SingleLinesOfHeader();
    SingleLinesOfAnalysis(r.probability);
    SingleLinesOfCount(|r.nodes|, date);
    FactorBlockSplit(r.factors);
  }

  /** The factor block splits back into one line per factor. */
  lemma FactorBlockSplit(factors: seq<Factor>)
    requires forall k :: 0 <= k < |factors| ==> SingleLine(factors[k].name)
    ensures Split(Join(FactorLines(factors))) == FactorBlock(factors)
  {
    if |factors| > 0 {
      FactorLinesSingle(factors);
      SplitLines(FactorLines(factors));
    }
  }

  /** Lines without line breaks survive a join and a split. */
  lemma SplitLines(lines: seq<string>)
    requires |lines| >= 1 && forall k :: 0 <= k < |lines| ==> SingleLine(lines[k])
    ensures Split(Join(lines)) == lines
  {
    SplitJoin(lines, '\n');
  }

  lemma SingleLinesOfAnalysis(p: real)
    ensures AllSingle(ResultLines(GetVerdictDetails(p).verdict, ToFixed(p * 100.0, 1)))
  {
    VerdictSingle(p);
    ToFixedSingle(p * 100.0, 1);
    SingleLinesOfResult(GetVerdictDetails(p).verdict, ToFixed(p * 100.0, 1));
  }

  lemma SingleLinesOfCount(n: nat, date: string)
    requires SingleLine(date)
    ensures AllSingle(TrailerLines(NatToString(n), date))
  {
    DigitsSingle(NatToString(n));
    SingleLinesOfTrailer(NatToString(n), date);
  }

  predicate AllSingle(lines: seq<string>)
  {
    forall k :: 0 <= k < |lines| ==> SingleLine(lines[k])
  }

  /** Splitting a report built from fixed lines around two free-form parts. */
  lemma SectionsSplit(head: seq<string>, text: string, mid: seq<string>, block: string, tail: seq<string>)
    requires AllSingle(head) && AllSingle(mid) && AllSingle(tail)
    ensures Split(Join(head + [text] + mid + [block] + tail))
      == head + Split(text) + mid + Split(block) + tail
  {
    var a, b := head + [text], mid + [block] + tail;
    assert a + b == head + [text] + mid + [block] + tail;
    JoinedSplit(a, b);
    LeadingSplit(head, text);
    TrailingSplit(mid, block, tail);
  }

  lemma JoinedSplit(a: seq<string>, b: seq<string>)
    requires |a| >= 1
    ensures Split(Join(a + b)) == SplitAll(a, '\n') + SplitAll(b, '\n')
  {
    SplitJoinAll(a + b, '\n');
    SplitAllAppend(a, b, '\n');
  }

  lemma LeadingSplit(head: seq<string>, text: string)
    requires AllSingle(head)
    ensures SplitAll(head + [text], '\n') == head + Split(text)
  {
    SplitAllSingle(head, '\n');
    SplitAllAppend(head, [text], '\n');
    assert SplitAll([text], '\n') == Split(text) + SplitAll([], '\n');
  }

  lemma TrailingSplit(mid: seq<string>, block: string, tail: seq<string>)
    requires AllSingle(mid) && AllSingle(tail)
    ensures SplitAll(mid + [block] + tail, '\n') == mid + Split(block) + tail
  {
    LeadingSplit(mid, block);
    SplitAllSingle(tail, '\n');
    SplitAllAppend(mid + [block], tail, '\n');
  }

  lemma VerdictSingle(p: real)
    ensures SingleLine(GetVerdictDetails(p).verdict)
  {
  }

  lemma FactorLinesSingle(factors: seq<Factor>)
    requires forall k :: 0 <= k < |factors| ==> SingleLine(factors[k].name)
    ensures forall k :: 0 <= k < |factors| ==> SingleLine(FactorLines(factors)[k])
  {
    forall k | 0 <= k < |factors|
      ensures SingleLine(FactorLines(factors)[k])
    {
      FactorLineSingle(factors[k]);
    }
  }

  lemma FactorLineSingle(f: Factor)
    requires SingleLine(f.name)
    ensures SingleLine(FactorLine(f))
  {
    var n := ToFixed(f.score * 100.0, 1);
    assert SingleLine(n) by {
      ToFixedSingle(f.score * 100.0, 1);
    }
  }

  /** A formatted number holds no line break. */
  lemma ToFixedSingle(x: real, f: nat)
    ensures SingleLine(ToFixed(x, f))
  {
    var s := ToFixed(x, f);
    assert PointedLayout(WithoutSign(s), f) by {
      ToFixedRoundTrip(x, f);
    }
    PointedSingle(WithoutSign(s), f);
    SignedSingle(s);
  }

  /** Digits around a point hold no line break. */
  lemma PointedSingle(u: string, f: nat)
    requires PointedLayout(u, f)
    ensures SingleLine(u)
  {
    if f == 0 {
      DigitsSingle(u);
    } else {
      var k := |u| - f - 1;
      DigitsSingle(u[..k]);
      DigitsSingle(u[k + 1..]);
      assert u == u[..k] + [u[k]] + u[k + 1..];
    }
  }

  /** A sign adds no line break. */
  lemma SignedSingle(s: string)
    requires SingleLine(WithoutSign(s))
    ensures SingleLine(s)
  {
    if |s| > 0 && s[0] == '-' {
      assert s == [s[0]] + s[1..];
    }
  }

  lemma DigitsSingle(s: string)
    requires AllDigits(s)
    ensures SingleLine(s)
  {
    forall i | 0 <= i < |s|
      ensures s[i] != '\n'
    {
    }
  }

  lemma SingleLinesOfHeader()
    ensures AllSingle(HeaderLines)
  {
    assert SingleLine(HeaderLines[1]) by {
      TitleSingle();
    }
    assert SingleLine(HeaderLines[2]) by {
      RuleSingle();
    }
    assert SingleLine(HeaderLines[4]) && SingleLine(HeaderLines[5]);
  }

  lemma TitleSingle()
    ensures SingleLine("News or Nonsense? Analysis Report")
  {
  }

  lemma RuleSingle()
    ensures SingleLine("================================")
  {
  }

  lemma SingleLinesOfResult(verdict: string, score: string)
    requires SingleLine(verdict) && SingleLine(score)
    ensures AllSingle(ResultLines(verdict, score))
  {
  }

  lemma SingleLinesOfTrailer(nodeCount: string, date: string)
    requires SingleLine(nodeCount) && SingleLine(date)
    ensures AllSingle(TrailerLines(nodeCount, date))
  {
    var t := TrailerLines(nodeCount, date);
    assert SingleLine(t[3]) by {
      NetworkSentenceSingle(nodeCount);
    }
    assert SingleLine(t[4]) by {
      ClosingSentenceSingle();
    }
    assert SingleLine(t[1]) && SingleLine(t[2]) && SingleLine(t[6]);
  }

  lemma NetworkSentenceSingle(nodeCount: string)
    requires SingleLine(nodeCount)
    ensures SingleLine("The Bayesian network analysis considered " + nodeCount + " different factors")
  {
    assert SingleLine("The Bayesian network analysis considered ");
  }

  lemma ClosingSentenceSingle()
    ensures SingleLine("and their relationships to " + "determine the final verdict.")
  {
    assert SingleLine("and their relationships to ");
    assert SingleLine("determine the final verdict.");
  }

  /** For an analysed text the score line shows the integer score with one
      zero decimal: the probability is a whole number of hundredths. */
  lemma ScoreLineOfText(text: string)
    ensures var f := Detectors.FlagsOf(text);
      ToFixed(Scoring.Probability(f) * 100.0, 1) == NatToString(Scoring.Score(f)) + ".0"
  {
    var f := Detectors.FlagsOf(text);
    var k: nat := Scoring.Score(f);
    assert Scoring.Probability(f) * 100.0 == k as real;
    ToFixedWhole(k, 1);
    assert Zeros(1) == "0";
  }

  /** The report of an analysed text: its verdict is the tier label of the
      score, the score line is the integer score with ".0", there are five
      factor lines in the analyser's order and the node count reads 5. */
  lemma AnalysedReport(text: string, draws: seq<Draw>, date: string)
    requires |draws| == DrawCount
    requires SingleLine(date)
    ensures var f, r := Detectors.FlagsOf(text), AnalyzeNewsContent(text, draws);
      Split(GenerateAnalysisSummary(text, r, date))
        == HeaderLines + Split(text)
          + ResultLines(Verdicts.Label(Tiers.TierOf(r.probability)), NatToString(Scoring.Score(f)) + ".0")
          + FactorLines(r.factors) + TrailerLines("5", date)
  {
    var f, r := Detectors.FlagsOf(text), AnalyzeNewsContent(text, draws);
    assert forall k :: 0 <= k < |r.factors| ==> SingleLine(r.factors[k].name) by {
      FactorNamesSingle();
    }
    assert GetVerdictDetails(r.probability).verdict == Verdicts.Label(Tiers.TierOf(r.probability)) by {
      VerdictDetailsAgree(r.probability);
    }
    assert ToFixed(r.probability * 100.0, 1) == NatToString(Scoring.Score(f)) + ".0" by {
      ScoreLineOfText(text);
    }
    FilledReport(text, r, date, Verdicts.Label(Tiers.TierOf(r.probability)), NatToString(Scoring.Score(f)) + ".0");
  }

  /** `ReportLines` for a result with five nodes and at least one factor,
      with the verdict and score strings named. */
  lemma FilledReport(text: string, r: AnalysisResult, date: string, verdict: string, score: string)
    requires forall k :: 0 <= k < |r.factors| ==> SingleLine(r.factors[k].name)
    requires SingleLine(date) && |r.factors| > 0 && |r.nodes| == 5
    requires GetVerdictDetails(r.probability).verdict == verdict
    requires ToFixed(r.probability * 100.0, 1) == score
    ensures Split(GenerateAnalysisSummary(text, r, date))
      == HeaderLines + Split(text) + ResultLines(verdict, score) + FactorLines(r.factors) + TrailerLines("5", date)
  {
    ReportLines(text, r, date);
    assert NatToString(|r.nodes|) == "5";
  }

  lemma FactorNamesSingle()
    ensures forall k :: 0 <= k < |FactorNames| ==> SingleLine(FactorNames[k])
  {
    assert SingleLine(FactorNames[0]);
    assert SingleLine(FactorNames[1]);
    assert SingleLine(FactorNames[2]);
    assert SingleLine(FactorNames[3]);
    assert SingleLine(FactorNames[4]);
  }
}
