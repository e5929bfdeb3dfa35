/**
  The analyzer component as a state machine over `(text, isAnalyzing,
  result)`. The two-second timer is one atomic completion event; its ten
  `Math.random()` values are the event's payload. The component renders its
  result inline with its own verdict helpers; the model shows that this gives
  the same summary and rows as the result tabs.
 */
module NewsAnalyzer {
  import opened Optional
  import opened Strings
  import opened Tiers
  import opened Verdicts
  import opened Analysis
  import ResultTabs
  import Format

  /** The values the completion draws, in evaluation order: the probability,
      four factor scores, then the five node probabilities. */
  type MockDraws = s: seq<Draw> | |s| == 10
    witness [0.0, 0.0, 0.0, 0.0, 0.0, 0.0, 0.0, 0.0, 0.0, 0.0]

  datatype Analyzer = Analyzer(text: string, isAnalyzing: bool, result: Option<AnalysisResult>)

  /** The destructive "Empty Input" notification. */
  datatype Toast = EmptyInputToast

  const Initial: Analyzer := Analyzer("", false, None)

  const MockFactorNames: seq<string> :=
    ["Source Credibility", "Language Analysis", "Factual Consistency", "Emotional Content"]
  const MockNodeLabels: seq<string> := ["Source", "Language", "Facts", "Emotion", "Verdict"]

  /** The mock result the completion stores. */
  function MockResult(d: MockDraws): (r: AnalysisResult)
    ensures r.probability == d[0]
    ensures |r.factors| == 4 && forall k :: 0 <= k < 4 ==> r.factors[k].name == MockFactorNames[k]
    ensures 0.2 <= r.factors[0].score < 1.0 && 0.1 <= r.factors[1].score < 0.9
    ensures 0.3 <= r.factors[2].score < 1.0 && 0.0 <= r.factors[3].score < 0.5
    ensures |r.nodes| == 5
    ensures forall k :: 0 <= k < 5 ==>
      && r.nodes[k].id == NodeIds[k] && r.nodes[k].caption == MockNodeLabels[k]
      && r.nodes[k].probability == d[k + 5]
    ensures |r.edges| == 4 && forall k :: 0 <= k < 4 ==> r.edges[k] == Edge(NodeIds[k], "n5")
  {
    AnalysisResult(
      d[0],
      [ Factor("Source Credibility", Scaled(d[1], 0.8, 0.2)),
        Factor("Language Analysis", Scaled(d[2], 0.8, 0.1)),
        Factor("Factual Consistency", Scaled(d[3], 0.7, 0.3)),
        Factor("Emotional Content", Scaled(d[4], 0.5, 0.0)) ],
      [ EvidenceNode("n1", "Source", 100, 100, d[5]),
        EvidenceNode("n2", "Language", 200, 80, d[6]),
        EvidenceNode("n3", "Facts", 180, 180, d[7]),
        EvidenceNode("n4", "Emotion", 100, 220, d[8]),
        EvidenceNode("n5", "Verdict", 300, 150, d[9]) ],
      [ Edge("n1", "n5"), Edge("n2", "n5"), Edge("n3", "n5"), Edge("n4", "n5") ])
  }

  /** The mock graph is a star into n5 whose every edge resolves. */
  lemma MockGraphIsStar(d: MockDraws)
    ensures var r := MockResult(d);
      && DistinctIds(r.nodes)
      && EdgesResolve(r)
      && (forall e :: e in r.edges ==> e.to == r.nodes[4].id && e.from != r.nodes[4].id)
  {
    StarShape(MockResult(d));
  }

  /** `analyzeNews`: blank text (empty after `trim()`) is refused with a
      notification and changes nothing; otherwise the analysis starts and the
      previous result stays until completion. */
  function AnalyzeNews(a: Analyzer): (out: (Analyzer, Option<Toast>))
    ensures IsBlank(a.text) ==> out == (a, Some(EmptyInputToast))
    ensures !IsBlank(a.text) ==> out == (Analyzer(a.text, true, a.result), None)
  {
    TrimEmptyIffBlank(a.text);
    if Trim(a.text) == "" then (a, Some(EmptyInputToast))
    else (a.(isAnalyzing := true), None)
  }

  /** The timer callback: store the mock result and stop analysing. */
  function Complete(a: Analyzer, d: MockDraws): (b: Analyzer)
    ensures b.text == a.text && !b.isAnalyzing && b.result == Some(MockResult(d))
  {
    a.(result := Some(MockResult(d)), isAnalyzing := false)
  }

  /** `resetAnalysis`: clears text and result, and leaves `isAnalyzing` alone. */
  function ResetAnalysis(a: Analyzer): (b: Analyzer)
    ensures b.text == "" && b.result.None? && b.isAnalyzing == a.isAnalyzing
  {
    a.(text := "", result := None)
  }

  /** Both footer buttons: disabled while analysing or while the text is empty. */
  predicate ButtonsEnabled(a: Analyzer)
  {
    !(a.isAnalyzing || a.text == "")
  }

  predicate TextareaEnabled(a: Analyzer)
  {
    !a.isAnalyzing
  }

  /** What the user and the timer can do. */
  datatype Event = Edit(newText: string) | ClickAnalyze | ClickReset | TimerFires(draws: MockDraws)

  /** One event. A disabled control ignores its event, and the timer only
      fires while an analysis is pending. */
  function Step(a: Analyzer, e: Event): (out: (Analyzer, Option<Toast>))
    ensures out.1.Some? ==> e.ClickAnalyze? && ButtonsEnabled(a) && IsBlank(a.text)
    ensures a.isAnalyzing && !e.TimerFires? ==> out.0 == a
    ensures out.0.text != a.text ==> !a.isAnalyzing
  {
    match e
    case Edit(t) => (if TextareaEnabled(a) then a.(text := t) else a, None)
    case ClickAnalyze => if ButtonsEnabled(a) then AnalyzeNews(a) else (a, None)
    case ClickReset => (if ButtonsEnabled(a) then ResetAnalysis(a) else a, None)
    case TimerFires(d) => (if a.isAnalyzing then Complete(a, d) else a, None)
  }

  /** An analysis in progress always concerns non-blank text. */
  predicate Valid(a: Analyzer)
  {
    a.isAnalyzing ==> !IsBlank(a.text)
  }

  /** The page opens with empty text and no analysis running. */
  lemma InitialValid()
    ensures Valid(Initial) && !ButtonsEnabled(Initial) && TextareaEnabled(Initial)
  {
  }

  lemma StepPreservesValid(a: Analyzer, e: Event)
    requires Valid(a)
    ensures Valid(Step(a, e).0)
  {
  }

  function Run(a: Analyzer, events: seq<Event>): Analyzer
    decreases |events|
  {
    if |events| == 0 then a else Run(Step(a, events[0]).0, events[1..])
  }

  /** Every reachable state is valid. */
  lemma {:induction false} RunPreservesValid(a: Analyzer, events: seq<Event>)
    requires Valid(a)
    ensures Valid(Run(a, events))
    decreases |events|
  {
    if |events| > 0 {
      StepPreservesValid(a, events[0]);
      RunPreservesValid(Step(a, events[0]).0, events[1..]);
    }
  }

  /** Whitespace-only text enables the Analyze button, yet the click is
      refused by the trim guard. */
  lemma WhitespaceEnablesButIsRefused(a: Analyzer)
    requires !a.isAnalyzing && a.text != "" && IsBlank(a.text)
    ensures ButtonsEnabled(a)
    ensures Step(a, ClickAnalyze) == (a, Some(EmptyInputToast))
  {
  }

  /** A click on an enabled Analyze button with non-blank text, followed by
      the timer, leaves the text and the new result. */
  lemma AnalyzeThenComplete(a: Analyzer, d: MockDraws)
    requires ButtonsEnabled(a) && !IsBlank(a.text)
    ensures Run(a, [ClickAnalyze, TimerFires(d)]) == Analyzer(a.text, false, Some(MockResult(d)))
  {
    var b := Analyzer(a.text, true, a.result);
    assert Step(a, ClickAnalyze).0 == b by {
      assert AnalyzeNews(a) == (b, None);
    }
    assert Step(b, TimerFires(d)).0 == Complete(b, d);
    RunTwo(a, ClickAnalyze, TimerFires(d));
  }

  lemma RunTwo(a: Analyzer, e1: Event, e2: Event)
    ensures Run(a, [e1, e2]) == Step(Step(a, e1).0, e2).0
  {
    assert [e1, e2] == [e1] + [e2];
    RunCons(a, e1, [e2]);
    RunCons(Step(a, e1).0, e2, []);
  }

  lemma RunCons(a: Analyzer, e: Event, rest: seq<Event>)
    ensures Run(a, [e] + rest) == Run(Step(a, e).0, rest)
  {
    assert ([e] + rest)[1..] == rest;
  }

  /** The summary and rows the analyzer renders inline, from `getVerdict`,
      `getVerdictColor`, `getVerdictIcon` and its own bar tiers. */
  function InlineSummary(r: AnalysisResult): (s: ResultTabs.Summary)
    ensures var t := TierOf(r.probability);
      s.icon == IconOf(t) && s.color == HueOf(t) && s.verdict == Label(t)
  {
    ResultTabs.Summary(GetVerdictIcon(r.probability), GetVerdictColor(r.probability), GetVerdict(r.probability))
  }

  function InlineRows(factors: seq<Factor>): (rows: seq<ResultTabs.FactorRow>)
    ensures |rows| == |factors|
  {
    seq(|factors|, k requires 0 <= k < |factors| =>
      ResultTabs.FactorRow(factors[k].name, Format.ToFixed(factors[k].score * 100.0, 0) + "%",
        BarHue(factors[k].score)))
  }

  /** The inline rendering and the result tabs show the same summary and the
      same rows for every result. */
  lemma InlineMatchesTabs(r: AnalysisResult)
    ensures var v := ResultTabs.Render(Some(r)).value;
      InlineSummary(r) == v.summary && InlineRows(r.factors) == v.rows
  {
    VerdictDetailsAgree(r.probability);
    var rows, expected := InlineRows(r.factors), ResultTabs.Rows(r.factors);
    assert forall k :: 0 <= k < |rows| ==> rows[k] == expected[k];
  }
}
