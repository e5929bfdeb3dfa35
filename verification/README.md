# News or Nonsense? — a verified model of the analysis core

"News or Nonsense?" (truth-teller-ai-network) is a React site. You paste in a
news text, and it returns an authenticity probability, a verdict, a set of
contributing factors and a small "Bayesian network" picture. The verdict is one of:

- Likely Authentic
- Uncertain
- Likely Fake

This project models the logic behind those screens in Dafny and proves what it
promises. The modelled parts are:

- **Detectors and score** (`src/utils/analysisUtils.ts`):
  - the three case-insensitive regular-expression detectors: emotional language, a source citation, numerical data;
  - the base-probability arithmetic and its clamp to [0.05, 0.95];
  - the factor scores and the five-node evidence graph of `analyzeNewsContent`;
  - `getVerdictDetails`.
- **The analyzer screen** (`src/components/NewsAnalyzer.tsx`):
  - a state machine over the text, the busy flag and the result;
  - the whitespace guard of `analyzeNews`, the timer completion and `resetAnalysis`;
  - when the buttons and the text area are enabled;
  - the verdict, colour and icon helpers, and the three colour tiers of the factor bars;
  - the mock result the screen builds.
- **The result tabs** (`src/components/news-analyzer/AnalysisResultTabs.tsx`): nothing is shown without a result, and the summary, factor rows and graph are shown for one.
- **The graph view** (`src/components/NetworkGraph.tsx`):
  - node fill colour and border;
  - resolution of edge endpoints by first match (`find`);
  - the percentage label of a node.
- **The export** (`src/utils/exportUtils.ts`): the text report of `generateAnalysisSummary`, line by line.

Modelling choices:

- **Probabilities.** They are exact `real` numbers. The deterministic score is kept in integer hundredths. A separate module, `DoubleScore`, replays the same arithmetic in IEEE-754 doubles and shows where the two differ (see Findings).
- **Randomness.** `Math.random()` becomes a sequence of draws in [0, 1), taken in the order the object literals evaluate them:
  - nine draws for `analyzeNewsContent`;
  - ten draws for the analyzer's own mock result.
- **Time.** The timer becomes one atomic completion event. The report date is a parameter.
- **Number formatting.** `toFixed` is modelled on exact values. The magnitude is rounded to the nearest multiple of 10^-f, ties away from zero, so (-0.25).toFixed(1) is "-0.3". It is then written without leading zeros, after a '-' for a negative value, and the round trip from the string back to the scaled integer is proved.
- **Report layout.** The export report is a `'\n'`-join of lines. The layout is proved by splitting the report back into its lines.

Where the description of the site and the code disagree:

- **The 0.30 boundary.** The description says a text with numerical data and emotional language but no citation scores exactly 0.30 and reads "Likely Fake". The code computes it in doubles, gets 0.30000000000000004, and shows "Uncertain". Only `DoubleScore` follows the code here: `DoubleScore.AsWrittenVerdict` states the verdicts the page actually shows. `Scoring`, `Analysis` and `Export` use the exact score, which is the intended behaviour and reads "Likely Fake". This is a finding below.
- **The buttons.** The model follows the code. They are enabled for any non-empty text, including whitespace. Only `analyzeNews` trims, and it refuses such a text with a toast.

Files:

| file | module | contents |
|---|---|---|
| strings.dfy | Strings | case-insensitive matching, JavaScript whitespace, `trim` |
| detectors.dfy | Detectors | the three detectors as predicates, and the scanning methods that decide them |
| tiers.dfy | Tiers | the three probability tiers split at 0.3 and 0.7 |
| scoring.dfy | Scoring | base probability, clamp, reachable scores, witness texts |
| double_score.dfy | DoubleScore | the same arithmetic in round-to-nearest-even doubles |
| verdicts.dfy | Verdicts | verdict text, colour, icon and bar colour helpers |
| analysis.dfy | Analysis | `analyzeNewsContent`, the evidence graph, `getVerdictDetails` |
| option.dfy | Optional | `Option` |
| format.dfy | Format | decimal numerals and `toFixed` |
| network_graph.dfy | NetworkGraph | node colour and border, edge resolution, rendered groups |
| result_tabs.dfy | ResultTabs | what the result tabs show |
| news_analyzer.dfy | NewsAnalyzer | the analyzer's state machine, mock result and inline tabs |
| export.dfy | Export | line splitting and joining, and the report layout |

## Model

| member | source | states |
|---|---|---|
| Strings.IndexOf | src/utils/analysisUtils.ts:47-49 | the scan a single-literal `/…/i.test` performs: it returns -1 exactly when the keyword occurs nowhere in the text, ignoring ASCII case; otherwise it returns a match position with no earlier match |
| Strings.Trim | src/components/NewsAnalyzer.tsx:38 | `trim()` cuts white space from both ends only: the result is a piece of the text with blank text on either side, and it neither begins nor ends with white space |
| Strings.TrimEmptyIffBlank | src/components/NewsAnalyzer.tsx:38 | `trim()` yields the empty string exactly when every character of the text is JavaScript white space or a line terminator |
| Detectors.ContainsAny | src/utils/analysisUtils.ts:47-48 | an alternation of literal keywords matches exactly when one of the keywords occurs somewhere in the text, in any case |
| Detectors.ContainsDigitBefore | src/utils/analysisUtils.ts:49 | `\d+%` and `\d+ percent` match exactly when some digit stands immediately before the suffix |
| Detectors.ContainsStudyOfDigit | src/utils/analysisUtils.ts:49 | `study of \d+` matches exactly when "study of " is immediately followed by a digit |
| Detectors.HasEmotionalLanguage | src/utils/analysisUtils.ts:47 | the emotional-language pattern: one of the eight keywords occurs somewhere in the text, in any case |
| Detectors.HasSourceCitation | src/utils/analysisUtils.ts:48 | the citation pattern: one of the eight phrases occurs somewhere in the text, in any case |
| Detectors.HasNumericalData | src/utils/analysisUtils.ts:49 | the numerical-data pattern: digits before '%' or " percent", "statistics", "survey", or "study of " before digits, in any case |
| Detectors.FlagsOf | src/utils/analysisUtils.ts:47-49 | the three detector results of one text |
| Detectors.Detect | src/utils/analysisUtils.ts:47-49 | the three detector flags the scanning loops compute are the flags defined by the three patterns |
| Detectors.DigitsThenIffDigitBefore | src/utils/analysisUtils.ts:49 | a run of one or more digits before a suffix exists exactly when a single digit stands before it, so `\d+` need not be greedy to decide the test |
| Detectors.StudyOfDigitsIffDigit | src/utils/analysisUtils.ts:49 | "study of " followed by a digit run occurs exactly when it is followed by one digit |
| Detectors.StudyOfNumberIsCitation | src/utils/analysisUtils.ts:48-49 | any text the "study of N" alternative catches also counts as citing a source, because "study" is a citation keyword |
| Detectors.SecureIsEmotional | src/utils/analysisUtils.ts:47 | the patterns have no word boundaries: the word "Secure" counts as emotional language because it contains "cure" |
| Detectors.FlagsMonotone | src/utils/analysisUtils.ts:47-49 | adding text before or after never turns a detector off |
| Detectors.NotEmotionalWithout | src/utils/analysisUtils.ts:47 | a text with no letter c or e in either case has no emotional language |
| Detectors.NoCitationWithout | src/utils/analysisUtils.ts:48 | a text without the letters s, o, a and p cites no source |
| Detectors.NoNumbersWithout | src/utils/analysisUtils.ts:49 | a text without '%' and the letters p, a, v and o has no numerical data |
| Tiers.TierOf | src/utils/analysisUtils.ts:90-97 | High exactly above 0.7, Middle exactly in (0.3, 0.7], Low exactly at or below 0.3 |
| Tiers.TierMonotone | src/utils/analysisUtils.ts:90-93 | a larger probability never falls into a lower tier |
| Tiers.TierBoundaries | src/utils/analysisUtils.ts:90-93 | the comparisons are strict: 0.7 is Middle and 0.3 is Low |
| Scoring.RawScore | src/utils/analysisUtils.ts:52-55 | the unclamped score is a multiple of 0.05 between 0.10 and 0.85, strictly inside the clamp interval |
| Scoring.Clamp | src/utils/analysisUtils.ts:58 | `min(max(s, 0.05), 0.95)` lies in the interval, keeps values inside it, and sends values below or above it to the nearer bound |
| Scoring.Score | src/utils/analysisUtils.ts:52-58 | the base score is one of the eight values 10, 30, 35, 40, 55, 60, 65 and 85, so the clamp never changes it |
| Scoring.Probability | src/utils/analysisUtils.ts:52-58 | the probability lies in [0.05, 0.95] and is the score in hundredths |
| Scoring.ScoresAreReachable | src/utils/analysisUtils.ts:52-58 | each of the eight scores comes from exactly one combination of the three detector flags |
| Scoring.ScoreMonotone | src/utils/analysisUtils.ts:53-55 | gaining a citation or numerical data, or losing emotional language, never lowers the score |
| Scoring.TextScore | src/utils/analysisUtils.ts:47-58 | the score of any text is one of the eight reachable values |
| Scoring.WitnessHasFlags | src/utils/analysisUtils.ts:47-49 | for each flag combination a short text exists on which the three detectors return exactly those flags |
| Scoring.EveryScoreHasAText | src/utils/analysisUtils.ts:47-58 | every one of the eight scores is the score of some text |
| DoubleScore.AsWrittenProbability | src/utils/analysisUtils.ts:52-58 | the probability as the code evaluates it: each statement rounded to the nearest double, then clamped |
| DoubleScore.DoubleTier | src/utils/analysisUtils.ts:90-93 | the verdict tier of a double, against the doubles nearest 0.7 and 0.3 |
| DoubleScore.EmotionalTrace | src/utils/analysisUtils.ts:52-55 | the double value after the three additions, for each flag combination, in units of 2^-60 |
| DoubleScore.IntermediatesInRange | src/utils/analysisUtils.ts:52-55 | every intermediate double lies in [2^-8, 2), the range in which the rounding model is exact |
| DoubleScore.AsWrittenBoundaryCase | src/utils/analysisUtils.ts:52-58 | with numerical data and emotional language but no citation, the double result is 0.3 plus one unit in the last place and reads "Uncertain", while the exact score 30 reads "Likely Fake" |
| DoubleScore.AsWrittenAgreesElsewhere | src/utils/analysisUtils.ts:52-58 | for every other flag combination the double result gets the same tier as the exact score, and the clamp leaves it unchanged |
| DoubleScore.AsWrittenVerdict | src/utils/analysisUtils.ts:52-58 | as the code runs, a text reads "Likely Authentic" exactly when it cites a source, has numerical data and no emotional language, and "Likely Fake" exactly when it is emotional with neither a citation nor numerical data |
| Analysis.Scaled | src/utils/analysisUtils.ts:64 | `Math.random() * width + low` lies in [low, low + width) |
| Analysis.AnalyzeNewsContent | src/utils/analysisUtils.ts:61-83 | the result carries the text's probability, the five factor names in order, the nodes n1..n5 with their labels, the text's probability as the verdict node's probability, and the four edges into n5 |
| Analysis.FactorBands | src/utils/analysisUtils.ts:63-69 | each factor score lies in the band its detector selects: source [0.6, 0.9) or [0.2, 0.6); language [0.1, 0.4) or [0.6, 0.9); facts [0.6, 0.9) or [0.3, 0.8); topic [0.3, 0.9); temporal [0.4, 1.0) |
| Analysis.NodeBands | src/utils/analysisUtils.ts:70-74 | each of n1..n4 has the probability band its detector selects |
| Analysis.ScoresInRange | src/utils/analysisUtils.ts:63-75 | every factor score and node probability lies in [0.1, 1.0) |
| Analysis.StarShape | src/utils/analysisUtils.ts:70-82 | a graph with nodes n1..n5 and edges n1..n4 to n5 has distinct ids, every edge resolves, and every edge enters the verdict node and none leaves it |
| Analysis.EvidenceGraphIsStar | src/utils/analysisUtils.ts:70-82 | the evidence graph of every analysis has that star shape |
| Analysis.GetVerdictDetails | src/utils/analysisUtils.ts:90-100 | the verdict is "Likely Authentic", "Uncertain" or "Likely Fake" exactly for the three tiers, and the colour is the tier's colour, each in both directions |
| Analysis.VerdictDetailsAgree | src/utils/analysisUtils.ts:90-100 | verdict and colour always name the same tier, and they agree with the analyzer's own `getVerdict` and `getVerdictColor` |
| Analysis.VerdictMonotone | src/utils/analysisUtils.ts:90-93 | a higher probability never gets a less favourable verdict |
| Analysis.VerdictOfText | src/utils/analysisUtils.ts:52-58 | a text reads "Likely Authentic" exactly when it cites a source, has numerical data and no emotional language; it reads "Likely Fake" exactly when it is emotional and cites no source |
| Verdicts.GetVerdict | src/components/NewsAnalyzer.tsx:85-89 | the three verdict texts correspond exactly to the three tiers |
| Verdicts.GetVerdictColor | src/components/NewsAnalyzer.tsx:91-95 | the three colours correspond exactly to the three tiers |
| Verdicts.GetVerdictIcon | src/components/NewsAnalyzer.tsx:97-101 | check-circle, info and alert-triangle correspond exactly to the three tiers |
| Verdicts.BarHue | src/components/NewsAnalyzer.tsx:171-175 | a factor bar is green, amber or red exactly for the three tiers of its score |
| Verdicts.DisplayAgrees | src/components/NewsAnalyzer.tsx:85-101 | verdict, colour and icon always show the same tier, and a bar gets the colour a verdict of the same value would |
| NetworkGraph.NodeColor | src/components/NetworkGraph.tsx:41-50 | a decided node is green when true and red when false; an undecided node with a probability gets its tier's colour; the neutral network colour appears exactly for undecided nodes without a probability |
| NetworkGraph.NodeColorIsVerdictColor | src/components/NetworkGraph.tsx:44-48 | an undecided node with a probability is coloured as the analyzer colours that probability's verdict |
| NetworkGraph.NodeBorder | src/components/NetworkGraph.tsx:52-54 | the heavy border appears exactly on nodes with a state |
| NetworkGraph.Find | src/components/NetworkGraph.tsx:61-62 | `find` returns a node exactly when some node has the id, and then it returns the first such node |
| NetworkGraph.FindFirst | src/components/NetworkGraph.tsx:61-62 | when ids repeat, `find` returns the earliest node with the id |
| NetworkGraph.RenderEdge | src/components/NetworkGraph.tsx:60-76 | an edge is drawn exactly when both endpoints resolve, from the first node with its source id to the first node with its target id |
| NetworkGraph.RenderEdgeAt | src/components/NetworkGraph.tsx:61-72 | the line's coordinates are those of the first-matching nodes |
| NetworkGraph.RenderEdges | src/components/NetworkGraph.tsx:60-76 | one slot per edge, in order, filled exactly when the edge resolves |
| NetworkGraph.AllEdgesDrawnIffResolved | src/components/NetworkGraph.tsx:60-76 | every edge is drawn exactly when every edge endpoint names a node |
| NetworkGraph.RenderNode | src/components/NetworkGraph.tsx:79-112 | the group sits at the node's position, shows its label, fill and border, and has a percentage text exactly when the node has a probability |
| NetworkGraph.RenderNodes | src/components/NetworkGraph.tsx:79-112 | one group per node, in order |
| NetworkGraph.PercentLabel | src/components/NetworkGraph.tsx:100-110 | the percentage text is a whole decimal numeral followed by '%', with a '-' exactly when the probability is negative, and its value is the probability times 100 rounded to a whole number, ties away from zero |
| NetworkGraph.MethodologySampleRenders | src/pages/Methodology.tsx:10-31 | the methodology page's sample network has only resolving edges, and every node is drawn with the neutral colour, the light border and no percentage |
| NetworkGraph.LandingSampleRenders | src/pages/Index.tsx:11-22 | the landing page's sample network has only resolving edges; its verdict node, whose state is true, is green with a heavy border, and the other nodes are neutral |
| NetworkGraph.DanglingEdgeDropped | src/components/NetworkGraph.tsx:60-76 | for any nodes and edges, appending an edge with a missing endpoint adds one empty slot and leaves the lines of the other edges unchanged |
| ResultTabs.Render | src/components/news-analyzer/AnalysisResultTabs.tsx:12-37 | nothing is rendered without a result; with one, the summary shows the icon, colour and verdict of the probability's tier, and there is one row per factor |
| ResultTabs.SummaryAgrees | src/components/news-analyzer/AnalysisResultTabs.tsx:15-21 | the local icon helper and `getVerdictDetails` agree: each icon goes with exactly one colour and one verdict |
| ResultTabs.Row | src/components/news-analyzer/AnalysisResultTabs.tsx:57-74 | a factor row shows the factor's name, and its bar has the colour of the score's tier |
| ResultTabs.Rows | src/components/news-analyzer/AnalysisResultTabs.tsx:57-74 | one row per factor, in order |
| ResultTabs.GraphNode | src/components/news-analyzer/AnalysisResultTabs.tsx:78-83 | an evidence node reaches the graph view with its id, label, position and probability, and no state |
| ResultTabs.GraphNodes | src/components/news-analyzer/AnalysisResultTabs.tsx:78-83 | every evidence node is passed on, in order |
| ResultTabs.GraphEdges | src/components/news-analyzer/AnalysisResultTabs.tsx:78-83 | every evidence edge is passed on, in order |
| ResultTabs.RenderGraph | src/components/news-analyzer/AnalysisResultTabs.tsx:78-83 | the graph tab has one group per evidence node, at the node's position with its label and a percentage, and one edge slot per evidence edge |
| ResultTabs.AnalysedGraphFullyDrawn | src/components/news-analyzer/AnalysisResultTabs.tsx:78-83 | for any analysed text, all five nodes carry a percentage, all four edges are drawn, and the verdict node has the verdict's colour |
| NewsAnalyzer.MockResult | src/components/NewsAnalyzer.tsx:52-73 | the probability is the first draw; the four factors have the mock names and their bands; the nodes n1..n5 carry the mock labels and the last five draws; the four edges go into n5 |
| NewsAnalyzer.MockGraphIsStar | src/components/NewsAnalyzer.tsx:60-72 | the mock evidence graph is a star with distinct ids whose edges all resolve |
| NewsAnalyzer.ButtonsEnabled | src/components/NewsAnalyzer.tsx:198-202 | Reset and Analyze are enabled exactly when no analysis runs and the text is not empty |
| NewsAnalyzer.TextareaEnabled | src/components/NewsAnalyzer.tsx:118 | the text area is enabled exactly when no analysis runs |
| NewsAnalyzer.AnalyzeNews | src/components/NewsAnalyzer.tsx:37-47 | a blank text leaves the state unchanged and raises the "Empty Input" toast; any other text starts the analysis and keeps text and result |
| NewsAnalyzer.Complete | src/components/NewsAnalyzer.tsx:75-76 | completion stores the mock result, clears the busy flag and keeps the text |
| NewsAnalyzer.ResetAnalysis | src/components/NewsAnalyzer.tsx:80-83 | reset empties the text and the result and does not touch the busy flag |
| NewsAnalyzer.Step | src/components/NewsAnalyzer.tsx:198-202 | the toast fires only on an enabled Analyze click on blank text; while the analysis runs, nothing but the timer changes the state; the text changes only while idle |
| NewsAnalyzer.Valid | src/components/NewsAnalyzer.tsx:37-47 | the invariant: an analysis is pending only for a text that is not blank |
| NewsAnalyzer.InitialValid | src/components/NewsAnalyzer.tsx:31-33 | the page starts with empty text, no result and no analysis running, which is valid; the buttons start disabled and the text area enabled |
| NewsAnalyzer.StepPreservesValid | src/components/NewsAnalyzer.tsx:37-77 | each event keeps the invariant that an analysis is pending only for a text that is not blank |
| NewsAnalyzer.Run | src/components/NewsAnalyzer.tsx:37-83 | the state after a sequence of events, one `Step` at a time |
| NewsAnalyzer.RunPreservesValid | src/components/NewsAnalyzer.tsx:37-77 | every sequence of events keeps that invariant |
| NewsAnalyzer.WhitespaceEnablesButIsRefused | src/components/NewsAnalyzer.tsx:198-202 | the buttons test only for a non-empty text, so a whitespace-only text enables Analyze, and the trim check at line 38 then refuses it with the toast |
| NewsAnalyzer.AnalyzeThenComplete | src/components/NewsAnalyzer.tsx:47-77 | clicking Analyze on an enabled non-blank text, then letting the timer fire, shows the mock result and returns to idle with the text kept |
| NewsAnalyzer.InlineSummary | src/components/NewsAnalyzer.tsx:138-142 | the inline summary shows the icon, colour and verdict text of the probability's tier |
| NewsAnalyzer.InlineRows | src/components/NewsAnalyzer.tsx:163-180 | the analyzer's inline factor list has one row per factor |
| NewsAnalyzer.InlineMatchesTabs | src/components/NewsAnalyzer.tsx:138-180 | the analyzer's inline summary and factor rows are exactly what the shared result tabs render for the same result |
| Export.GenerateAnalysisSummary | src/utils/exportUtils.ts:4-35 | the report: the heading, the text, the verdict and score, the factor lines, the node count and the date, joined with line breaks |
| Export.ReportFrame | src/utils/exportUtils.ts:7-32 | whatever the text, the factors and the date contain, the report begins with the heading lines and the text exactly as given, and ends with the date line and a final line break |
| Export.FactorLines | src/utils/exportUtils.ts:22-24 | one report line per factor, in order |
| Export.FactorBlockSplit | src/utils/exportUtils.ts:22-24 | after the factor lines are joined with '\n', splitting on '\n' gives the lines back, or one empty line when there are no factors |
| Export.JoinSplit | src/utils/exportUtils.ts:22-24 | joining the pieces of a split on a separator gives the original text back |
| Export.SplitJoin | src/utils/exportUtils.ts:22-24 | splitting a join of separator-free pieces gives the pieces back |
| Export.ReportLines | src/utils/exportUtils.ts:4-35 | the report splits into these lines: the fixed heading lines, the lines of the news text, the verdict and score lines, the factor lines, the node-count sentence and the date line |
| Export.ScoreLineOfText | src/utils/exportUtils.ts:18 | for an analysed text, the score field is the integer score followed by ".0" |
| Export.AnalysedReport | src/utils/exportUtils.ts:4-35 | for an analysed text, the report shows the verdict of its tier, its score as "N.0", one line per factor and "5" as the node count |
| Export.ToFixedSingle | src/utils/exportUtils.ts:18 | a `toFixed` numeral never contains a line break |
| Format.ToFixed | src/utils/exportUtils.ts:18 | `x.toFixed(f)`: a '-' for a negative value, then the magnitude rounded at f decimals and written with f digits after the point |
| Format.ToFixedRoundTrip | src/utils/exportUtils.ts:18 | `toFixed(f)` writes a '-' exactly for negative values, has exactly f digits after the point, and reads back as the value rounded at f decimals, ties away from zero |
| Format.ToFixedWhole | src/utils/exportUtils.ts:18 | a whole number prints as its numeral followed by a point and f zeros |
| Format.ParseNatToString | src/utils/exportUtils.ts:28 | the decimal numeral of a count reads back as the count |
| Format.NatToStringInjective | src/utils/exportUtils.ts:28 | different counts print differently |
| Format.Round | src/components/NetworkGraph.tsx:108 | rounding to a whole number lands within half a unit of the value, and a tie goes up |

## Left out

- The classification of the three `exampleSnippets` texts (scores 85, 10 and 35) is not proved. It would need every keyword shown absent at every position of a literal of about 250 characters, which is beyond what the solver can unfold. `Scoring.EveryScoreHasAText` shows instead that all eight scores can be reached by some text.
- `Math.random()` is a parameter, and the `setTimeout` and `Promise` around an analysis are one atomic completion. A pending timer that fires after a reset, or two overlapping timers, are therefore not modelled.
- The unused `textLength` in `analyzeNewsContent` is not modelled.
- Toasts are reduced to one marker value, and their title and description text are not modelled.
- React rendering is not modelled: CSS class names, the circle radius, the text offsets, the progress bar, the width styles and the D3 placeholder effect.
- The interactive `onNodeClick` callback is not modelled, because nothing in the core passes one.
- `toLocaleString` is not modelled. The report date is a single-line parameter.
- Analysis.VerdictOfText: states the verdict of the exact score. The code reads the no-citation, numerical, emotional case as "Uncertain", not "Likely Fake", because its double arithmetic gives 0.30000000000000004. `DoubleScore.AsWrittenVerdict` states the verdicts as the code computes them.
- Export.AnalysedReport: the score line and the verdict come from the exact score. For the same no-citation, numerical, emotional case the code's report says "Uncertain" and "30.0", where the model says "Likely Fake" and "30.0".
- Scoring.Probability: probabilities are exact rationals, not IEEE-754 doubles. `DoubleScore` replays the score arithmetic in doubles, and the one place the two differ is a finding. Factor scores and draws stay exact.
- Format.ToFixed: the value is rounded on its exact decimal value. The exponential form JavaScript uses at 1e21 and above is not modelled, and no value in the site comes near it.
- Detectors.Detect: case folding covers ASCII only. This is exact for these all-ASCII patterns, because the non-Unicode `/i` never maps a non-ASCII character to an ASCII one.
- NetworkGraph.RenderNode: coordinates are integers. Every node in the site has integer coordinates.
- Export.ReportLines: the line layout is stated only for factor names and dates without line breaks. A line break inside either would split that field into more lines.
- Export.GenerateAnalysisSummary: `exportUtils.ts` uses `getVerdictDetails` without importing it (lines 2 and 5). The model takes it to be the function from `analysisUtils.ts`.
- NewsAnalyzer.MockResult: the analyzer's own mock result takes its probability directly from a draw, and it ignores the detectors, as the component does.

## Findings

| source | as written | input that shows it | evidently intended | confidence | as-written member | corrected member |
|---|---|---|---|---|---|---|
| src/utils/analysisUtils.ts:52-58 | the base probability is accumulated in doubles, 0.5 - 0.1 + 0.15 - 0.25, which gives 0.30000000000000004 and the verdict "Uncertain" | a text with numerical data and emotional language but no citation, such as "1% cure" | exactly 0.30, which the strict comparison `> 0.3` reads as "Likely Fake" | not executed | DoubleScore.AsWrittenBoundaryCase | Scoring.Probability |
