/**
  `analyzeNewsContent` and `getVerdictDetails`: the result record of an
  analysis, built from the deterministic score and nine random draws. The
  timer and the promise around the computation are not modelled; the draws of
  `Math.random()` are a parameter, in the order the object literal evaluates
  them (five factor scores, then the first four node probabilities).
 */
module Analysis {
  import opened Detectors
  import opened Tiers
  import opened Verdicts
  import Scoring

  /** One value of `Math.random()`. */
  type Draw = r: real | 0.0 <= r < 1.0

  datatype Factor = Factor(name: string, score: real)

  /** A node of the evidence graph; `caption` is the source's `label` field. */
  datatype EvidenceNode = EvidenceNode(id: string, caption: string, x: int, y: int, probability: real)

  datatype Edge = Edge(from: string, to: string)

  datatype AnalysisResult = AnalysisResult(
    probability: real,
    factors: seq<Factor>,
    nodes: seq<EvidenceNode>,
    edges: seq<Edge>)

  const FactorNames: seq<string> :=
    ["Source Credibility", "Language Analysis", "Factual Consistency", "Topic Relevance", "Temporal Consistency"]

  const NodeIds: seq<string> := ["n1", "n2", "n3", "n4", "n5"]
  const NodeLabels: seq<string> := ["Source", "Language", "Facts", "Temporal", "Verdict"]

  /** The number of draws one analysis consumes. */
  const DrawCount: nat := 9

  /** `Math.random() * width + low`: a value in [low, low + width). */
  function Scaled(d: Draw, width: real, low: real): (r: real)
    requires width > 0.0
    ensures low <= r < low + width
  {
    d * width + low
  }

  /** The resolved value of `analyzeNewsContent(text)`. */
  function AnalyzeNewsContent(text: string, draws: seq<Draw>): (r: AnalysisResult)
    requires |draws| == DrawCount
    ensures r.probability == Scoring.Probability(FlagsOf(text))
    ensures |r.factors| == 5 && forall i :: 0 <= i < 5 ==> r.factors[i].name == FactorNames[i]
    ensures |r.nodes| == 5
    ensures forall i :: 0 <= i < 5 ==> r.nodes[i].id == NodeIds[i] && r.nodes[i].caption == NodeLabels[i]
    ensures r.nodes[4].probability == r.probability
    ensures |r.edges| == 4 && forall i :: 0 <= i < 4 ==> r.edges[i] == Edge(NodeIds[i], "n5")
  {
    var f := FlagsOf(text);
    var probability := Scoring.Probability(f);
    AnalysisResult(
      probability,
      [ Factor(FactorNames[0], if f.citation then Scaled(draws[0], 0.3, 0.6) else Scaled(draws[0], 0.4, 0.2)),
        Factor(FactorNames[1], if f.emotional then Scaled(draws[1], 0.3, 0.1) else Scaled(draws[1], 0.3, 0.6)),
        Factor(FactorNames[2], if f.numerical then Scaled(draws[2], 0.3, 0.6) else Scaled(draws[2], 0.5, 0.3)),
        Factor(FactorNames[3], Scaled(draws[3], 0.6, 0.3)),
        Factor(FactorNames[4], Scaled(draws[4], 0.6, 0.4)) ],
      [ EvidenceNode("n1", "Source", 100, 100,
          if f.citation then Scaled(draws[5], 0.3, 0.6) else Scaled(draws[5], 0.4, 0.3)),
        EvidenceNode("n2", "Language", 200, 80,
          if f.emotional then Scaled(draws[6], 0.3, 0.1) else Scaled(draws[6], 0.3, 0.6)),
        EvidenceNode("n3", "Facts", 180, 180,
          if f.numerical then Scaled(draws[7], 0.3, 0.6) else Scaled(draws[7], 0.4, 0.4)),
        EvidenceNode("n4", "Temporal", 100, 220, Scaled(draws[8], 0.3, 0.6)),
        EvidenceNode("n5", "Verdict", 300, 150, probability) ],
      [ Edge("n1", "n5"), Edge("n2", "n5"), Edge("n3", "n5"), Edge("n4", "n5") ])
  }

  /** Each factor score lies in the band its detector selects. */
  lemma FactorBands(text: string, draws: seq<Draw>)
    requires |draws| == DrawCount
    ensures var f, s := FlagsOf(text), AnalyzeNewsContent(text, draws).factors;
      && (if f.citation then 0.6 <= s[0].score < 0.9 else 0.2 <= s[0].score < 0.6)
      && (if f.emotional then 0.1 <= s[1].score < 0.4 else 0.6 <= s[1].score < 0.9)
      && (if f.numerical then 0.6 <= s[2].score < 0.9 else 0.3 <= s[2].score < 0.8)
      && 0.3 <= s[3].score < 0.9
      && 0.4 <= s[4].score < 1.0
  {
  }

  /** Each node probability lies in the band its detector selects. */
  lemma NodeBands(text: string, draws: seq<Draw>)
    requires |draws| == DrawCount
    ensures var f, n := FlagsOf(text), AnalyzeNewsContent(text, draws).nodes;
      && (if f.citation then 0.6 <= n[0].probability < 0.9 else 0.3 <= n[0].probability < 0.7)
      && (if f.emotional then 0.1 <= n[1].probability < 0.4 else 0.6 <= n[1].probability < 0.9)
      && (if f.numerical then 0.6 <= n[2].probability < 0.9 else 0.4 <= n[2].probability < 0.8)
      && 0.6 <= n[3].probability < 0.9
  {
  }

  /** Every factor score and every node probability lies in [0.1, 1.0). */
  lemma ScoresInRange(text: string, draws: seq<Draw>)
    requires |draws| == DrawCount
    ensures var r := AnalyzeNewsContent(text, draws);
      && (forall i :: 0 <= i < |r.factors| ==> 0.1 <= r.factors[i].score < 1.0)
      && (forall i :: 0 <= i < |r.nodes| ==> 0.1 <= r.nodes[i].probability < 1.0)
  {
    FactorBands(text, draws);
    NodeBands(text, draws);
    var r := AnalyzeNewsContent(text, draws);
    assert 0.05 <= r.nodes[4].probability <= 0.95;
  }

  /** Ids are pairwise distinct. */
  predicate DistinctIds(nodes: seq<EvidenceNode>)
  {
    forall i, j :: 0 <= i < j < |nodes| ==> nodes[i].id != nodes[j].id
  }

  predicate HasNode(nodes: seq<EvidenceNode>, id: string)
  {
    exists i :: 0 <= i < |nodes| && nodes[i].id == id
  }

  /** Every edge starts and ends at a node of the graph. */
  predicate EdgesResolve(r: AnalysisResult)
  {
    forall e :: e in r.edges ==> HasNode(r.nodes, e.from) && HasNode(r.nodes, e.to)
  }

  /** A graph over the ids n1..n5 with the edges n1..n4 -> n5 is a star:
      distinct ids, every edge resolves, every edge ends at the verdict node,
      and the verdict node has no out-edge. */
  lemma StarShape(r: AnalysisResult)
    requires |r.nodes| == 5 && forall k :: 0 <= k < 5 ==> r.nodes[k].id == NodeIds[k]
    requires |r.edges| == 4 && forall k :: 0 <= k < 4 ==> r.edges[k] == Edge(NodeIds[k], "n5")
    ensures DistinctIds(r.nodes)
    ensures EdgesResolve(r)
    ensures forall e :: e in r.edges ==> e.to == r.nodes[4].id && e.from != r.nodes[4].id
  {
    forall e | e in r.edges
      ensures HasNode(r.nodes, e.from) && HasNode(r.nodes, e.to)
    {
      var i :| 0 <= i < 4 && r.edges[i] == e;
      assert r.nodes[i].id == e.from;
      assert r.nodes[4].id == e.to;
    }
  }

  /** The evidence graph of every analysis has that shape. */
  lemma EvidenceGraphIsStar(text: string, draws: seq<Draw>)
    requires |draws| == DrawCount
    ensures var r := AnalyzeNewsContent(text, draws);
      && DistinctIds(r.nodes)
      && EdgesResolve(r)
      && (forall e :: e in r.edges ==> e.to == r.nodes[4].id && e.from != r.nodes[4].id)
  {
    StarShape(AnalyzeNewsContent(text, draws));
  }

  /** `getVerdictDetails`: the verdict text and its colour. */
  datatype VerdictDetails = VerdictDetails(verdict: string, color: Hue)

  function GetVerdictDetails(p: real): (d: VerdictDetails)
    ensures d.verdict == LikelyAuthentic <==> p > 0.7
    ensures d.verdict == Uncertain <==> 0.3 < p <= 0.7
    ensures d.verdict == LikelyFake <==> p <= 0.3
    ensures d.color == TruthHue <==> p > 0.7
    ensures d.color == AmberHue <==> 0.3 < p <= 0.7
    ensures d.color == DestructiveHue <==> p <= 0.3
  {
    var verdict := if p > 0.7 then LikelyAuthentic else if p > 0.3 then Uncertain else LikelyFake;
    var color := if p > 0.7 then TruthHue else if p > 0.3 then AmberHue else DestructiveHue;
    VerdictDetails(verdict, color)
  }

  /** The colour always matches the verdict, both are the tier's, and the
      analyzer's own helpers give the same answers. */
  lemma VerdictDetailsAgree(p: real)
    ensures GetVerdictDetails(p) == VerdictDetails(Label(TierOf(p)), HueOf(TierOf(p)))
    ensures GetVerdictDetails(p).verdict == GetVerdict(p)
    ensures GetVerdictDetails(p).color == GetVerdictColor(p)
  {
  }

  /** A higher probability never gets a less favourable verdict. */
  lemma VerdictMonotone(p: real, q: real)
    requires p <= q
    ensures GetVerdictDetails(p).verdict == LikelyAuthentic ==> GetVerdictDetails(q).verdict == LikelyAuthentic
    ensures GetVerdictDetails(q).verdict == LikelyFake ==> GetVerdictDetails(p).verdict == LikelyFake
  {
  }

  /** The verdict of an analysed text follows from its flags alone. */
  lemma VerdictOfText(text: string, draws: seq<Draw>)
    requires |draws| == DrawCount
    ensures var f, v := FlagsOf(text), GetVerdictDetails(AnalyzeNewsContent(text, draws).probability).verdict;
      && (v == LikelyAuthentic <==> f.citation && f.numerical && !f.emotional)
      && (v == LikelyFake <==> f.emotional && !f.citation)
  {
  }
}
