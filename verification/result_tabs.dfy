/**
  What the result tabs show for an analysis result: the summary (icon,
  colour, verdict), one row per contributing factor with its bar colour, and
  the evidence graph. Markup and CSS are not modelled.
 */
module ResultTabs {
  import opened Optional
  import opened Tiers
  import opened Verdicts
  import opened Format
  import opened Analysis
  import G = NetworkGraph

  datatype Summary = Summary(icon: Icon, color: Hue, verdict: string)

  /** A row of the factors tab: the name, `(score * 100).toFixed(0) + "%"`, and the bar colour. */
  datatype FactorRow = FactorRow(name: string, percent: string, bar: Hue)

  datatype Graph = Graph(groups: seq<G.Group>, lines: seq<Option<G.Line>>)

  datatype TabsView = TabsView(summary: Summary, rows: seq<FactorRow>, graph: Graph)

  /** An evidence node as the graph view receives it: with a probability and
      without a state. */
  function GraphNode(n: EvidenceNode): (g: G.Node)
    ensures g.id == n.id && g.caption == n.caption && g.x == n.x && g.y == n.y
    ensures g.probability == Some(n.probability) && g.state.None?
  {
    G.Node(n.id, n.caption, n.x, n.y, Some(n.probability), None)
  }

  function GraphNodes(nodes: seq<EvidenceNode>): (r: seq<G.Node>)
    ensures |r| == |nodes| && forall k :: 0 <= k < |nodes| ==> r[k] == GraphNode(nodes[k])
  {
    seq(|nodes|, k requires 0 <= k < |nodes| => GraphNode(nodes[k]))
  }

  function GraphEdges(edges: seq<Edge>): (r: seq<G.Edge>)
    ensures |r| == |edges| && forall k :: 0 <= k < |edges| ==> r[k] == G.Edge(edges[k].from, edges[k].to)
  {
    seq(|edges|, k requires 0 <= k < |edges| => G.Edge(edges[k].from, edges[k].to))
  }

  /** The graph tab: every evidence node becomes a group at its position
      with a percentage, and every evidence edge a slot in the edge layer. */
  function RenderGraph(r: AnalysisResult): (g: Graph)
    ensures |g.groups| == |r.nodes| && |g.lines| == |r.edges|
    ensures forall k :: 0 <= k < |r.nodes| ==>
      && g.groups[k].cx == r.nodes[k].x && g.groups[k].cy == r.nodes[k].y
      && g.groups[k].caption == r.nodes[k].caption && g.groups[k].percent.Some?
  {
    var nodes := GraphNodes(r.nodes);
    Graph(G.RenderNodes(nodes), G.RenderEdges(nodes, GraphEdges(r.edges)))
  }

  function Row(f: Factor): (row: FactorRow)
    ensures row.name == f.name
    ensures row.bar == HueOf(TierOf(f.score))
  {
    FactorRow(f.name, ToFixed(f.score * 100.0, 0) + "%", BarHue(f.score))
  }

  /** The factors tab: one row per factor, in list order. */
  function Rows(factors: seq<Factor>): (rows: seq<FactorRow>)
    ensures |rows| == |factors|
    ensures forall k :: 0 <= k < |factors| ==> rows[k] == Row(factors[k])
  {
    if |factors| == 0 then [] else [Row(factors[0])] + Rows(factors[1..])
  }

  /** `AnalysisResultTabs`: nothing for a null result; otherwise the verdict
      and its colour from `getVerdictDetails` and the icon from the component's
      own `getVerdictIcon`. */
  function Render(result: Option<AnalysisResult>): (v: Option<TabsView>)
    ensures v.Some? <==> result.Some?
    ensures result.Some? ==>
      var p := result.value.probability;
      && v.value.summary == Summary(IconOf(TierOf(p)), HueOf(TierOf(p)), Label(TierOf(p)))
      && |v.value.rows| == |result.value.factors|
  {
    if result.None? then None
    else
      var r := result.value;
      var details := GetVerdictDetails(r.probability);
      Some(TabsView(
        Summary(GetVerdictIcon(r.probability), details.color, details.verdict),
        Rows(r.factors),
        RenderGraph(r)))
  }

  /** Icon, colour and verdict of a shown result always name one tier: each
      determines the other two. */
  lemma SummaryAgrees(result: AnalysisResult)
    ensures var s := Render(Some(result)).value.summary;
      && (s.icon == CheckCircle <==> s.color == TruthHue)
      && (s.icon == CheckCircle <==> s.verdict == LikelyAuthentic)
      && (s.icon == InfoIcon <==> s.color == AmberHue)
      && (s.icon == InfoIcon <==> s.verdict == Uncertain)
      && (s.icon == AlertTriangle <==> s.color == DestructiveHue)
      && (s.icon == AlertTriangle <==> s.verdict == LikelyFake)
  {
  }

  /** For the result of an analysed text, the graph tab draws every edge,
      labels every node with a percentage, and colours the verdict node as
      the verdict. */
  lemma AnalysedGraphFullyDrawn(text: string, draws: seq<Draw>)
    requires |draws| == DrawCount
    ensures var r := AnalyzeNewsContent(text, draws);
      var g := RenderGraph(r);
      && |g.groups| == 5 && |g.lines| == 4
      && (forall k :: 0 <= k < 4 ==> g.lines[k].Some?)
      && (forall k :: 0 <= k < 5 ==> g.groups[k].percent.Some?)
      && g.groups[4].fill == GetVerdictDetails(r.probability).color
  {
    var r := AnalyzeNewsContent(text, draws);
    var nodes := GraphNodes(r.nodes);
    var edges := GraphEdges(r.edges);
    forall k | 0 <= k < 4
      ensures G.HasNode(nodes, edges[k].from) && G.HasNode(nodes, edges[k].to)
    {
      assert nodes[k].id == edges[k].from;
      assert nodes[4].id == edges[k].to;
    }
    VerdictDetailsAgree(r.probability);
    G.NodeColorIsVerdictColor(nodes[4]);
  }
}
