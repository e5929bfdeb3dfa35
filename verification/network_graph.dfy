/**
  The evidence-graph view: how a node is coloured and bordered, how an edge
  finds its endpoints, and what is drawn for each node and edge. SVG geometry
  beyond the coordinates and CSS class strings are not modelled; colours are
  the `Hue` families.
 */
module NetworkGraph {
  import opened Optional
  import opened Tiers
  import opened Verdicts
  import opened Format

  datatype NodeState = StateTrue | StateFalse | StateUnknown

  /** A node as the view receives it; `probability` and `state` may be absent.
      `caption` is the source's `label` field. */
  datatype Node = Node(
    id: string,
    caption: string,
    x: int,
    y: int,
    probability: Option<real>,
    state: Option<NodeState>)

  datatype Edge = Edge(from: string, to: string)

  datatype Border = HeavyBorder | LightBorder

  /** The state decides nothing: absent, or 'unknown'. */
  predicate Undecided(n: Node)
  {
    n.state != Some(StateTrue) && n.state != Some(StateFalse)
  }

  /** `getNodeColor`. */
  function NodeColor(n: Node): (h: Hue)
    ensures n.state == Some(StateTrue) ==> h == TruthHue
    ensures n.state == Some(StateFalse) ==> h == DestructiveHue
    ensures Undecided(n) && n.probability.Some? ==> h == HueOf(TierOf(n.probability.value))
    ensures h == NetworkHue <==> Undecided(n) && n.probability.None?
  {
    if n.state == Some(StateTrue) then TruthHue
    else if n.state == Some(StateFalse) then DestructiveHue
    else if n.probability.Some? then
      if n.probability.value > 0.7 then TruthHue
      else if n.probability.value > 0.3 then AmberHue
      else DestructiveHue
    else NetworkHue
  }

  /** A node with a probability and no decisive state is coloured exactly as
      the verdict of that probability. */
  lemma NodeColorIsVerdictColor(n: Node)
    requires Undecided(n) && n.probability.Some?
    ensures NodeColor(n) == GetVerdictColor(n.probability.value)
  {
  }

  /** `getNodeBorder`: heavy whenever a state is given, 'unknown' included. */
  function NodeBorder(n: Node): (b: Border)
    ensures b == HeavyBorder <==> n.state.Some?
  {
    if n.state.Some? then HeavyBorder else LightBorder
  }

  /** `i` is the position of the first node whose id is `id`. */
  predicate IsFirstMatch(nodes: seq<Node>, id: string, i: int)
  {
    && 0 <= i < |nodes|
    && nodes[i].id == id
    && forall j :: 0 <= j < i ==> nodes[j].id != id
  }

  predicate HasNode(nodes: seq<Node>, id: string)
  {
    exists i :: 0 <= i < |nodes| && nodes[i].id == id
  }

  /** `nodes.find(n => n.id === id)`. */
  function Find(nodes: seq<Node>, id: string): (r: Option<Node>)
    ensures r.Some? <==> HasNode(nodes, id)
    ensures r.Some? ==> exists i :: IsFirstMatch(nodes, id, i) && nodes[i] == r.value
  {
    if |nodes| == 0 then None
    else if nodes[0].id == id then Some(nodes[0])
    else
      var r := Find(nodes[1..], id);
      if r.Some? then
        var i :| IsFirstMatch(nodes[1..], id, i) && nodes[1..][i] == r.value;
        assert IsFirstMatch(nodes, id, i + 1);
        r
      else
        assert forall i :: 1 <= i < |nodes| ==> nodes[i] == nodes[1..][i - 1];
        r
  }

  /** There is only one first match. */
  lemma FirstMatchUnique(nodes: seq<Node>, id: string, i: int, j: int)
    requires IsFirstMatch(nodes, id, i) && IsFirstMatch(nodes, id, j)
    ensures i == j
  {
  }

  /** `find` returns the node at the first match. */
  lemma FindFirst(nodes: seq<Node>, id: string, i: int)
    requires IsFirstMatch(nodes, id, i)
    ensures Find(nodes, id) == Some(nodes[i])
  {
    var j :| IsFirstMatch(nodes, id, j) && nodes[j] == Find(nodes, id).value;
    FirstMatchUnique(nodes, id, i, j);
  }

  /** The SVG line of an edge. */
  datatype Line = Line(x1: int, y1: int, x2: int, y2: int)

  /** The element drawn for one edge: nothing when an endpoint is missing. */
  function RenderEdge(nodes: seq<Node>, e: Edge): (r: Option<Line>)
    ensures r.Some? <==> HasNode(nodes, e.from) && HasNode(nodes, e.to)
    ensures r.Some? ==> exists i, j ::
      && IsFirstMatch(nodes, e.from, i) && IsFirstMatch(nodes, e.to, j)
      && r.value == Line(nodes[i].x, nodes[i].y, nodes[j].x, nodes[j].y)
  {
    var from, to := Find(nodes, e.from), Find(nodes, e.to);
    if from.None? || to.None? then None
    else Some(Line(from.value.x, from.value.y, to.value.x, to.value.y))
  }

  /** A drawn edge runs between the first nodes carrying its endpoint ids. */
  lemma RenderEdgeAt(nodes: seq<Node>, e: Edge, i: int, j: int)
    requires IsFirstMatch(nodes, e.from, i) && IsFirstMatch(nodes, e.to, j)
    ensures RenderEdge(nodes, e) == Some(Line(nodes[i].x, nodes[i].y, nodes[j].x, nodes[j].y))
  {
    FindFirst(nodes, e.from, i);
    FindFirst(nodes, e.to, j);
  }

  /** The edge layer: one slot per edge, in order. */
  function RenderEdges(nodes: seq<Node>, edges: seq<Edge>): (r: seq<Option<Line>>)
    ensures |r| == |edges|
    ensures forall k :: 0 <= k < |edges| ==>
      (r[k].Some? <==> HasNode(nodes, edges[k].from) && HasNode(nodes, edges[k].to))
  {
    seq(|edges|, k requires 0 <= k < |edges| => RenderEdge(nodes, edges[k]))
  }

  /** Every edge resolves exactly when nothing is dropped from the edge layer. */
  predicate EdgesResolve(nodes: seq<Node>, edges: seq<Edge>)
  {
    forall k :: 0 <= k < |edges| ==> HasNode(nodes, edges[k].from) && HasNode(nodes, edges[k].to)
  }

  lemma AllEdgesDrawnIffResolved(nodes: seq<Node>, edges: seq<Edge>)
    ensures (forall k :: 0 <= k < |edges| ==> RenderEdges(nodes, edges)[k].Some?)
      <==> EdgesResolve(nodes, edges)
  {
    var r := RenderEdges(nodes, edges);
    if forall k :: 0 <= k < |edges| ==> r[k].Some? {
      forall k | 0 <= k < |edges|
        ensures HasNode(nodes, edges[k].from) && HasNode(nodes, edges[k].to)
      {
        assert r[k].Some?;
      }
    }
  }

  /** The group drawn for a node: its circle, its caption and, when the node
      has a probability, the percentage under it. */
  datatype Group = Group(
    cx: int,
    cy: int,
    fill: Hue,
    border: Border,
    caption: string,
    percent: Option<string>)

  function RenderNode(n: Node): (g: Group)
    ensures g.cx == n.x && g.cy == n.y && g.caption == n.caption
    ensures g.fill == NodeColor(n) && g.border == NodeBorder(n)
    ensures g.percent.Some? <==> n.probability.Some?
  {
    Group(n.x, n.y, NodeColor(n), NodeBorder(n), n.caption,
      if n.probability.Some? then Some(ToFixed(n.probability.value * 100.0, 0) + "%") else None)
  }

  /** The node layer: one group per node, in order. */
  function RenderNodes(nodes: seq<Node>): (r: seq<Group>)
    ensures |r| == |nodes|
    ensures forall k :: 0 <= k < |nodes| ==> r[k] == RenderNode(nodes[k])
  {
    seq(|nodes|, k requires 0 <= k < |nodes| => RenderNode(nodes[k]))
  }

  /** A percentage label reads back as the probability times 100 rounded to
      a whole number (ties away from zero), with a sign exactly when the
      probability is negative. */
  lemma PercentLabel(n: Node)
    requires n.probability.Some?
    ensures var shown, x := RenderNode(n).percent.value, n.probability.value * 100.0;
      && |shown| >= 2 && shown[|shown| - 1] == '%'
      && FixedLayout(shown[..|shown| - 1], 0)
      && (shown[0] == '-' <==> x < 0.0)
      && ScaledValue(shown[..|shown| - 1], 0) == if x < 0.0 then -RoundScaled(-x, 0) else RoundScaled(x, 0)
  {
    PercentText(n.probability.value * 100.0, RenderNode(n).percent.value);
  }

  lemma PercentText(x: real, shown: string)
    requires shown == ToFixed(x, 0) + "%"
    ensures && |shown| >= 2 && shown[|shown| - 1] == '%'
      && FixedLayout(shown[..|shown| - 1], 0)
      && (shown[0] == '-' <==> x < 0.0)
      && ScaledValue(shown[..|shown| - 1], 0) == if x < 0.0 then -RoundScaled(-x, 0) else RoundScaled(x, 0)
  {
    var s := ToFixed(x, 0);
    ToFixedRoundTrip(x, 0);
    assert shown[..|s|] == s;
  }

  /** A node with only an id, a caption and a position, as the static pages
      declare them. */
  function Plain(id: string, caption: string, x: int, y: int): Node
  {
    Node(id, caption, x, y, None, None)
  }

  /** The sample network of the methodology page. */
  const MethodologyNodes: seq<Node> := [
    Plain("n1", "Source", 100, 100), Plain("n2", "History", 100, 200),
    Plain("n3", "Stance", 100, 300), Plain("n4", "Content", 250, 120),
    Plain("n5", "Claims", 250, 200), Plain("n6", "Emotion", 250, 280),
    Plain("n7", "Context", 400, 150), Plain("n8", "Verdict", 400, 250)]

  const MethodologyEdges: seq<Edge> := [
    Edge("n1", "n7"), Edge("n1", "n8"), Edge("n2", "n1"),
    Edge("n3", "n6"), Edge("n4", "n7"), Edge("n4", "n5"),
    Edge("n5", "n8"), Edge("n6", "n8"), Edge("n7", "n8")]

  /** Every edge of the methodology sample is drawn, and every node gets the
      neutral colour with a light border and no percentage. */
  lemma MethodologySampleRenders()
    ensures EdgesResolve(MethodologyNodes, MethodologyEdges)
    ensures forall k :: 0 <= k < |MethodologyNodes| ==>
      var g := RenderNodes(MethodologyNodes)[k];
      g.fill == NetworkHue && g.border == LightBorder && g.percent.None?
  {
    var ns := MethodologyNodes;
    forall k | 0 <= k < |MethodologyEdges|
      ensures HasNode(ns, MethodologyEdges[k].from) && HasNode(ns, MethodologyEdges[k].to)
    {
      var e := MethodologyEdges[k];
      var i: int := (e.from[1] as int) - ('1' as int);
      var j: int := (e.to[1] as int) - ('1' as int);
      assert ns[i].id == e.from && ns[j].id == e.to;
    }
  }

  /** The hero network of the landing page: the verdict node is marked true. */
  const LandingNodes: seq<Node> := [
    Plain("n1", "Source", 100, 100), Plain("n2", "Content", 220, 80),
    Plain("n3", "Context", 180, 180), Node("n4", "Verdict", 300, 130, None, Some(StateTrue))]

  const LandingEdges: seq<Edge> := [Edge("n1", "n4"), Edge("n2", "n4"), Edge("n3", "n4")]

  /** Every edge of the landing sample is drawn; the verdict node alone is
      coloured and bordered by its state. */
  lemma LandingSampleRenders()
    ensures EdgesResolve(LandingNodes, LandingEdges)
    ensures var g := RenderNodes(LandingNodes);
      && g[3].fill == TruthHue && g[3].border == HeavyBorder
      && forall k :: 0 <= k < 3 ==> g[k].fill == NetworkHue && g[k].border == LightBorder
  {
    var ns := LandingNodes;
    forall k | 0 <= k < |LandingEdges|
      ensures HasNode(ns, LandingEdges[k].from) && HasNode(ns, LandingEdges[k].to)
    {
      assert ns[k].id == LandingEdges[k].from && ns[3].id == LandingEdges[k].to;
    }
  }

  /** An edge whose endpoint is missing is dropped and the others are kept:
      the view neither fails nor draws a line to nowhere. */
  lemma DanglingEdgeDropped(nodes: seq<Node>, edges: seq<Edge>, e: Edge)
    requires !HasNode(nodes, e.from) || !HasNode(nodes, e.to)
    ensures RenderEdges(nodes, edges + [e]) == RenderEdges(nodes, edges) + [None]
  {
  }
}
