/**
 * flow-chart.tsx: `FlowChart` draws one row per edge, `from` box, arrow,
 * optional note, `to` box. The boxes look their node up by id in a table
 * built from the node list; an id without a node, or a node without an icon,
 * falls back to a default that depends on the side of the arrow.
 */
module FlowChart {
  import opened Wrappers
  import opened Strings

  /** The lucide icons the diagrams use; `LayoutPanelLeft` and `Layers` double as the fallbacks. */
  datatype Glyph = Server | Users | Terminal | Cloud | Shield | Container | CreditCard | Globe | LayoutPanelLeft | Layers

  /** A node of the chart; `text` is its `label` (a reserved word in Dafny). */
  datatype FlowNode = FlowNode(id: string, text: string, icon: Option<Glyph>)

  datatype Edge = Edge(from: string, to: string, note: Option<string>)

  /** The two size profiles `large` chooses between. */
  datatype Size = Compact | Large

  /** A box: its icon (`None` when icons are hidden) and its label. */
  datatype Endpoint = Endpoint(icon: Option<Glyph>, text: string)

  datatype EdgeRow = EdgeRow(from: Endpoint, note: Option<string>, to: Endpoint)

  datatype Chart = Chart(title: string, size: Size, rows: seq<EdgeRow>)

  /** Some node of the list has this id. */
  predicate Declared(nodes: seq<FlowNode>, id: string) {
    exists i :: 0 <= i < |nodes| && nodes[i].id == id
  }

  /**
   * `Object.fromEntries(nodes.map(n => [n.id, n]))`: the entries are stored
   * left to right, so of several nodes with one id the last is kept.
   */
  function NodeById(nodes: seq<FlowNode>): (byId: map<string, FlowNode>)
    ensures forall id :: id in byId <==> Declared(nodes, id)
    ensures forall id :: id in byId ==> byId[id].id == id
  {
    if nodes == [] then map[]
    else
      var front := nodes[..|nodes| - 1];
      var last := nodes[|nodes| - 1];
      assert forall i :: 0 <= i < |front| ==> front[i] == nodes[i];
      NodeById(front)[last.id := last]
  }

  /** The table holds, for each declared id, the last node that declares it. */
  lemma {:induction false} LaterNodeWins(nodes: seq<FlowNode>, i: int)
    requires 0 <= i < |nodes|
    requires forall j :: i < j < |nodes| ==> nodes[j].id != nodes[i].id
    ensures NodeById(nodes)[nodes[i].id] == nodes[i]
    decreases |nodes|
  {
    if i < |nodes| - 1 {
      var front := nodes[..|nodes| - 1];
      LaterNodeWins(front, i);
    }
  }

  /** `nodeById[id]?.icon ?? fallback` and `nodeById[id]?.text ?? id`, with the icon dropped when icons are hidden. */
  function EndpointOf(byId: map<string, FlowNode>, id: string, fallback: Glyph, showIcons: bool): (b: Endpoint)
    ensures id !in byId ==> b.text == id
    ensures id in byId ==> b.text == byId[id].text
    ensures !showIcons <==> b.icon.None?
    ensures showIcons && id in byId && byId[id].icon.Some? ==> b.icon == byId[id].icon
    ensures showIcons && (id !in byId || byId[id].icon.None?) ==> b.icon == Some(fallback)
  {
    var icon := if id in byId && byId[id].icon.Some? then byId[id].icon.value else fallback;
    Endpoint(if showIcons then Some(icon) else None, if id in byId then byId[id].text else id)
  }

  /** One edge's row: `LayoutPanelLeft` is the `from` side's default icon, `Layers` the `to` side's. */
  function RowFor(byId: map<string, FlowNode>, e: Edge, showIcons: bool): EdgeRow {
    EdgeRow(EndpointOf(byId, e.from, LayoutPanelLeft, showIcons), WhenTruthy(e.note), EndpointOf(byId, e.to, Layers, showIcons))
  }

  /** `edges.map(...)`. */
  function EdgeRows(byId: map<string, FlowNode>, edges: seq<Edge>, showIcons: bool): seq<EdgeRow>
    decreases edges
  {
    if edges == [] then [] else [RowFor(byId, edges[0], showIcons)] + EdgeRows(byId, edges[1..], showIcons)
  }

  /** `<FlowChart nodes edges title large showIcons />`. */
  function Render(nodes: seq<FlowNode>, edges: seq<Edge>, title: string, large: bool, showIcons: bool): Chart {
    Chart(title, if large then Large else Compact, EdgeRows(NodeById(nodes), edges, showIcons))
  }

  /** Defaults of the optional props: title "Flow", not large, icons shown. */
  function RenderDefault(nodes: seq<FlowNode>, edges: seq<Edge>): (c: Chart)
    ensures c.title == "Flow" && c.size == Compact
    ensures forall i :: 0 <= i < |c.rows| ==> c.rows[i].from.icon.Some? && c.rows[i].to.icon.Some?
  {
    EdgesInOrder(NodeById(nodes), edges, true);
    Render(nodes, edges, "Flow", false, true)
  }

  /** Exactly one row per edge, row `i` drawn from edge `i`: no sorting, no merging of repeated edges. */
  lemma {:induction false} EdgesInOrder(byId: map<string, FlowNode>, edges: seq<Edge>, showIcons: bool)
    ensures |EdgeRows(byId, edges, showIcons)| == |edges|
    ensures forall i :: 0 <= i < |edges| ==> EdgeRows(byId, edges, showIcons)[i] == RowFor(byId, edges[i], showIcons)
    decreases edges
  {
    if edges != [] {
      EdgesInOrder(byId, edges[1..], showIcons);
      var rest := EdgeRows(byId, edges[1..], showIcons);
      forall i | 0 < i < |edges| ensures EdgeRows(byId, edges, showIcons)[i] == RowFor(byId, edges[i], showIcons) {
        assert EdgeRows(byId, edges, showIcons)[i] == rest[i - 1];
        assert edges[1..][i - 1] == edges[i];
      }
    }
  }

  /** Rendering two edge lists one after the other gives the rows of their concatenation. */
  lemma {:induction false} EdgeRowsConcat(byId: map<string, FlowNode>, a: seq<Edge>, b: seq<Edge>, showIcons: bool)
    ensures EdgeRows(byId, a + b, showIcons) == EdgeRows(byId, a, showIcons) + EdgeRows(byId, b, showIcons)
    decreases a
  {
    if a == [] {
      assert a + b == b;
    } else {
      assert (a + b)[1..] == a[1..] + b;
      EdgeRowsConcat(byId, a[1..], b, showIcons);
    }
  }

  /**
   * A dangling endpoint does not fail: its box shows the raw id as its label
   * and, with icons shown, the side's default icon.
   */
  lemma DanglingEndpoint(nodes: seq<FlowNode>, edges: seq<Edge>, title: string, large: bool, i: int)
    requires 0 <= i < |edges|
    ensures |Render(nodes, edges, title, large, true).rows| == |edges|
    ensures var r := Render(nodes, edges, title, large, true).rows[i];
      && (!Declared(nodes, edges[i].from) ==> r.from == Endpoint(Some(LayoutPanelLeft), edges[i].from))
      && (!Declared(nodes, edges[i].to) ==> r.to == Endpoint(Some(Layers), edges[i].to))
  {
    EdgesInOrder(NodeById(nodes), edges, true);
  }

  /** The fallback icon also applies to a declared node that has no icon, while its label is still used. */
  lemma IconlessNode(nodes: seq<FlowNode>, edges: seq<Edge>, title: string, large: bool, i: int)
    requires 0 <= i < |edges|
    ensures |Render(nodes, edges, title, large, true).rows| == |edges|
    ensures var byId := NodeById(nodes);
      var r := Render(nodes, edges, title, large, true).rows[i];
      && (edges[i].from in byId && byId[edges[i].from].icon.None? ==>
            r.from == Endpoint(Some(LayoutPanelLeft), byId[edges[i].from].text))
      && (edges[i].to in byId && byId[edges[i].to].icon.None? ==>
            r.to == Endpoint(Some(Layers), byId[edges[i].to].text))
  {
    EdgesInOrder(NodeById(nodes), edges, true);
  }

  /** Hiding icons removes both icons of every row and changes nothing else. */
  lemma HidingIconsKeepsLabels(nodes: seq<FlowNode>, edges: seq<Edge>, title: string, large: bool)
    ensures var shown := Render(nodes, edges, title, large, true).rows;
      var hidden := Render(nodes, edges, title, large, false).rows;
      && |shown| == |hidden| == |edges|
      && forall i :: 0 <= i < |edges| ==>
           && hidden[i].from == Endpoint(None, shown[i].from.text)
           && hidden[i].to == Endpoint(None, shown[i].to.text)
           && hidden[i].note == shown[i].note
  {
    EdgesInOrder(NodeById(nodes), edges, true);
    EdgesInOrder(NodeById(nodes), edges, false);
  }

  /** No edge names `id` at either end. */
  predicate Unreferenced(edges: seq<Edge>, id: string) {
    forall i :: 0 <= i < |edges| ==> edges[i].from != id && edges[i].to != id
  }

  /** A node no edge refers to has no effect on the drawing: adding it anywhere in the node list changes nothing. */
  lemma UnreferencedNodeIrrelevant(nodes: seq<FlowNode>, extra: FlowNode, k: int, edges: seq<Edge>,
                                   title: string, large: bool, showIcons: bool)
    requires 0 <= k <= |nodes|
    requires Unreferenced(edges, extra.id)
    ensures Render(nodes[..k] + [extra] + nodes[k..], edges, title, large, showIcons)
         == Render(nodes, edges, title, large, showIcons)
  {
    var more := nodes[..k] + [extra] + nodes[k..];
    var a, b := NodeById(more), NodeById(nodes);
    forall id | id != extra.id ensures (id in a <==> id in b) && (id in a ==> a[id] == b[id]) {
      SameLookup(nodes, k, extra, id);
    }
    EdgesInOrder(a, edges, showIcons);
    EdgesInOrder(b, edges, showIcons);
    forall i | 0 <= i < |edges| ensures RowFor(a, edges[i], showIcons) == RowFor(b, edges[i], showIcons) {
    }
  }

  /** Inserting a node with another id leaves the lookup of `id` as it was. */
  lemma {:induction false} SameLookup(nodes: seq<FlowNode>, k: int, extra: FlowNode, id: string)
    requires 0 <= k <= |nodes|
    requires id != extra.id
    ensures var a, b := NodeById(nodes[..k] + [extra] + nodes[k..]), NodeById(nodes);
      (id in a <==> id in b) && (id in a ==> a[id] == b[id])
    decreases |nodes|
  {
    var more := nodes[..k] + [extra] + nodes[k..];
    var a := NodeById(more);
    var last := more[|more| - 1];
    assert a == NodeById(more[..|more| - 1])[last.id := last];
    InsertSplit(nodes, k, extra);
    if k < |nodes| {
      var front := nodes[..|nodes| - 1];
      SameLookup(front, k, extra, id);
      assert NodeById(nodes) == NodeById(front)[last.id := last];
    }
  }

  /** Dropping the last node of a list with `extra` inserted at `k`. */
  lemma InsertSplit(nodes: seq<FlowNode>, k: int, extra: FlowNode)
    requires 0 <= k <= |nodes|
    ensures var more := nodes[..k] + [extra] + nodes[k..];
      && (k < |nodes| ==>
           && more[..|more| - 1] == nodes[..|nodes| - 1][..k] + [extra] + nodes[..|nodes| - 1][k..]
           && more[|more| - 1] == nodes[|nodes| - 1])
      && (k == |nodes| ==> more[..|more| - 1] == nodes && more[|more| - 1] == extra)
  {
    var more := nodes[..k] + [extra] + nodes[k..];
    if k < |nodes| {
      var front := nodes[..|nodes| - 1];
      assert more[..|more| - 1] == front[..k] + [extra] + front[k..];
    } else {
      assert more[..|more| - 1] == nodes;
    }
  }

  /** Every edge of the list names declared nodes at both ends. */
  predicate Resolved(nodes: seq<FlowNode>, edges: seq<Edge>) {
    forall i :: 0 <= i < |edges| ==> Declared(nodes, edges[i].from) && Declared(nodes, edges[i].to)
  }

  /** When every endpoint resolves, every box shows a declared node's label, never a raw id. */
  lemma ResolvedLabels(nodes: seq<FlowNode>, edges: seq<Edge>, title: string, large: bool, showIcons: bool)
    requires Resolved(nodes, edges)
    ensures var c := Render(nodes, edges, title, large, showIcons);
      && |c.rows| == |edges|
      && forall i :: 0 <= i < |edges| ==>
           c.rows[i].from.text == NodeById(nodes)[edges[i].from].text
           && c.rows[i].to.text == NodeById(nodes)[edges[i].to].text
  {
    EdgesInOrder(NodeById(nodes), edges, showIcons);
  }

  /** A small example: an edge to an undeclared id still renders, with the `to` default icon and the raw id. */
  lemma GhostEdge()
    ensures Render([FlowNode("a", "A", None)], [Edge("a", "ghost", None)], "Flow", false, true).rows
         == [EdgeRow(Endpoint(Some(LayoutPanelLeft), "A"), None, Endpoint(Some(Layers), "ghost"))]
  {
    var byId := NodeById([FlowNode("a", "A", None)]);
    assert "ghost" !in byId by {
      assert !Declared([FlowNode("a", "A", None)], "ghost");
    }
  }

  // The page's preset diagrams.

  const Phase1Nodes: seq<FlowNode> := [
    FlowNode("install", "Install Tailscale", Some(Cloud)),
    FlowNode("ssh", "Enable SSH", Some(Shield)),
    FlowNode("tmux", "Start tmux", Some(Terminal)),
    FlowNode("claude", "Run Claude Code", Some(Terminal)),
    FlowNode("mobile", "Connect from Mobile", Some(Users))]

  const Phase1Edges: seq<Edge> := [
    Edge("install", "ssh", Some("tailscale up --ssh")),
    Edge("ssh", "tmux", Some("tmux new-session")),
    Edge("tmux", "claude", Some("claude")),
    Edge("mobile", "tmux", Some("Termius SSH"))]

  const Phase2Nodes: seq<FlowNode> := [
    FlowNode("server", "Ubuntu Server", Some(Server)),
    FlowNode("users", "Create Users", Some(Users)),
    FlowNode("tailscale", "Tailscale ACLs", Some(Shield)),
    FlowNode("config", "Shared Config", Some(Globe)),
    FlowNode("systemd", "Systemd Services", Some(Terminal)),
    FlowNode("monitor", "Netdata", Some(Layers))]

  const Phase2Edges: seq<Edge> := [
    Edge("server", "users", Some("Multi-user accounts")),
    Edge("users", "tailscale", Some("Access control")),
    Edge("tailscale", "config", Some("/etc/claude-code/")),
    Edge("config", "systemd", Some("Auto-start")),
    Edge("systemd", "monitor", Some("Health checks"))]

  const Phase3Nodes: seq<FlowNode> := [
    FlowNode("docker", "Docker Isolation", Some(Container)),
    FlowNode("meter", "Usage Metering", Some(Layers)),
    FlowNode("billing", "Stripe Billing", Some(CreditCard)),
    FlowNode("patterns", "Pattern Marketplace", Some(Globe))]

  const Phase3Edges: seq<Edge> := [
    Edge("docker", "meter", Some("Container per user")),
    Edge("meter", "billing", Some("Track resources")),
    Edge("billing", "patterns", Some("Sell patterns"))]

  const EndToEndNodes: seq<FlowNode> := [
    FlowNode("dev", "Developer", None),
    FlowNode("tailscale", "Tailscale VPN", None),
    FlowNode("server", "Remote Server", None),
    FlowNode("tmux", "tmux Session", None),
    FlowNode("claude", "Claude Code", None),
    FlowNode("code", "Generated Code", None)]

  const EndToEndEdges: seq<Edge> := [
    Edge("dev", "tailscale", None),
    Edge("tailscale", "server", None),
    Edge("server", "tmux", None),
    Edge("tmux", "claude", None),
    Edge("claude", "code", None)]

  function Phase1Flow(): Chart { Render(Phase1Nodes, Phase1Edges, "Phase 1: Individual Setup", true, true) }
  function Phase2Flow(): Chart { Render(Phase2Nodes, Phase2Edges, "Phase 2: Team Server", true, true) }
  function Phase3Flow(): Chart { Render(Phase3Nodes, Phase3Edges, "Phase 3: Commercial Platform", true, true) }
  function KunEndToEndFlow(): Chart { Render(EndToEndNodes, EndToEndEdges, "End-to-end Development Flow", false, false) }

  /** Every edge endpoint of every preset names a declared node, so no preset shows a raw id. */
  lemma PresetsResolve()
    ensures Resolved(Phase1Nodes, Phase1Edges)
    ensures Resolved(Phase2Nodes, Phase2Edges)
    ensures Resolved(Phase3Nodes, Phase3Edges)
    ensures Resolved(EndToEndNodes, EndToEndEdges)
  {
    Phase1Resolves();
    Phase2Resolves();
    Phase3Resolves();
    EndToEndResolves();
  }

  lemma Phase1Resolves() ensures Resolved(Phase1Nodes, Phase1Edges) {
    IndexedEndpoints(Phase1Nodes, Phase1Edges, [0, 1, 2, 4], [1, 2, 3, 2]);
  }

  lemma Phase2Resolves() ensures Resolved(Phase2Nodes, Phase2Edges) {
    IndexedEndpoints(Phase2Nodes, Phase2Edges, [0, 1, 2, 3, 4], [1, 2, 3, 4, 5]);
  }

  lemma Phase3Resolves() ensures Resolved(Phase3Nodes, Phase3Edges) {
    IndexedEndpoints(Phase3Nodes, Phase3Edges, [0, 1, 2], [1, 2, 3]);
  }

  lemma EndToEndResolves() ensures Resolved(EndToEndNodes, EndToEndEdges) {
    IndexedEndpoints(EndToEndNodes, EndToEndEdges, [0, 1, 2, 3, 4], [1, 2, 3, 4, 5]);
  }

  /** Edges resolve when each endpoint is matched with the position of a node carrying that id. */
  lemma IndexedEndpoints(nodes: seq<FlowNode>, edges: seq<Edge>, fromAt: seq<nat>, toAt: seq<nat>)
    requires |fromAt| == |edges| == |toAt|
    requires forall i :: 0 <= i < |edges| ==> fromAt[i] < |nodes| && nodes[fromAt[i]].id == edges[i].from
    requires forall i :: 0 <= i < |edges| ==> toAt[i] < |nodes| && nodes[toAt[i]].id == edges[i].to
    ensures Resolved(nodes, edges)
  {
    forall i | 0 <= i < |edges| ensures Declared(nodes, edges[i].from) && Declared(nodes, edges[i].to) {
      assert nodes[fromAt[i]].id == edges[i].from;
      assert nodes[toAt[i]].id == edges[i].to;
    }
  }

  /** The compact end-to-end flow: five rows, each box drawn without an icon, no notes. */
  lemma EndToEndRows()
    ensures var c := KunEndToEndFlow();
      && c.size == Compact && |c.rows| == 5
      && forall i :: 0 <= i < 5 ==> c.rows[i].from.icon.None? && c.rows[i].to.icon.None? && c.rows[i].note.None?
  {
    EndToEndQuiet();
    QuietRows(EndToEndNodes, EndToEndEdges, "End-to-end Development Flow");
  }

  lemma EndToEndQuiet()
    ensures |EndToEndEdges| == 5
    ensures forall i :: 0 <= i < |EndToEndEdges| ==> EndToEndEdges[i].note.None?
  {
  }

  /** A compact chart with icons hidden and no edge notes shows no icon and no note on any row. */
  lemma QuietRows(nodes: seq<FlowNode>, edges: seq<Edge>, title: string)
    requires forall i :: 0 <= i < |edges| ==> edges[i].note.None?
    ensures Render(nodes, edges, title, false, false).size == Compact
    ensures |Render(nodes, edges, title, false, false).rows| == |edges|
    ensures forall i :: 0 <= i < |edges| ==>
      && Render(nodes, edges, title, false, false).rows[i].from.icon.None?
      && Render(nodes, edges, title, false, false).rows[i].to.icon.None?
      && Render(nodes, edges, title, false, false).rows[i].note.None?
  {
    EdgesInOrder(NodeById(nodes), edges, false);
  }

  /** The end-to-end flow starts at the developer's box and ends at the generated code's, by their labels. */
  lemma EndToEndEnds()
    ensures var c := KunEndToEndFlow();
      |c.rows| == 5 && c.rows[0].from.text == "Developer" && c.rows[4].to.text == "Generated Code"
  {
    EdgesInOrder(NodeById(EndToEndNodes), EndToEndEdges, false);
    EndToEndLookups();
  }

  lemma EndToEndLookups()
    ensures "dev" in NodeById(EndToEndNodes) && NodeById(EndToEndNodes)["dev"].text == "Developer"
    ensures "code" in NodeById(EndToEndNodes) && NodeById(EndToEndNodes)["code"].text == "Generated Code"
  {
    var ns := EndToEndNodes;
    var front := ns[..5];
    assert NodeById(ns) == NodeById(front)[ns[5].id := ns[5]];
    assert ns[5].id == "code" && ns[5].text == "Generated Code";
    assert front[0] == ns[0];
    LaterNodeWins(front, 0);
  }
}
