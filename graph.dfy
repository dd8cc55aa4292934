/** The graph builder: network and connector rows are tagged with their edge
    type, concatenated and projected to the six columns of the graph edge
    table. The directed graph handed to the router has exactly the ordered
    node pairs of that table as its edges. */
module Graph {
  import opened Tables
  import opened EdgeTable

  /** A full-table row projected to the graph edge columns, tagged `t`. */
  function ToGraphEdge(l: Link, t: EdgeType): (e: GraphEdge)
    ensures e.iNode == l.iNode && e.jNode == l.jNode && e.edgeType == t
    ensures e.costMinutes == l.costMinutes && e.lengthMetres == l.lengthMetres && e.wkt == l.wkt
  {
    GraphEdge(l.iNode, l.jNode, l.costMinutes, l.lengthMetres, t, l.wkt)
  }

  /** The graph edge table: the network rows tagged `network`, followed by the
      connector rows tagged `connector`. */
  function GraphTable(network: seq<Link>, connectors: seq<Link>): (t: seq<GraphEdge>)
    ensures |t| == |network| + |connectors|
    ensures forall k :: 0 <= k < |network| ==> t[k] == ToGraphEdge(network[k], NetworkEdge)
    ensures forall k :: 0 <= k < |connectors| ==>
      t[|network| + k] == ToGraphEdge(connectors[k], ConnectorEdge)
  {
    seq(|network|, k requires 0 <= k < |network| => ToGraphEdge(network[k], NetworkEdge))
    + seq(|connectors|, k requires 0 <= k < |connectors| => ToGraphEdge(connectors[k], ConnectorEdge))
  }

  /** The ordered node pair of an edge-table row. */
  function EdgeKey(e: GraphEdge): (Node, Node) {
    (e.iNode, e.jNode)
  }

  /** The edge set of the directed graph built from an edge table. */
  function EdgeSet(t: seq<GraphEdge>): (g: set<(Node, Node)>)
    ensures forall i, j :: (i, j) in g <==> exists n :: 0 <= n < |t| && t[n].iNode == i && t[n].jNode == j
  {
    set n | 0 <= n < |t| :: EdgeKey(t[n])
  }

  /** An edge-table row in the opposite direction, every attribute kept. */
  function ReverseEdge(e: GraphEdge): GraphEdge {
    e.(iNode := e.jNode, jNode := e.iNode)
  }

  /** Tagging and projecting commutes with reversing. */
  lemma {:induction false} ToGraphEdgeReverse(l: Link, t: EdgeType)
    ensures ToGraphEdge(Reverse(l), t) == ReverseEdge(ToGraphEdge(l, t))
  {
  }

  /** If both input tables are closed under reversal, so is the graph edge table. */
  lemma {:induction false} GraphTableClosed(network: seq<Link>, connectors: seq<Link>, n: nat) returns (m: nat)
    requires forall e :: e in network ==> Reverse(e) in network
    requires forall e :: e in connectors ==> Reverse(e) in connectors
    requires n < |network| + |connectors|
    ensures m < |GraphTable(network, connectors)|
    ensures GraphTable(network, connectors)[m] == ReverseEdge(GraphTable(network, connectors)[n])
  {
    var t := GraphTable(network, connectors);
    if n < |network| {
      assert Reverse(network[n]) in network;
      m :| 0 <= m < |network| && network[m] == Reverse(network[n]);
      ToGraphEdgeReverse(network[n], NetworkEdge);
    } else {
      var k := n - |network|;
      assert Reverse(connectors[k]) in connectors;
      var m' :| 0 <= m' < |connectors| && connectors[m'] == Reverse(connectors[k]);
      ToGraphEdgeReverse(connectors[k], ConnectorEdge);
      m := |network| + m';
    }
  }

  /** The graph of the full network and connector tables is symmetric: every
      edge has its reverse, and the reverse carries the same cost, length,
      geometry and edge type. */
  lemma {:induction false} GraphSymmetric(links: seq<Link>, connectors: seq<Connector>, n: nat) returns (m: nat)
    requires n < |GraphTable(GetNetwork(links), GetConnectors(connectors))|
    ensures m < |GraphTable(GetNetwork(links), GetConnectors(connectors))|
    ensures var t := GraphTable(GetNetwork(links), GetConnectors(connectors));
      t[m] == ReverseEdge(t[n])
  {
    NetworkSymmetric(links);
    ConnectorsSymmetric(connectors);
    m := GraphTableClosed(GetNetwork(links), GetConnectors(connectors), n);
  }

  /** Consequently the edge set handed to the router is symmetric. */
  lemma {:induction false} EdgeSetSymmetric(links: seq<Link>, connectors: seq<Connector>, i: Node, j: Node)
    requires (i, j) in EdgeSet(GraphTable(GetNetwork(links), GetConnectors(connectors)))
    ensures (j, i) in EdgeSet(GraphTable(GetNetwork(links), GetConnectors(connectors)))
  {
    var t := GraphTable(GetNetwork(links), GetConnectors(connectors));
    var n :| 0 <= n < |t| && t[n].iNode == i && t[n].jNode == j;
    var m := GraphSymmetric(links, connectors, n);
    assert t[m].iNode == j && t[m].jNode == i;
  }
}
