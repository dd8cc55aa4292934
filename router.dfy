/** The shortest-path router. The engine calls networkx's Dijkstra search on
    the graph built from the edge table; the model takes that search as a
    parameter and states only what every result of it satisfies. */
module Router {
  import opened Tables
  import opened Graph

  /** A router: given the edge table the graph was built from, an origin and a
      destination, a node path, or None when no path exists or an endpoint is
      not a node of the graph. */
  type Router = (seq<GraphEdge>, Node, Node) -> Option<seq<Node>>

  /** `n` is a node of the graph: an end of one of its edges. */
  ghost predicate IsNode(g: set<(Node, Node)>, n: Node) {
    exists e :: e in g && (e.0 == n || e.1 == n)
  }

  /** `p` is a path of the graph from `o` to `d`: both ends are nodes of the
      graph, it starts at `o`, ends at `d` and every consecutive pair of nodes
      is an edge. */
  ghost predicate IsPath(g: set<(Node, Node)>, o: Node, d: Node, p: seq<Node>) {
    && IsNode(g, o) && IsNode(g, d)
    && |p| >= 1
    && p[0] == o
    && p[|p| - 1] == d
    && forall k :: 0 <= k < |p| - 1 ==> (p[k], p[k + 1]) in g
  }

  /** What every path the router returns satisfies. */
  ghost predicate RouterSound(route: Router) {
    forall t, o, d :: route(t, o, d).Some? ==> IsPath(EdgeSet(t), o, d, route(t, o, d).value)
  }

  /** A sound router finds no path from or to a node the graph does not have
      (networkx raises `NodeNotFound` there). */
  lemma {:induction false} UnknownNodeNotRouted(route: Router, t: seq<GraphEdge>, o: Node, d: Node)
    requires RouterSound(route)
    requires !IsNode(EdgeSet(t), o) || !IsNode(EdgeSet(t), d)
    ensures route(t, o, d).None?
  {
  }
}
