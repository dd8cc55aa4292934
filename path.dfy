/** Path expansion: a routed node sequence becomes numbered segments, and the
    segments are inner-joined with the graph edge table on `(i_node, j_node)`
    to recover each traversed edge's attributes. */
module Path {
  import opened Tables
  import opened Grouping
  import opened Graph
  import opened Router

  /** The segments of a node path: segment k runs from node k to node k+1. */
  function Segments(path: seq<Node>, o: Node, d: Node, demand: real): seq<Segment> {
    if |path| == 0 then []
    else seq(|path| - 1, k requires 0 <= k < |path| - 1 => Segment(path[k], path[k + 1], o, d, demand, k + 1))
  }

  /** A path of n nodes gives n-1 segments; segment k runs from node k to node
      k+1, is numbered k+1 and carries the OD pair and demand of the route. */
  lemma {:induction false} SegmentsNumbered(path: seq<Node>, o: Node, d: Node, demand: real)
    ensures |Segments(path, o, d, demand)| == if |path| == 0 then 0 else |path| - 1
    ensures forall k :: 0 <= k < |Segments(path, o, d, demand)| ==>
      && Segments(path, o, d, demand)[k].iNode == path[k]
      && Segments(path, o, d, demand)[k].jNode == path[k + 1]
      && Segments(path, o, d, demand)[k].segmentNum == k + 1
      && Segments(path, o, d, demand)[k].originZone == o
      && Segments(path, o, d, demand)[k].destZone == d
      && Segments(path, o, d, demand)[k].demand == demand
  {
  }

  /** The node sequence a list of segments walks: the first start node, then
      every end node. */
  function SegmentNodes(segs: seq<Segment>): seq<Node>
    requires |segs| > 0
  {
    [segs[0].iNode] + seq(|segs|, k requires 0 <= k < |segs| => segs[k].jNode)
  }

  /** Expanding a path of at least one edge into segments loses nothing: the
      walk of the segments is the path again. */
  lemma {:induction false} SegmentsRoundTrip(path: seq<Node>, o: Node, d: Node, demand: real)
    requires |path| >= 2
    ensures SegmentNodes(Segments(path, o, d, demand)) == path
  {
    var segs := Segments(path, o, d, demand);
    SegmentsNumbered(path, o, d, demand);
    var w := SegmentNodes(segs);
    assert |w| == |path|;
    forall k | 0 <= k < |path| ensures w[k] == path[k] {
      if k > 0 { assert w[k] == segs[k - 1].jNode; }
    }
  }

  /** The segments of a routed path form a connected walk over graph edges from
      the origin to the destination. */
  lemma {:induction false} RoutedSegmentsWalk(route: Router, t: seq<GraphEdge>, o: Node, d: Node, demand: real)
    requires RouterSound(route) && route(t, o, d).Some?
    ensures var segs := Segments(route(t, o, d).value, o, d, demand);
      && (|segs| > 0 ==> segs[0].iNode == o && segs[|segs| - 1].jNode == d)
      && (forall k :: 0 <= k < |segs| - 1 ==> segs[k].jNode == segs[k + 1].iNode)
      && (forall k :: 0 <= k < |segs| ==> (segs[k].iNode, segs[k].jNode) in EdgeSet(t))
  {
    assert IsPath(EdgeSet(t), o, d, route(t, o, d).value);
    SegmentsNumbered(route(t, o, d).value, o, d, demand);
  }

  /** The edge-table key a segment is joined on. */
  function SegmentKey(s: Segment): (Node, Node) {
    (s.iNode, s.jNode)
  }

  /** A joined row: the segment's columns followed by the edge's attributes. */
  function MergeRow(s: Segment, e: GraphEdge): PathRow {
    PathRow(s.iNode, s.jNode, s.originZone, s.destZone, s.demand, s.segmentNum,
            e.costMinutes, e.lengthMetres, e.edgeType, e.wkt, None)
  }

  /** The segment columns of a joined row. */
  function SegmentOf(r: PathRow): Segment {
    Segment(r.iNode, r.jNode, r.originZone, r.destZone, r.demand, r.segmentNum)
  }

  /** The inner join of one segment with the edge table: one row for every
      edge-table row with the segment's `(i, j)`, in table order. */
  function JoinSegment(s: Segment, t: seq<GraphEdge>): (rows: seq<PathRow>)
    ensures |rows| == CountWhere(t, EdgeKey, SegmentKey(s))
    ensures forall n :: 0 <= n < |t| && EdgeKey(t[n]) == SegmentKey(s) ==> MergeRow(s, t[n]) in rows
    ensures forall r :: r in rows ==>
      exists n :: 0 <= n < |t| && EdgeKey(t[n]) == SegmentKey(s) && r == MergeRow(s, t[n])
  {
    if |t| == 0 then []
    else
      var init := t[..|t| - 1];
      var last := t[|t| - 1];
      var prev := JoinSegment(s, init);
      assert forall n :: 0 <= n < |init| ==> init[n] == t[n];
      prev + (if EdgeKey(last) == SegmentKey(s) then [MergeRow(s, last)] else [])
  }

  /** The inner join of a segment list with the edge table, segment by segment. */
  function JoinPath(segs: seq<Segment>, t: seq<GraphEdge>): seq<PathRow> {
    if |segs| == 0 then [] else JoinPath(segs[..|segs| - 1], t) + JoinSegment(segs[|segs| - 1], t)
  }

  /** Every row of the join is a segment merged with an edge-table row that has
      the segment's `(i, j)`. */
  lemma {:induction false} JoinPathSound(segs: seq<Segment>, t: seq<GraphEdge>, r: PathRow)
    requires r in JoinPath(segs, t)
    ensures exists k, n ::
              && 0 <= k < |segs| && 0 <= n < |t|
              && EdgeKey(t[n]) == SegmentKey(segs[k]) && r == MergeRow(segs[k], t[n])
  {
    var init := segs[..|segs| - 1];
    if r in JoinPath(init, t) {
      JoinPathSound(init, t, r);
      var k, n :| 0 <= k < |init| && 0 <= n < |t| && EdgeKey(t[n]) == SegmentKey(init[k]) && r == MergeRow(init[k], t[n]);
      assert init[k] == segs[k];
    } else {
      assert r in JoinSegment(segs[|segs| - 1], t);
    }
  }

  /** Every edge-table row matching a segment is joined to it: the join keeps
      all duplicates of an `(i, j)` pair. */
  lemma {:induction false} JoinPathComplete(segs: seq<Segment>, t: seq<GraphEdge>, k: nat, n: nat)
    requires k < |segs| && n < |t| && EdgeKey(t[n]) == SegmentKey(segs[k])
    ensures MergeRow(segs[k], t[n]) in JoinPath(segs, t)
  {
    var init := segs[..|segs| - 1];
    if k < |init| {
      assert init[k] == segs[k];
      JoinPathComplete(init, t, k, n);
    }
  }

  /** When every segment's `(i, j)` is exactly one edge-table row, the join
      neither drops nor repeats a segment: row k is segment k. */
  lemma {:induction false} JoinPathUnique(segs: seq<Segment>, t: seq<GraphEdge>)
    requires forall k :: 0 <= k < |segs| ==> CountWhere(t, EdgeKey, SegmentKey(segs[k])) == 1
    ensures |JoinPath(segs, t)| == |segs|
    ensures forall k :: 0 <= k < |segs| ==> SegmentOf(JoinPath(segs, t)[k]) == segs[k]
  {
    if |segs| > 0 {
      var init := segs[..|segs| - 1];
      var s := segs[|segs| - 1];
      JoinPathUnique(init, t);
      var one := JoinSegment(s, t);
      assert |one| == 1;
      assert one[0] in one;
      var rows := JoinPath(segs, t);
      assert rows == JoinPath(init, t) + one;
      forall k | 0 <= k < |segs| ensures SegmentOf(rows[k]) == segs[k] {
        if k < |init| {
          assert rows[k] == JoinPath(init, t)[k];
        } else {
          assert rows[k] == one[0];
        }
      }
    }
  }

  /** The path rows of one route: None from the router is the router's failure. */
  function RoutePath(route: Router, t: seq<GraphEdge>, o: Node, d: Node, demand: real): Result<seq<PathRow>> {
    match route(t, o, d)
    case None => Err(NoPath)
    case Some(p) => Ok(JoinPath(Segments(p, o, d, demand), t))
  }

  /** A route fails exactly when the router finds no path, and every row of a
      route carries its OD pair and demand, has no `od_pair` label yet and
      traverses an edge of the graph. */
  lemma {:induction false} RoutePathRows(route: Router, t: seq<GraphEdge>, o: Node, d: Node, demand: real)
    ensures RoutePath(route, t, o, d, demand).Ok? <==> route(t, o, d).Some?
    ensures RoutePath(route, t, o, d, demand).Err? ==> RoutePath(route, t, o, d, demand).error == NoPath
    ensures RoutePath(route, t, o, d, demand).Ok? ==> forall row :: row in RoutePath(route, t, o, d, demand).value ==>
      && row.originZone == o && row.destZone == d && row.demand == demand && row.odPair == None
      && (row.iNode, row.jNode) in EdgeSet(t)
  {
    if route(t, o, d).Some? {
      var segs := Segments(route(t, o, d).value, o, d, demand);
      SegmentsNumbered(route(t, o, d).value, o, d, demand);
      forall row | row in JoinPath(segs, t)
        ensures row.originZone == o && row.destZone == d && row.demand == demand && row.odPair == None
        ensures (row.iNode, row.jNode) in EdgeSet(t)
      {
        JoinPathSound(segs, t, row);
        var k, n :| 0 <= k < |segs| && 0 <= n < |t| && EdgeKey(t[n]) == SegmentKey(segs[k]) && row == MergeRow(segs[k], t[n]);
      }
    }
  }

  /** Every segment of a path of the graph has at least one joined row, so the
      expansion of a route never loses a segment. */
  lemma {:induction false} SegmentCovered(p: seq<Node>, t: seq<GraphEdge>, o: Node, d: Node, demand: real, k: nat)
    returns (row: PathRow)
    requires IsPath(EdgeSet(t), o, d, p)
    requires k < |p| - 1
    ensures row in JoinPath(Segments(p, o, d, demand), t)
    ensures SegmentOf(row) == Segments(p, o, d, demand)[k]
  {
    var segs := Segments(p, o, d, demand);
    SegmentsNumbered(p, o, d, demand);
    assert (p[k], p[k + 1]) in EdgeSet(t);
    var n :| 0 <= n < |t| && t[n].iNode == p[k] && t[n].jNode == p[k + 1];
    assert EdgeKey(t[n]) == SegmentKey(segs[k]);
    JoinPathComplete(segs, t, k, n);
    row := MergeRow(segs[k], t[n]);
  }

  /** The same for a route returned by a sound router. */
  lemma {:induction false} RoutedPathCovered(route: Router, t: seq<GraphEdge>, o: Node, d: Node, demand: real, k: nat)
    returns (row: PathRow)
    requires RouterSound(route) && route(t, o, d).Some?
    requires k < |route(t, o, d).value| - 1
    ensures row in RoutePath(route, t, o, d, demand).value
    ensures SegmentOf(row) == Segments(route(t, o, d).value, o, d, demand)[k]
  {
    var p := route(t, o, d).value;
    assert IsPath(EdgeSet(t), o, d, p);
    row := SegmentCovered(p, t, o, d, demand, k);
  }
}
