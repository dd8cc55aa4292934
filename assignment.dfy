/** The assignment engine as functions of the demand table: the path-edge
    table is the concatenation, in demand-table order, of the joined paths of
    the OD rows the router could route; afterwards every row is stamped with
    its `od_pair` label. */
module Assignment {
  import opened Tables
  import opened Graph
  import opened Router
  import opened Path
  import opened OdPair
  import opened Grouping

  /** The router finds a path for this demand row. */
  ghost predicate Routes(route: Router, t: seq<GraphEdge>, r: DemandRow) {
    route(t, r.originZone, r.destZone).Some?
  }

  /** The route of one demand row. */
  function RouteDemand(route: Router, t: seq<GraphEdge>): DemandRow -> Result<seq<PathRow>> {
    (r: DemandRow) => RoutePath(route, t, r.originZone, r.destZone, r.demand)
  }

  /** The joined path of one demand row; a row the router fails on adds nothing. */
  function RowsOf(route: Router, t: seq<GraphEdge>): DemandRow -> seq<PathRow> {
    (r: DemandRow) =>
      match RoutePath(route, t, r.originZone, r.destZone, r.demand)
      case Ok(rows) => rows
      case Err(_) => []
  }

  /** The path-edge table of a demand table, before the `od_pair` stamp. */
  function AssignedPaths(route: Router, t: seq<GraphEdge>, demand: seq<DemandRow>): seq<PathRow> {
    ConcatMap(demand, RowsOf(route, t))
  }

  /** Some demand row is routed. */
  ghost predicate AnyRouted(route: Router, t: seq<GraphEdge>, demand: seq<DemandRow>) {
    AnyOk(demand, RouteDemand(route, t))
  }

  /** The rows of one demand row carry its zones and demand, and a row the
      router fails on contributes no rows. */
  lemma {:induction false} RowsOfDemand(route: Router, t: seq<GraphEdge>, r: DemandRow)
    ensures RouteDemand(route, t)(r).Ok? <==> Routes(route, t, r)
    ensures !Routes(route, t, r) ==> RowsOf(route, t)(r) == []
    ensures Routes(route, t, r) ==> RowsOf(route, t)(r) == RouteDemand(route, t)(r).value
    ensures forall row :: row in RowsOf(route, t)(r) ==>
      row.originZone == r.originZone && row.destZone == r.destZone && row.demand == r.demand
      && row.odPair == None && (row.iNode, row.jNode) in EdgeSet(t)
  {
    RoutePathRows(route, t, r.originZone, r.destZone, r.demand);
  }

  /** Every row of the path-edge table comes from a demand row the router
      could route, and carries that row's zones and demand. */
  lemma {:induction false} AssignedPathsSound(route: Router, t: seq<GraphEdge>, demand: seq<DemandRow>, row: PathRow)
    requires row in AssignedPaths(route, t, demand)
    ensures exists n ::
              && 0 <= n < |demand| && Routes(route, t, demand[n])
              && row.originZone == demand[n].originZone && row.destZone == demand[n].destZone
              && row.demand == demand[n].demand
  {
    ConcatMapSound(demand, RowsOf(route, t), row);
    var n :| 0 <= n < |demand| && row in RowsOf(route, t)(demand[n]);
    RowsOfDemand(route, t, demand[n]);
  }

  /** Every row of every routed demand row is in the path-edge table. */
  lemma {:induction false} AssignedPathsComplete(route: Router, t: seq<GraphEdge>, demand: seq<DemandRow>, n: nat, row: PathRow)
    requires n < |demand| && row in RowsOf(route, t)(demand[n])
    ensures row in AssignedPaths(route, t, demand)
  {
    ConcatMapComplete(demand, RowsOf(route, t), n, row);
  }

  /** Assignment keeps demand-table order: the table of a concatenation of
      demand tables is the concatenation of their tables. */
  lemma {:induction false} AssignedPathsAppend(route: Router, t: seq<GraphEdge>, d1: seq<DemandRow>, d2: seq<DemandRow>)
    ensures AssignedPaths(route, t, d1 + d2) == AssignedPaths(route, t, d1) + AssignedPaths(route, t, d2)
  {
    ConcatMapAppend(d1, d2, RowsOf(route, t));
  }

  /** A failing demand row adds nothing and does not stop the rows after it. */
  lemma {:induction false} FailingRowSkipped(route: Router, t: seq<GraphEdge>, d1: seq<DemandRow>, r: DemandRow, d2: seq<DemandRow>)
    requires !Routes(route, t, r)
    ensures AssignedPaths(route, t, d1 + [r] + d2) == AssignedPaths(route, t, d1) + AssignedPaths(route, t, d2)
  {
    RowsOfDemand(route, t, r);
    ConcatMapSkip(d1, r, d2, RowsOf(route, t));
  }

  /** `last_path_output_df` after the batch: the joined rows of the last demand
      row routed, or `prev` when none is. */
  function LastPathOutput(route: Router, t: seq<GraphEdge>, demand: seq<DemandRow>, prev: seq<PathRow>): seq<PathRow> {
    LastOk(demand, RouteDemand(route, t), prev)
  }

  /** The last path output belongs to the last routed demand row. */
  lemma {:induction false} LastPathOutputIsLast(route: Router, t: seq<GraphEdge>, demand: seq<DemandRow>, prev: seq<PathRow>)
    ensures !AnyRouted(route, t, demand) ==> LastPathOutput(route, t, demand, prev) == prev
    ensures AnyRouted(route, t, demand) ==>
      exists n ::
        && 0 <= n < |demand| && Routes(route, t, demand[n])
        && LastPathOutput(route, t, demand, prev) == RowsOf(route, t)(demand[n])
        && forall m :: n < m < |demand| ==> !Routes(route, t, demand[m])
  {
    LastOkIsLast(demand, RouteDemand(route, t), prev);
    forall r | true ensures RouteDemand(route, t)(r).Ok? <==> Routes(route, t, r) {
      RowsOfDemand(route, t, r);
    }
    if AnyRouted(route, t, demand) {
      var n :| 0 <= n < |demand| && RouteDemand(route, t)(demand[n]).Ok?
        && LastPathOutput(route, t, demand, prev) == RouteDemand(route, t)(demand[n]).value
        && forall m :: n < m < |demand| ==> RouteDemand(route, t)(demand[m]).Err?;
      RowsOfDemand(route, t, demand[n]);
    }
  }

  /** A path row stamped with its `od_pair` label, its zones rendered as `how` says. */
  function Stamp(how: Rendering): PathRow -> PathRow {
    (row: PathRow) => row.(odPair := Some(OdPairString(how, row.originZone, row.destZone)))
  }

  /** The `od_pair` stamp of a path-edge table. */
  function StampOdPairs(rows: seq<PathRow>, how: Rendering): seq<PathRow> {
    Map(rows, Stamp(how))
  }

  /** The stamp gives every row the label of its own zones, recoverable from
      the label, and changes nothing else. */
  lemma {:induction false} StampOdPairsLabels(rows: seq<PathRow>, how: Rendering)
    ensures |StampOdPairs(rows, how)| == |rows|
    ensures var r := StampOdPairs(rows, how);
      forall k :: 0 <= k < |r| ==> r[k].odPair == Some(OdPairString(how, rows[k].originZone, rows[k].destZone))
    ensures var r := StampOdPairs(rows, how);
      forall k :: 0 <= k < |r| ==>
        r[k].odPair.Some? && SplitOdPair(r[k].odPair.value) == Some((rows[k].originZone, rows[k].destZone))
    ensures var r := StampOdPairs(rows, how);
      forall k :: 0 <= k < |r| ==> r[k].(odPair := None) == rows[k].(odPair := None)
  {
    forall k | 0 <= k < |rows| {
      OdPairRoundTrip(how, rows[k].originZone, rows[k].destZone);
    }
  }

  /** A single route over an edge table with no duplicate `(i, j)` rows gives
      one path row per traversed segment, numbered from 1 in path order. */
  lemma {:induction false} RoutedRowsOfUniqueTable(route: Router, t: seq<GraphEdge>, r: DemandRow)
    requires RouterSound(route) && Routes(route, t, r)
    requires forall n :: 0 <= n < |t| ==> CountWhere(t, EdgeKey, EdgeKey(t[n])) == 1
    ensures var p := route(t, r.originZone, r.destZone).value;
      && |RowsOf(route, t)(r)| == |p| - 1
      && forall k :: 0 <= k < |p| - 1 ==>
        RowsOf(route, t)(r)[k].iNode == p[k] && RowsOf(route, t)(r)[k].jNode == p[k + 1]
        && RowsOf(route, t)(r)[k].segmentNum == k + 1
  {
    var p := route(t, r.originZone, r.destZone).value;
    assert IsPath(EdgeSet(t), r.originZone, r.destZone, p);
    PathRowsOfUniqueTable(t, p, r.originZone, r.destZone, r.demand);
    assert RowsOf(route, t)(r) == JoinPath(Segments(p, r.originZone, r.destZone, r.demand), t);
  }

  /** Joining the segments of a path with a table whose `(i, j)` keys are
      unique gives one row per segment, numbered from 1 in path order. */
  lemma {:induction false} PathRowsOfUniqueTable(t: seq<GraphEdge>, p: seq<Node>, o: Node, d: Node, demand: real)
    requires IsPath(EdgeSet(t), o, d, p)
    requires forall n :: 0 <= n < |t| ==> CountWhere(t, EdgeKey, EdgeKey(t[n])) == 1
    ensures var rows := JoinPath(Segments(p, o, d, demand), t);
      && |rows| == |p| - 1
      && forall k :: 0 <= k < |p| - 1 ==>
        rows[k].iNode == p[k] && rows[k].jNode == p[k + 1] && rows[k].segmentNum == k + 1
  {
    var segs := Segments(p, o, d, demand);
    SegmentsNumbered(p, o, d, demand);
    SegmentsOnUniqueEdges(t, p, o, d, demand);
    JoinPathUnique(segs, t);
    var rows := JoinPath(segs, t);
    forall k | 0 <= k < |p| - 1
      ensures rows[k].iNode == p[k] && rows[k].jNode == p[k + 1] && rows[k].segmentNum == k + 1
    {
      assert SegmentOf(rows[k]) == segs[k];
    }
  }

  /** Every segment of a path through the graph of a table whose `(i, j)` keys
      are unique matches exactly one row of the table. */
  lemma {:induction false} SegmentsOnUniqueEdges(t: seq<GraphEdge>, p: seq<Node>, o: Node, d: Node, demand: real)
    requires IsPath(EdgeSet(t), o, d, p)
    requires forall n :: 0 <= n < |t| ==> CountWhere(t, EdgeKey, EdgeKey(t[n])) == 1
    ensures var segs := Segments(p, o, d, demand);
      forall k :: 0 <= k < |segs| ==> CountWhere(t, EdgeKey, SegmentKey(segs[k])) == 1
  {
    var segs := Segments(p, o, d, demand);
    SegmentsNumbered(p, o, d, demand);
    forall k | 0 <= k < |segs| ensures CountWhere(t, EdgeKey, SegmentKey(segs[k])) == 1 {
      assert (p[k], p[k + 1]) in EdgeSet(t);
      var n :| 0 <= n < |t| && t[n].iNode == p[k] && t[n].jNode == p[k + 1];
      assert EdgeKey(t[n]) == SegmentKey(segs[k]);
    }
  }

  /** When no demand row is routed the path-edge table is empty. */
  lemma {:induction false} NothingRoutedEmpty(route: Router, t: seq<GraphEdge>, demand: seq<DemandRow>)
    requires !AnyRouted(route, t, demand)
    ensures AssignedPaths(route, t, demand) == []
  {
    forall n | 0 <= n < |demand| ensures RowsOf(route, t)(demand[n]) == [] {
      RowsOfDemand(route, t, demand[n]);
    }
    ConcatMapEmpty(demand, RowsOf(route, t));
  }
}
