/** The engine object: it holds the graph edge table, the last routed path and
    the accumulated output tables, and its batch operations update them row by
    row. The router behind `get_path` is fixed when the object is made. */
module Engine {
  import opened Tables
  import opened Grouping
  import opened Graph
  import opened Router
  import opened Path
  import opened OdPair
  import opened Assignment
  import opened Aggregation
  import opened SelectLink
  import opened Accessibility

  class Model {
    /** The shortest-path search run on the graph built from `graphNetwork`. */
    const route: Router

    /** `graph_network_df`: the table the graph is built from and paths are joined with. */
    var graphNetwork: seq<GraphEdge>
    /** `last_path_output_df`: the joined rows of the last path found. */
    var lastPathOutput: seq<PathRow>
    /** `path_outputs_df` of the demand assignment. */
    var pathOutputs: seq<PathRow>
    /** `links_df` and `matrix_df`: the last link-volume table and cost matrix. */
    var links: seq<LinkRow>
    var matrix: seq<CostRow>
    /** The three tables of the last select-link run. */
    var slaOdPairs: seq<SlaOdPair>
    var slaPaths: seq<SlaPathRow>
    var slaLinks: seq<SlaLinkRow>
    /** The three accumulated tables of the last select-link batch. */
    var allSlaOdPairs: seq<SlaOdPair>
    var allSlaPaths: seq<SlaPathRow>
    var allSlaLinks: seq<SlaLinkRow>
    /** `path_outputs_df` of the accessibility analysis. */
    var accessOutputs: seq<AccessRow>
    /** `accessibility_matrix_df` and `accessibility_matrix_geom_df`. */
    var accessMatrix: seq<AccessMatrixRow>
    var accessMatrixGeom: seq<AccessGeomRow>

    /** A model with nothing built or assigned yet. */
    constructor(route: Router)
      ensures this.route == route
      ensures graphNetwork == [] && lastPathOutput == [] && pathOutputs == []
      ensures links == [] && matrix == []
      ensures slaOdPairs == [] && slaPaths == [] && slaLinks == []
      ensures allSlaOdPairs == [] && allSlaPaths == [] && allSlaLinks == []
      ensures accessOutputs == [] && accessMatrix == [] && accessMatrixGeom == []
    {
      this.route := route;
      graphNetwork, lastPathOutput, pathOutputs := [], [], [];
      links, matrix := [], [];
      slaOdPairs, slaPaths, slaLinks := [], [], [];
      allSlaOdPairs, allSlaPaths, allSlaLinks := [], [], [];
      accessOutputs, accessMatrix, accessMatrixGeom := [], [], [];
    }

    /** Builds the graph edge table from the full network and connector
      tables; the graph the router searches is the one of this table. */
    method BuildNetworkGraph(network: seq<Link>, connectors: seq<Link>) returns (t: seq<GraphEdge>)
      modifies this`graphNetwork
      ensures graphNetwork == GraphTable(network, connectors) && t == graphNetwork
      ensures forall i, j :: (i, j) in EdgeSet(t) <==>
        (exists n :: 0 <= n < |network| && network[n].iNode == i && network[n].jNode == j)
        || (exists n :: 0 <= n < |connectors| && connectors[n].iNode == i && connectors[n].jNode == j)
    {
      graphNetwork := GraphTable(network, connectors);
      t := graphNetwork;
      forall i, j ensures (i, j) in EdgeSet(t) <==>
        (exists n :: 0 <= n < |network| && network[n].iNode == i && network[n].jNode == j)
        || (exists n :: 0 <= n < |connectors| && connectors[n].iNode == i && connectors[n].jNode == j)
      {
        if (i, j) in EdgeSet(t) {
          var n :| 0 <= n < |t| && t[n].iNode == i && t[n].jNode == j;
          if n >= |network| {
            assert t[|network| + (n - |network|)] == t[n];
          }
        }
        if exists n :: 0 <= n < |network| && network[n].iNode == i && network[n].jNode == j {
          var n :| 0 <= n < |network| && network[n].iNode == i && network[n].jNode == j;
          assert t[n].iNode == i && t[n].jNode == j;
        }
        if exists n :: 0 <= n < |connectors| && connectors[n].iNode == i && connectors[n].jNode == j {
          var n :| 0 <= n < |connectors| && connectors[n].iNode == i && connectors[n].jNode == j;
          assert t[|network| + n].iNode == i && t[|network| + n].jNode == j;
        }
      }
    }

    /** Routes one OD pair and joins its segments with the edge table; a path
      found becomes the last path output, a failure leaves it as it was. */
    method GetPath(o: Node, d: Node, demand: real) returns (r: Result<seq<PathRow>>)
      modifies this`lastPathOutput
      ensures r == RoutePath(route, graphNetwork, o, d, demand)
      ensures r.Ok? ==> lastPathOutput == r.value
      ensures r.Err? ==> lastPathOutput == old(lastPathOutput)
    {
      r := RoutePath(route, graphNetwork, o, d, demand);
      if r.Ok? {
        lastPathOutput := r.value;
      }
    }

    /** Routes every demand row in order, concatenating the rows of each one
      that is found and skipping the others, then stamps `od_pair`. With no
      row routed the table has no columns and the stamp fails. `ids` is how
      the demand table's zone ids reach the label. */
    method AssignDemand(demand: seq<DemandRow>, ids: Rendering) returns (r: Result<seq<PathRow>>)
      modifies this`pathOutputs, this`lastPathOutput
      ensures r.Ok? <==> AnyRouted(route, graphNetwork, demand)
      ensures r.Ok? ==> r.value == StampOdPairs(AssignedPaths(route, graphNetwork, demand), ids) && pathOutputs == r.value
      ensures r.Err? ==> r.error == EmptyPathTable && pathOutputs == []
      ensures lastPathOutput == LastPathOutput(route, graphNetwork, demand, old(lastPathOutput))
    {
      pathOutputs := [];
      var routed := false;
      var n := 0;
      while n < |demand|
        invariant 0 <= n <= |demand|
        invariant pathOutputs == AssignedPaths(route, graphNetwork, demand[..n])
        invariant routed <==> AnyRouted(route, graphNetwork, demand[..n])
        invariant lastPathOutput == LastPathOutput(route, graphNetwork, demand[..n], old(lastPathOutput))
      {
        var row := demand[n];
        var res := GetPath(row.originZone, row.destZone, row.demand);
        if res.Ok? {
          pathOutputs := pathOutputs + lastPathOutput;
          routed := true;
        }
        assert demand[..n + 1] == demand[..n] + [row];
        ConcatMapSnoc(demand[..n], row, RowsOf(route, graphNetwork));
        AnyOkSnoc(demand[..n], row, RouteDemand(route, graphNetwork));
        LastOkSnoc(demand[..n], row, RouteDemand(route, graphNetwork), old(lastPathOutput));
        n := n + 1;
      }
      assert demand[..n] == demand;
      if !routed {
        NothingRoutedEmpty(route, graphNetwork, demand);
        r := Err(EmptyPathTable);
      } else {
        pathOutputs := StampOdPairs(pathOutputs, ids);
        r := Ok(pathOutputs);
      }
    }

    /** The link-volume table of a path table. */
    method OutputLinkResults(paths: seq<PathRow>) returns (r: seq<LinkRow>)
      modifies this`links
      ensures links == LinkResults(paths) && r == links
    {
      links := LinkResults(paths);
      r := links;
    }

    /** The cost matrix of a path table. */
    method OutputCostMatrix(paths: seq<PathRow>) returns (r: seq<CostRow>)
      modifies this`matrix
      ensures matrix == CostMatrix(paths) && r == matrix
    {
      matrix := CostMatrix(paths);
      r := matrix;
    }

    /** One select-link run: the OD pairs using the link, their full paths and
      the link volumes of those paths become the current select-link tables. */
    method RunSelectLinkAnalysis(paths: seq<PathRow>, link: NominatedLink) returns (r: SlaResult)
      modifies this`slaOdPairs, this`slaPaths, this`slaLinks
      ensures r == RunSelectLink(paths, link)
      ensures slaOdPairs == r.odPairs && slaPaths == r.paths && slaLinks == r.links
    {
      r := RunSelectLink(paths, link);
      slaOdPairs, slaPaths, slaLinks := r.odPairs, r.paths, r.links;
    }

    /** Runs every nominated link in order; the tables of each successful
      run are prepended to the accumulated tables, and a failing run is
      skipped. Returns the accumulated path table. */
    method SelectLinkAnalysis(paths: seq<PathRow>, nominated: seq<NominatedLink>, fails: Failure) returns (r: seq<SlaPathRow>)
      modifies this`slaOdPairs, this`slaPaths, this`slaLinks
      modifies this`allSlaOdPairs, this`allSlaPaths, this`allSlaLinks
      ensures SlaResult(allSlaOdPairs, allSlaPaths, allSlaLinks) == SlaBatch(paths, nominated, fails)
      ensures SlaResult(slaOdPairs, slaPaths, slaLinks)
        == LastOk(nominated, SlaRun(paths, fails), old(SlaResult(slaOdPairs, slaPaths, slaLinks)))
      ensures r == allSlaPaths
    {
      allSlaOdPairs, allSlaPaths, allSlaLinks := [], [], [];
      ghost var prev := SlaResult(slaOdPairs, slaPaths, slaLinks);
      var n := 0;
      while n < |nominated|
        invariant 0 <= n <= |nominated|
        invariant SlaResult(allSlaOdPairs, allSlaPaths, allSlaLinks) == SlaBatch(paths, nominated[..n], fails)
        invariant SlaResult(slaOdPairs, slaPaths, slaLinks) == LastOk(nominated[..n], SlaRun(paths, fails), prev)
      {
        var link := nominated[n];
        ghost var done := nominated[..n];
        SelectLinkStep(paths, link, fails);
        SlaBatchSnoc(paths, done, link, fails);
        LastOkSnoc(done, link, SlaRun(paths, fails), prev);
        assert SlaResult(allSlaOdPairs, allSlaPaths, allSlaLinks) == SlaBatch(paths, done + [link], fails);
        assert SlaResult(slaOdPairs, slaPaths, slaLinks) == LastOk(done + [link], SlaRun(paths, fails), prev);
        assert nominated[..n + 1] == done + [link];
        n := n + 1;
      }
      assert nominated[..n] == nominated;
      r := allSlaPaths;
    }

    /** One iteration of the select-link batch: a failing run changes
      nothing, a successful one becomes the current select-link tables and is
      prepended to the accumulated ones. */
    method SelectLinkStep(paths: seq<PathRow>, link: NominatedLink, fails: Failure)
      modifies this`slaOdPairs, this`slaPaths, this`slaLinks
      modifies this`allSlaOdPairs, this`allSlaPaths, this`allSlaLinks
      ensures allSlaOdPairs == OdPairsBlock(paths, fails)(link) + old(allSlaOdPairs)
      ensures allSlaPaths == PathsBlock(paths, fails)(link) + old(allSlaPaths)
      ensures allSlaLinks == LinksBlock(paths, fails)(link) + old(allSlaLinks)
      ensures SlaResult(slaOdPairs, slaPaths, slaLinks)
        == if SlaRun(paths, fails)(link).Ok? then SlaRun(paths, fails)(link).value
           else old(SlaResult(slaOdPairs, slaPaths, slaLinks))
    {
      if !fails(link) {
        var res := RunSelectLinkAnalysis(paths, link);
        allSlaOdPairs := slaOdPairs + allSlaOdPairs;
        allSlaPaths := slaPaths + allSlaPaths;
        allSlaLinks := slaLinks + allSlaLinks;
      } else {
        assert OdPairsBlock(paths, fails)(link) == [];
        assert PathsBlock(paths, fails)(link) == [];
        assert LinksBlock(paths, fails)(link) == [];
      }
    }

    /** One iteration of the accessibility loop: the route towards the
      analysis zone and, when it is found, the route away from it; each route
      found is tagged and appended, and becomes the last path output. */
    method SkimPair(a: AnalysisZone, z: Zone) returns (ok: bool)
      modifies this`accessOutputs, this`lastPathOutput
      ensures ok == PairOutcome(route, graphNetwork)((a, z)).Ok?
      ensures accessOutputs == old(accessOutputs) + PairRows(route, graphNetwork)((a, z))
      ensures lastPathOutput
        == if ok then PairOutcome(route, graphNetwork)((a, z)).value else old(lastPathOutput)
    {
      var p := (a, z);
      PairSteps(route, graphNetwork, p);
      var toRes := GetPath(z.zoneId, a.zoneId, 0.0);
      assert toRes == ToRoute(route, graphNetwork, p);
      ok := toRes.Ok?;
      if ok {
        var towards := TagRows(toRes.value, ToAnalysisZone, p);
        var fromRes := GetPath(a.zoneId, z.zoneId, 0.0);
        assert fromRes == FromRoute(route, graphNetwork, p);
        var away := if fromRes.Ok? then TagRows(fromRes.value, FromAnalysisZone, p) else [];
        assert towards + away == PairRows(route, graphNetwork)(p);
        accessOutputs := accessOutputs + (towards + away);
      }
    }

    /** The inner loop of the accessibility analysis: every zone, in order,
      with one analysis zone, continuing the table, the flag and the last path
      output accumulated over the iterations `done` before it. */
    method SkimAnalysisZone(a: AnalysisZone, zones: seq<Zone>, ghost done: seq<ZonePair>, routedBefore: bool, ghost prev: seq<PathRow>)
      returns (routed: bool)
      requires accessOutputs == ConcatMap(done, PairRows(route, graphNetwork))
      requires routedBefore <==> AnyOk(done, PairOutcome(route, graphNetwork))
      requires lastPathOutput == LastOk(done, PairOutcome(route, graphNetwork), prev)
      modifies this`accessOutputs, this`lastPathOutput
      ensures accessOutputs == ConcatMap(done + PairsOf(zones)(a), PairRows(route, graphNetwork))
      ensures routed <==> AnyOk(done + PairsOf(zones)(a), PairOutcome(route, graphNetwork))
      ensures lastPathOutput == LastOk(done + PairsOf(zones)(a), PairOutcome(route, graphNetwork), prev)
    {
      routed := routedBefore;
      ghost var ps := done;
      var j := 0;
      while j < |zones|
        invariant 0 <= j <= |zones|
        invariant ps == done + PairsOf(zones[..j])(a)
        invariant accessOutputs == ConcatMap(ps, PairRows(route, graphNetwork))
        invariant routed <==> AnyOk(ps, PairOutcome(route, graphNetwork))
        invariant lastPathOutput == LastOk(ps, PairOutcome(route, graphNetwork), prev)
      {
        routed := SkimStep(a, zones[j], ps, routed, prev);
        PairsOfSnoc(zones, j, a);
        AppendAssoc(done, PairsOf(zones[..j])(a), [(a, zones[j])]);
        ps := ps + [(a, zones[j])];
        j := j + 1;
      }
      assert zones[..j] == zones;
    }

    /** One iteration of the inner loop, continuing the table, the flag and
      the last path output accumulated over the iterations `done` before it. */
    method SkimStep(a: AnalysisZone, z: Zone, ghost done: seq<ZonePair>, routedBefore: bool, ghost prev: seq<PathRow>)
      returns (routed: bool)
      requires accessOutputs == ConcatMap(done, PairRows(route, graphNetwork))
      requires routedBefore <==> AnyOk(done, PairOutcome(route, graphNetwork))
      requires lastPathOutput == LastOk(done, PairOutcome(route, graphNetwork), prev)
      modifies this`accessOutputs, this`lastPathOutput
      ensures accessOutputs == ConcatMap(done + [(a, z)], PairRows(route, graphNetwork))
      ensures routed <==> AnyOk(done + [(a, z)], PairOutcome(route, graphNetwork))
      ensures lastPathOutput == LastOk(done + [(a, z)], PairOutcome(route, graphNetwork), prev)
    {
      var ok := SkimPair(a, z);
      routed := routedBefore || ok;
      ConcatMapSnoc(done, (a, z), PairRows(route, graphNetwork));
      AnyOkSnoc(done, (a, z), PairOutcome(route, graphNetwork));
      LastOkSnoc(done, (a, z), PairOutcome(route, graphNetwork), prev);
    }

    /** Both loops of the accessibility analysis: the accessibility table of
      every iteration, whether any route towards an analysis zone was found,
      and the last path output they leave. */
    method SkimAll(analysisZones: seq<AnalysisZone>, zones: seq<Zone>) returns (routed: bool)
      modifies this`accessOutputs, this`lastPathOutput
      ensures accessOutputs == AccessRows(route, graphNetwork, analysisZones, zones)
      ensures routed <==> AnyAccessRouted(route, graphNetwork, analysisZones, zones)
      ensures lastPathOutput == LastOk(ZonePairs(analysisZones, zones), PairOutcome(route, graphNetwork), old(lastPathOutput))
    {
      accessOutputs := [];
      routed := false;
      var i := 0;
      while i < |analysisZones|
        invariant 0 <= i <= |analysisZones|
        invariant accessOutputs == AccessRows(route, graphNetwork, analysisZones[..i], zones)
        invariant routed <==> AnyAccessRouted(route, graphNetwork, analysisZones[..i], zones)
        invariant lastPathOutput == LastOk(ZonePairs(analysisZones[..i], zones), PairOutcome(route, graphNetwork), old(lastPathOutput))
      {
        var a := analysisZones[i];
        routed := SkimAnalysisZone(a, zones, ZonePairs(analysisZones[..i], zones), routed, old(lastPathOutput));
        ghost var done := ZonePairs(analysisZones[..i], zones) + PairsOf(zones)(a);
        assert analysisZones[..i + 1] == analysisZones[..i] + [a];
        ConcatMapSnoc(analysisZones[..i], a, PairsOf(zones));
        assert done == ZonePairs(analysisZones[..i + 1], zones);
        i := i + 1;
      }
      assert analysisZones[..i] == analysisZones;
    }

    /** Routes every zone to and from every analysis zone at zero demand, in
      loop order, keeping the route towards an analysis zone even when the
      route away from it fails; then stamps `od_pair`, reduces the table to
      the accessibility matrix and joins the opposite zones' geometry. With no
      route found the table has no columns and the stamp fails. `ids` is how
      the zone ids reach the label. */
    method AnalyseAccessibility(analysisZones: seq<AnalysisZone>, zones: seq<Zone>, ids: Rendering) returns (r: Result<seq<AccessGeomRow>>)
      modifies this`accessOutputs, this`lastPathOutput, this`accessMatrix, this`accessMatrixGeom
      ensures r.Ok? <==> AnyAccessRouted(route, graphNetwork, analysisZones, zones)
      ensures r.Ok? ==>
        && accessOutputs == StampAccess(AccessRows(route, graphNetwork, analysisZones, zones), ids)
        && accessMatrix == AccessMatrix(accessOutputs)
        && accessMatrixGeom == JoinZones(accessMatrix, zones)
        && r.value == accessMatrixGeom
      ensures r.Err? ==>
        && r.error == EmptyPathTable && accessOutputs == []
        && accessMatrix == old(accessMatrix) && accessMatrixGeom == old(accessMatrixGeom)
      ensures lastPathOutput == LastOk(ZonePairs(analysisZones, zones), PairOutcome(route, graphNetwork), old(lastPathOutput))
    {
      ghost var g := graphNetwork;
      var routed := SkimAll(analysisZones, zones);
      if !routed {
        NothingAccessRoutedEmpty(route, g, analysisZones, zones);
        r := Err(EmptyPathTable);
      } else {
        var geom := Summarise(zones, ids);
        r := Ok(geom);
      }
      assert graphNetwork == g;
    }

    /** The output stage of the accessibility analysis: the `od_pair` stamp,
      the matrix and the geometry join. */
    method Summarise(zones: seq<Zone>, ids: Rendering) returns (geom: seq<AccessGeomRow>)
      modifies this`accessOutputs, this`accessMatrix, this`accessMatrixGeom
      ensures accessOutputs == StampAccess(old(accessOutputs), ids)
      ensures accessMatrix == AccessMatrix(accessOutputs)
      ensures accessMatrixGeom == JoinZones(accessMatrix, zones) && geom == accessMatrixGeom
    {
      accessOutputs := StampAccess(accessOutputs, ids);
      accessMatrix := AccessMatrix(accessOutputs);
      accessMatrixGeom := JoinZones(accessMatrix, zones);
      geom := accessMatrixGeom;
    }
  }

  /** The iterations over a longer zone prefix add one iteration at the end. */
  lemma {:induction false} PairsOfSnoc(zones: seq<Zone>, j: nat, a: AnalysisZone)
    requires j < |zones|
    ensures PairsOf(zones[..j + 1])(a) == PairsOf(zones[..j])(a) + [(a, zones[j])]
  {
    var l := PairsOf(zones[..j + 1])(a);
    var r := PairsOf(zones[..j])(a) + [(a, zones[j])];
    assert |l| == |r|;
    forall k | 0 <= k < |l| ensures l[k] == r[k] {
      if k < j {
        assert zones[..j + 1][k] == zones[..j][k];
      }
    }
  }
}
