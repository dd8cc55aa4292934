/** The accessibility analysis as functions of its inputs: every analysis zone
    is routed to and from every zone at zero demand, the tagged path rows are
    reduced to a matrix of network distance and cycling time per direction and
    zone pair, and the matrix is joined to the opposite zone's geometry. */
module Accessibility {
  import opened Tables
  import opened Grouping
  import opened Router
  import opened Path
  import opened OdPair
  import opened Assignment

  /** One iteration of the nested loop: an analysis zone and a zone. */
  type ZonePair = (AnalysisZone, Zone)

  /** The iterations for one analysis zone, in zone-table order. */
  function PairsOf(zones: seq<Zone>): AnalysisZone -> seq<ZonePair> {
    (a: AnalysisZone) => Map(zones, (z: Zone) => (a, z))
  }

  /** All iterations: analysis zones outer, zones inner. */
  function ZonePairs(analysisZones: seq<AnalysisZone>, zones: seq<Zone>): seq<ZonePair> {
    ConcatMap(analysisZones, PairsOf(zones))
  }

  /** The route towards the analysis zone: from the zone to the analysis zone. */
  function ToRoute(route: Router, t: seq<GraphEdge>, p: ZonePair): Result<seq<PathRow>> {
    RoutePath(route, t, p.1.zoneId, p.0.zoneId, 0.0)
  }

  /** The route away from the analysis zone: from the analysis zone to the zone. */
  function FromRoute(route: Router, t: seq<GraphEdge>, p: ZonePair): Result<seq<PathRow>> {
    RoutePath(route, t, p.0.zoneId, p.1.zoneId, 0.0)
  }

  /** Path rows tagged with a direction and the zones of the iteration. */
  function TagRows(rows: seq<PathRow>, dir: Direction, p: ZonePair): seq<AccessRow> {
    Map(rows, (r: PathRow) => AccessRow(r, dir, p.0.zoneId, p.1.zoneId, p.0.description))
  }

  /** The tagged rows of the route away from the analysis zone, none if it fails. */
  function FromRows(route: Router, t: seq<GraphEdge>, p: ZonePair): seq<AccessRow> {
    match FromRoute(route, t, p)
    case Ok(rows) => TagRows(rows, FromAnalysisZone, p)
    case Err(_) => []
  }

  /** The rows one iteration appends: nothing when the route towards the
      analysis zone fails (the route away is then not tried), otherwise the
      rows towards it followed by the rows away from it. */
  function PairRows(route: Router, t: seq<GraphEdge>): ZonePair -> seq<AccessRow> {
    (p: ZonePair) =>
      match ToRoute(route, t, p)
      case Err(_) => []
      case Ok(rows) => TagRows(rows, ToAnalysisZone, p) + FromRows(route, t, p)
  }

  /** The accessibility path table, before the `od_pair` stamp. */
  function AccessRows(route: Router, t: seq<GraphEdge>, analysisZones: seq<AnalysisZone>, zones: seq<Zone>): seq<AccessRow> {
    ConcatMap(ZonePairs(analysisZones, zones), PairRows(route, t))
  }

  /** What one iteration leaves in `last_path_output_df`: the route away when
      both routes succeed, the route towards when only it succeeds, and nothing
      (an error) when the route towards fails. */
  function PairOutcome(route: Router, t: seq<GraphEdge>): ZonePair -> Result<seq<PathRow>> {
    (p: ZonePair) =>
      match ToRoute(route, t, p)
      case Err(e) => Err(e)
      case Ok(rows) => if FromRoute(route, t, p).Ok? then FromRoute(route, t, p) else Ok(rows)
  }

  /** Some iteration appended to the accessibility table. */
  ghost predicate AnyAccessRouted(route: Router, t: seq<GraphEdge>, analysisZones: seq<AnalysisZone>, zones: seq<Zone>) {
    AnyOk(ZonePairs(analysisZones, zones), PairOutcome(route, t))
  }

  /** The iterations are exactly the combinations of an analysis zone with a zone. */
  lemma {:induction false} ZonePairsExact(analysisZones: seq<AnalysisZone>, zones: seq<Zone>, p: ZonePair)
    ensures p in ZonePairs(analysisZones, zones) <==> p.0 in analysisZones && p.1 in zones
  {
    var f := PairsOf(zones);
    if p in ZonePairs(analysisZones, zones) {
      ConcatMapSound(analysisZones, f, p);
      var i :| 0 <= i < |analysisZones| && p in f(analysisZones[i]);
      var j :| 0 <= j < |zones| && f(analysisZones[i])[j] == p;
    }
    if p.0 in analysisZones && p.1 in zones {
      var i :| 0 <= i < |analysisZones| && analysisZones[i] == p.0;
      var j :| 0 <= j < |zones| && zones[j] == p.1;
      assert f(analysisZones[i])[j] == p;
      ConcatMapComplete(analysisZones, f, i, p);
    }
  }

  /** A tagged row is a row of the route with the direction and zones of its
      iteration. */
  lemma {:induction false} TagRowsMember(rows: seq<PathRow>, dir: Direction, p: ZonePair, x: AccessRow)
    requires x in TagRows(rows, dir, p)
    ensures x.path in rows && x.direction == dir
    ensures x.analysisZoneId == p.0.zoneId && x.oppositeZoneId == p.1.zoneId
    ensures x.analysisZoneDescription == p.0.description
  {
    var k :| 0 <= k < |rows| && TagRows(rows, dir, p)[k] == x;
    assert rows[k] in rows;
  }

  /** An iteration appends to the table, and leaves a last path output,
      exactly when the route towards the analysis zone is found. */
  lemma {:induction false} PairOutcomeOk(route: Router, t: seq<GraphEdge>, p: ZonePair)
    ensures ToRoute(route, t, p).Ok? <==> route(t, p.1.zoneId, p.0.zoneId).Some?
    ensures FromRoute(route, t, p).Ok? <==> route(t, p.0.zoneId, p.1.zoneId).Some?
    ensures PairOutcome(route, t)(p).Ok? <==> route(t, p.1.zoneId, p.0.zoneId).Some?
    ensures route(t, p.1.zoneId, p.0.zoneId).None? ==> PairRows(route, t)(p) == []
  {
  }

  /** One iteration in terms of its two routes: what it appends and what it
      leaves as the last path output. */
  lemma {:induction false} PairSteps(route: Router, t: seq<GraphEdge>, p: ZonePair)
    ensures ToRoute(route, t, p).Err? ==>
      PairRows(route, t)(p) == [] && PairOutcome(route, t)(p).Err?
    ensures ToRoute(route, t, p).Ok? && FromRoute(route, t, p).Err? ==>
      && PairRows(route, t)(p) == TagRows(ToRoute(route, t, p).value, ToAnalysisZone, p)
      && PairOutcome(route, t)(p) == ToRoute(route, t, p)
    ensures ToRoute(route, t, p).Ok? && FromRoute(route, t, p).Ok? ==>
      && PairRows(route, t)(p)
           == TagRows(ToRoute(route, t, p).value, ToAnalysisZone, p) + TagRows(FromRoute(route, t, p).value, FromAnalysisZone, p)
      && PairOutcome(route, t)(p) == FromRoute(route, t, p)
  {
    if ToRoute(route, t, p).Ok? && FromRoute(route, t, p).Err? {
      assert FromRows(route, t, p) == [];
      assert PairRows(route, t)(p) == TagRows(ToRoute(route, t, p).value, ToAnalysisZone, p) + [];
    }
  }

  /** Rows towards an analysis zone followed by rows away from it keep all
      rows towards it before all rows away. */
  lemma {:induction false} TowardsFirst(to: seq<AccessRow>, from: seq<AccessRow>)
    requires forall k :: 0 <= k < |to| ==> to[k].direction == ToAnalysisZone
    requires forall k :: 0 <= k < |from| ==> from[k].direction == FromAnalysisZone
    ensures var rows := to + from;
      forall a, b :: 0 <= a < b < |rows| && rows[a].direction == FromAnalysisZone ==>
        rows[b].direction == FromAnalysisZone
  {
    var rows := to + from;
    forall a, b | 0 <= a < b < |rows| && rows[a].direction == FromAnalysisZone
      ensures rows[b].direction == FromAnalysisZone
    {
      assert rows[b] == from[b - |to|];
    }
  }

  /** The shape of one iteration's rows when the route towards the analysis
      zone is found: its rows come first, unchanged by whether the route away
      succeeds, then the rows away, if any. */
  lemma {:induction false} PairRowsOrdered(route: Router, t: seq<GraphEdge>, p: ZonePair)
    requires route(t, p.1.zoneId, p.0.zoneId).Some?
    ensures var to := ToRoute(route, t, p).value;
      && |to| <= |PairRows(route, t)(p)|
      && (forall k :: 0 <= k < |to| ==>
            PairRows(route, t)(p)[k] == AccessRow(to[k], ToAnalysisZone, p.0.zoneId, p.1.zoneId, p.0.description))
      && (route(t, p.0.zoneId, p.1.zoneId).None? ==> |PairRows(route, t)(p)| == |to|)
    ensures var rows := PairRows(route, t)(p);
      forall a, b :: 0 <= a < b < |rows| && rows[a].direction == FromAnalysisZone ==>
        rows[b].direction == FromAnalysisZone
  {
    PairOutcomeOk(route, t, p);
    var routed := ToRoute(route, t, p).value;
    var to := TagRows(routed, ToAnalysisZone, p);
    var from := FromRows(route, t, p);
    assert PairRows(route, t)(p) == to + from;
    if FromRoute(route, t, p).Ok? {
      assert from == TagRows(FromRoute(route, t, p).value, FromAnalysisZone, p);
    } else {
      assert from == [];
    }
    TowardsFirst(to, from);
  }

  /** One iteration's rows carry its zones, zero demand and no label yet; a
      row towards the analysis zone runs from the opposite zone to it, and a
      row away from it the other way. */
  lemma {:induction false} PairRowsOriented(route: Router, t: seq<GraphEdge>, p: ZonePair, row: AccessRow)
    requires row in PairRows(route, t)(p)
    ensures route(t, p.1.zoneId, p.0.zoneId).Some?
    ensures row.analysisZoneId == p.0.zoneId && row.oppositeZoneId == p.1.zoneId
    ensures row.analysisZoneDescription == p.0.description
    ensures row.path.demand == 0.0 && row.path.odPair == None
    ensures row.direction == ToAnalysisZone ==>
      row.path.originZone == p.1.zoneId && row.path.destZone == p.0.zoneId
    ensures row.direction == FromAnalysisZone ==>
      row.path.originZone == p.0.zoneId && row.path.destZone == p.1.zoneId
  {
    RoutePathRows(route, t, p.1.zoneId, p.0.zoneId, 0.0);
    RoutePathRows(route, t, p.0.zoneId, p.1.zoneId, 0.0);
    var to := ToRoute(route, t, p).value;
    if row in TagRows(to, ToAnalysisZone, p) {
      TagRowsMember(to, ToAnalysisZone, p, row);
    } else {
      var from := FromRoute(route, t, p).value;
      assert row in TagRows(from, FromAnalysisZone, p);
      TagRowsMember(from, FromAnalysisZone, p, row);
    }
  }

  /** Every row of the accessibility table belongs to a routed iteration: it
      carries an analysis zone and a zone of the inputs, zero demand, and its
      route runs from the opposite zone to the analysis zone when it is tagged
      towards it, and the other way when tagged away from it. */
  lemma {:induction false} AccessRowsSound(route: Router, t: seq<GraphEdge>, analysisZones: seq<AnalysisZone>, zones: seq<Zone>, row: AccessRow)
    requires row in AccessRows(route, t, analysisZones, zones)
    ensures exists i, j ::
              && 0 <= i < |analysisZones| && 0 <= j < |zones|
              && route(t, zones[j].zoneId, analysisZones[i].zoneId).Some?
              && row.analysisZoneId == analysisZones[i].zoneId && row.oppositeZoneId == zones[j].zoneId
              && row.analysisZoneDescription == analysisZones[i].description
    ensures row.path.demand == 0.0 && row.path.odPair == None
    ensures row.direction == ToAnalysisZone ==>
      row.path.originZone == row.oppositeZoneId && row.path.destZone == row.analysisZoneId
    ensures row.direction == FromAnalysisZone ==>
      row.path.originZone == row.analysisZoneId && row.path.destZone == row.oppositeZoneId
  {
    var ps := ZonePairs(analysisZones, zones);
    ConcatMapSound(ps, PairRows(route, t), row);
    var n :| 0 <= n < |ps| && row in PairRows(route, t)(ps[n]);
    PairRowsOriented(route, t, ps[n], row);
    ZonePairsExact(analysisZones, zones, ps[n]);
    var i :| 0 <= i < |analysisZones| && analysisZones[i] == ps[n].0;
    var j :| 0 <= j < |zones| && zones[j] == ps[n].1;
  }

  /** Every row of a route towards an analysis zone is in the accessibility
      table, whatever happens to the route away. */
  lemma {:induction false} AccessRowsComplete(route: Router, t: seq<GraphEdge>, analysisZones: seq<AnalysisZone>, zones: seq<Zone>, i: nat, j: nat, r: PathRow)
    requires i < |analysisZones| && j < |zones|
    requires route(t, zones[j].zoneId, analysisZones[i].zoneId).Some?
    requires r in RoutePath(route, t, zones[j].zoneId, analysisZones[i].zoneId, 0.0).value
    ensures AccessRow(r, ToAnalysisZone, analysisZones[i].zoneId, zones[j].zoneId, analysisZones[i].description)
      in AccessRows(route, t, analysisZones, zones)
  {
    var p := (analysisZones[i], zones[j]);
    var ps := ZonePairs(analysisZones, zones);
    ZonePairsExact(analysisZones, zones, p);
    var n :| 0 <= n < |ps| && ps[n] == p;
    PairOutcomeOk(route, t, p);
    PairRowsOrdered(route, t, p);
    var to := ToRoute(route, t, p).value;
    var k :| 0 <= k < |to| && to[k] == r;
    var x := AccessRow(r, ToAnalysisZone, analysisZones[i].zoneId, zones[j].zoneId, analysisZones[i].description);
    assert PairRows(route, t)(p)[k] == x;
    ConcatMapComplete(ps, PairRows(route, t), n, x);
  }

  /** The `od_pair` stamp of one accessibility row. */
  function StampRow(how: Rendering): AccessRow -> AccessRow {
    (r: AccessRow) => r.(path := Stamp(how)(r.path))
  }

  /** The `od_pair` stamp of the accessibility table. */
  function StampAccess(rows: seq<AccessRow>, how: Rendering): seq<AccessRow> {
    Map(rows, StampRow(how))
  }

  /** The stamp gives every accessibility row the label of its own route's
      zones, recoverable from the label, and changes nothing else. */
  lemma {:induction false} StampAccessLabels(rows: seq<AccessRow>, how: Rendering)
    ensures |StampAccess(rows, how)| == |rows|
    ensures var r := StampAccess(rows, how);
      forall k :: 0 <= k < |r| ==>
        r[k].path.odPair == Some(OdPairString(how, rows[k].path.originZone, rows[k].path.destZone))
    ensures var r := StampAccess(rows, how);
      forall k :: 0 <= k < |r| ==>
        r[k].path.odPair.Some? && SplitOdPair(r[k].path.odPair.value) == Some((rows[k].path.originZone, rows[k].path.destZone))
    ensures var r := StampAccess(rows, how);
      forall k :: 0 <= k < |r| ==> r[k].(path := r[k].path.(odPair := None)) == rows[k].(path := rows[k].path.(odPair := None))
  {
    var r := StampAccess(rows, how);
    forall k | 0 <= k < |rows|
      ensures r[k].path == Stamp(how)(rows[k].path)
      ensures SplitOdPair(OdPairString(how, rows[k].path.originZone, rows[k].path.destZone))
        == Some((rows[k].path.originZone, rows[k].path.destZone))
    {
      assert r[k] == StampRow(how)(rows[k]);
      OdPairRoundTrip(how, rows[k].path.originZone, rows[k].path.destZone);
    }
  }

  // ---------------------------------------------------------------- matrix

  /** The cycling speed the travel time assumes, in kilometres per hour. */
  const AssumedSpeedKmh: real := 20.0

  /** Minutes to cover a network distance in metres at the assumed speed. */
  function TravelTimeMinutes(lengthMetres: real): (minutes: real)
    ensures minutes / 60.0 * AssumedSpeedKmh == lengthMetres / 1000.0
    ensures lengthMetres >= 0.0 ==> minutes >= 0.0
  {
    (lengthMetres / 1000.0) / AssumedSpeedKmh * 60.0
  }

  /** The matrix grouping key: direction, analysis zone, its description,
      opposite zone, `od_pair`, origin and destination zone. */
  type AccessKey = (Direction, Node, string, Node, Option<string>, Node, Node)

  function AccessKeyOf(r: AccessRow): AccessKey {
    (r.direction, r.analysisZoneId, r.analysisZoneDescription, r.oppositeZoneId,
     r.path.odPair, r.path.originZone, r.path.destZone)
  }

  function AccessDemand(r: AccessRow): real { r.path.demand }

  function AccessLength(r: AccessRow): real { r.path.lengthMetres }

  /** The matrix row of one group: mean demand, summed length and its
      travel time. */
  function MatrixRowOf(rows: seq<AccessRow>, k: AccessKey): AccessMatrixRow {
    var len := SumWhere(rows, AccessKeyOf, k, AccessLength);
    AccessMatrixRow(k.0, k.1, k.2, k.3, k.5, k.6,
      MeanWhere(rows, AccessKeyOf, k, AccessDemand), len, TravelTimeMinutes(len))
  }

  function MatrixRowKey(m: AccessMatrixRow): (Direction, Node, string, Node, Node, Node) {
    (m.direction, m.analysisZoneId, m.analysisZoneDescription, m.oppositeZoneId, m.originZone, m.destZone)
  }

  /** The same columns of an accessibility row. */
  function RowKey(r: AccessRow): (Direction, Node, string, Node, Node, Node) {
    (r.direction, r.analysisZoneId, r.analysisZoneDescription, r.oppositeZoneId, r.path.originZone, r.path.destZone)
  }

  /** The accessibility matrix of a stamped accessibility table. */
  function AccessMatrix(rows: seq<AccessRow>): seq<AccessMatrixRow> {
    Map(DistinctKeys(rows, AccessKeyOf), (k: AccessKey) => MatrixRowOf(rows, k))
  }

  /** The matrix has one row per group of the table; each row's length is the
      summed length of its group and its travel time that length at the
      assumed speed; on a table of zero-demand rows every demand is zero; and
      every row takes its direction, zones and route ends from a row of the
      table. */
  lemma {:induction false} AccessMatrixRows(rows: seq<AccessRow>) returns (ks: seq<AccessKey>)
    ensures |ks| == |AccessMatrix(rows)| && Distinct(ks)
    ensures forall k :: k in ks <==> Occurs(rows, AccessKeyOf, k)
    ensures var m := AccessMatrix(rows);
      forall i :: 0 <= i < |m| ==>
        && m[i].lengthMetres == SumWhere(rows, AccessKeyOf, ks[i], AccessLength)
        && m[i].travelTimeMinutes / 60.0 * AssumedSpeedKmh == m[i].lengthMetres / 1000.0
        && exists n :: 0 <= n < |rows| && AccessKeyOf(rows[n]) == ks[i] && MatrixRowKey(m[i]) == RowKey(rows[n])
    ensures (forall n :: 0 <= n < |rows| ==> rows[n].path.demand == 0.0) ==>
      forall i :: 0 <= i < |AccessMatrix(rows)| ==> AccessMatrix(rows)[i].demand == 0.0
  {
    ks := DistinctKeys(rows, AccessKeyOf);
    var m := AccessMatrix(rows);
    forall i | 0 <= i < |ks|
      ensures exists n :: 0 <= n < |rows| && AccessKeyOf(rows[n]) == ks[i] && MatrixRowKey(m[i]) == RowKey(rows[n])
    {
      assert ks[i] in ks;
      var n :| 0 <= n < |rows| && AccessKeyOf(rows[n]) == ks[i];
    }
    if forall n :: 0 <= n < |rows| ==> rows[n].path.demand == 0.0 {
      forall i | 0 <= i < |m| ensures m[i].demand == 0.0 {
        assert ks[i] in ks;
        ConstantGroupMean(rows, AccessKeyOf, ks[i], AccessDemand, 0.0);
      }
    }
  }

  /** The matrix of the stamped accessibility table: every row has zero demand
      and is oriented like the rows it groups. */
  lemma {:induction false} AccessMatrixOriented(route: Router, t: seq<GraphEdge>, analysisZones: seq<AnalysisZone>, zones: seq<Zone>, how: Rendering)
    ensures var m := AccessMatrix(StampAccess(AccessRows(route, t, analysisZones, zones), how));
      forall i :: 0 <= i < |m| ==>
        && m[i].demand == 0.0
        && (m[i].direction == ToAnalysisZone ==>
              m[i].originZone == m[i].oppositeZoneId && m[i].destZone == m[i].analysisZoneId)
        && (m[i].direction == FromAnalysisZone ==>
              m[i].originZone == m[i].analysisZoneId && m[i].destZone == m[i].oppositeZoneId)
  {
    var raw := AccessRows(route, t, analysisZones, zones);
    var rows := StampAccess(raw, how);
    forall n | 0 <= n < |rows|
      ensures rows[n].path.demand == 0.0
      ensures rows[n].direction == ToAnalysisZone ==>
        rows[n].path.originZone == rows[n].oppositeZoneId && rows[n].path.destZone == rows[n].analysisZoneId
      ensures rows[n].direction == FromAnalysisZone ==>
        rows[n].path.originZone == rows[n].analysisZoneId && rows[n].path.destZone == rows[n].oppositeZoneId
    {
      assert rows[n] == StampRow(how)(raw[n]);
      assert rows[n].path == Stamp(how)(raw[n].path);
      assert raw[n] in raw;
      AccessRowsSound(route, t, analysisZones, zones, raw[n]);
    }
    var ks := AccessMatrixRows(rows);
  }

  // ---------------------------------------------------------------- geometry join

  /** The zone matches the matrix row's opposite zone. */
  function IsOpposite(m: AccessMatrixRow): Zone -> bool {
    (z: Zone) => z.zoneId == m.oppositeZoneId
  }

  function GeomRow(m: AccessMatrixRow): Zone -> AccessGeomRow {
    (z: Zone) => AccessGeomRow(m, z.zoneId, z.x, z.y, z.wkt)
  }

  /** The inner join of one matrix row with the zone table. */
  function GeomRowsOf(zones: seq<Zone>): AccessMatrixRow -> seq<AccessGeomRow> {
    (m: AccessMatrixRow) => Map(Filter(zones, IsOpposite(m)), GeomRow(m))
  }

  /** The inner join of the matrix with the zone table on the opposite zone,
      in matrix order. */
  function JoinZones(matrix: seq<AccessMatrixRow>, zones: seq<Zone>): seq<AccessGeomRow> {
    ConcatMap(matrix, GeomRowsOf(zones))
  }

  /** Every joined row is a matrix row with the geometry of a zone whose id is
      that row's opposite zone. */
  lemma {:induction false} JoinZonesSound(matrix: seq<AccessMatrixRow>, zones: seq<Zone>, g: AccessGeomRow)
    requires g in JoinZones(matrix, zones)
    ensures g.matrix in matrix && g.zoneId == g.matrix.oppositeZoneId
    ensures exists j :: 0 <= j < |zones| && zones[j] == Zone(g.zoneId, g.x, g.y, g.wkt)
  {
    ConcatMapSound(matrix, GeomRowsOf(zones), g);
    var n :| 0 <= n < |matrix| && g in GeomRowsOf(zones)(matrix[n]);
    var fz := Filter(zones, IsOpposite(matrix[n]));
    var k :| 0 <= k < |fz| && GeomRow(matrix[n])(fz[k]) == g;
    assert fz[k] in fz;
    var j :| 0 <= j < |zones| && zones[j] == fz[k];
  }

  /** Every matrix row whose opposite zone is in the zone table is joined to
      that zone. */
  lemma {:induction false} JoinZonesComplete(matrix: seq<AccessMatrixRow>, zones: seq<Zone>, n: nat, j: nat)
    requires n < |matrix| && j < |zones| && zones[j].zoneId == matrix[n].oppositeZoneId
    ensures AccessGeomRow(matrix[n], zones[j].zoneId, zones[j].x, zones[j].y, zones[j].wkt) in JoinZones(matrix, zones)
  {
    var fz := Filter(zones, IsOpposite(matrix[n]));
    assert zones[j] in fz;
    var k :| 0 <= k < |fz| && fz[k] == zones[j];
    assert GeomRowsOf(zones)(matrix[n])[k] in GeomRowsOf(zones)(matrix[n]);
    ConcatMapComplete(matrix, GeomRowsOf(zones), n, GeomRow(matrix[n])(zones[j]));
  }

  /** With zone ids unique and every opposite zone in the zone table, the join
      keeps the matrix as it is: row n is matrix row n with its zone's geometry. */
  lemma {:induction false} JoinZonesOnePerRow(matrix: seq<AccessMatrixRow>, zones: seq<Zone>)
    requires forall a, b :: 0 <= a < b < |zones| ==> zones[a].zoneId != zones[b].zoneId
    requires forall n :: 0 <= n < |matrix| ==> exists j :: 0 <= j < |zones| && zones[j].zoneId == matrix[n].oppositeZoneId
    ensures |JoinZones(matrix, zones)| == |matrix|
    ensures forall n :: 0 <= n < |matrix| ==>
      JoinZones(matrix, zones)[n].matrix == matrix[n] && JoinZones(matrix, zones)[n].zoneId == matrix[n].oppositeZoneId
  {
    forall n | 0 <= n < |matrix|
      ensures |GeomRowsOf(zones)(matrix[n])| == 1
      ensures GeomRowsOf(zones)(matrix[n])[0].matrix == matrix[n]
      ensures GeomRowsOf(zones)(matrix[n])[0].zoneId == matrix[n].oppositeZoneId
    {
      var p := IsOpposite(matrix[n]);
      FilterAtMostOne(zones, p);
      var j :| 0 <= j < |zones| && zones[j].zoneId == matrix[n].oppositeZoneId;
      assert zones[j] in Filter(zones, p);
      var fz := Filter(zones, p);
      assert fz[0] in fz;
    }
    ConcatMapSingletons(matrix, GeomRowsOf(zones));
  }

  /** When no route towards an analysis zone is found the accessibility table
      is empty. */
  lemma {:induction false} NothingAccessRoutedEmpty(route: Router, t: seq<GraphEdge>, analysisZones: seq<AnalysisZone>, zones: seq<Zone>)
    requires !AnyAccessRouted(route, t, analysisZones, zones)
    ensures AccessRows(route, t, analysisZones, zones) == []
  {
    var ps := ZonePairs(analysisZones, zones);
    forall n | 0 <= n < |ps| ensures PairRows(route, t)(ps[n]) == [] {
      PairOutcomeOk(route, t, ps[n]);
    }
    ConcatMapEmpty(ps, PairRows(route, t));
  }
}
