/** Record types of the tables the assignment engine reads and writes. Every
    pandas table of the engine becomes a sequence of one of these records;
    the columns the code keeps are the fields. */
module Tables {

  /** Node and zone identifiers (zone centroids are nodes of the graph). */
  type Node = int

  datatype Option<+T> = None | Some(value: T)

  /** Failures of the engine: the router found no path (or an endpoint is not in
      the graph), or a batch ended with an accumulator that never received a
      table, so it has no `origin_zone` column to stamp `od_pair` from, or a
      select-link run failed in the file operations around it. */
  datatype Error = NoPath | EmptyPathTable | RunFailed

  datatype Result<+T> = Ok(value: T) | Err(error: Error)

  /** A row of the link input table (one direction of a physical link). */
  datatype Link = Link(
    iNode: Node, jNode: Node,
    iNodeX: real, iNodeY: real, jNodeX: real, jNodeY: real,
    costMinutes: real, lengthMetres: real, wkt: string)

  /** A row of the zone-connector input table in its own column names. */
  datatype Connector = Connector(
    zoneId: Node, zoneX: real, zoneY: real,
    nodeId: Node, nodeX: real, nodeY: real,
    costMinutes: real, lengthMetres: real, wkt: string)

  datatype EdgeType = NetworkEdge | ConnectorEdge

  /** A row of the graph edge table: the six columns kept by the graph builder. */
  datatype GraphEdge = GraphEdge(
    iNode: Node, jNode: Node, costMinutes: real, lengthMetres: real,
    edgeType: EdgeType, wkt: string)

  datatype DemandRow = DemandRow(originZone: Node, destZone: Node, demand: real)

  /** One numbered step of a routed node path, before the join with the edge table. */
  datatype Segment = Segment(
    iNode: Node, jNode: Node, originZone: Node, destZone: Node,
    demand: real, segmentNum: nat)

  /** A row of the path-edge table: a segment joined with one edge-table row.
      `odPair` is None until the assignment batch stamps it. */
  datatype PathRow = PathRow(
    iNode: Node, jNode: Node, originZone: Node, destZone: Node,
    demand: real, segmentNum: nat,
    costMinutes: real, lengthMetres: real, edgeType: EdgeType, wkt: string,
    odPair: Option<string>)

  /** A row of the link-volume table. */
  datatype LinkRow = LinkRow(
    iNode: Node, jNode: Node, lengthMetres: real, wkt: string,
    demand: real, personKm: real)

  /** A row of the cost matrix. */
  datatype CostRow = CostRow(originZone: Node, destZone: Node, demand: real, lengthMetres: real)

  /** A row of the select-link input table. */
  datatype NominatedLink = NominatedLink(iNode: Node, jNode: Node, locationDesc: string)

  datatype SlaOdPair = SlaOdPair(originZone: Node, destZone: Node, locationDesc: string)

  datatype SlaPathRow = SlaPathRow(path: PathRow, locationDesc: string)

  datatype SlaLinkRow = SlaLinkRow(locationDesc: string, link: LinkRow)

  /** The three tables of one select-link run. */
  datatype SlaResult = SlaResult(odPairs: seq<SlaOdPair>, paths: seq<SlaPathRow>, links: seq<SlaLinkRow>)

  /** A row of the zone table (the columns the accessibility join keeps). */
  datatype Zone = Zone(zoneId: Node, x: real, y: real, wkt: string)

  /** A row of the accessibility-zones table. */
  datatype AnalysisZone = AnalysisZone(zoneId: Node, description: string)

  datatype Direction = ToAnalysisZone | FromAnalysisZone

  /** A path row of the accessibility run, tagged with its direction and zones. */
  datatype AccessRow = AccessRow(
    path: PathRow, direction: Direction, analysisZoneId: Node,
    oppositeZoneId: Node, analysisZoneDescription: string)

  /** A row of the accessibility matrix before the geometry join. */
  datatype AccessMatrixRow = AccessMatrixRow(
    direction: Direction, analysisZoneId: Node, analysisZoneDescription: string,
    oppositeZoneId: Node, originZone: Node, destZone: Node,
    demand: real, lengthMetres: real, travelTimeMinutes: real)

  /** A row of the accessibility matrix joined to the opposite zone's geometry. */
  datatype AccessGeomRow = AccessGeomRow(matrix: AccessMatrixRow, zoneId: Node, x: real, y: real, wkt: string)
}
