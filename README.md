# Network assignment engine: a Dafny model

This project models the core of the Brisbane active-transport assignment
model. The core is the `Model` class in `brisbane/02_scripts/model_functions.py`.
It takes a link table and a zone-connector table and makes each one
direction-symmetric. It then builds the graph edge table and routes OD
(origin–destination) demand over that graph with Dijkstra's algorithm.
Each route becomes path-edge rows, and the resulting path table feeds
these reductions:

- link volumes and person-kilometres per traversed link;
- a cost matrix per OD pair;
- select-link analysis: the OD pairs whose path uses a nominated link, their
  full paths and those paths' link volumes, run as a batch over a table of
  nominated links;
- an accessibility analysis: every analysis zone is routed to and from
  every zone at zero demand. The tagged rows are reduced to a matrix of
  network distance and cycling time, which is joined to each opposite
  zone's geometry.

Module layout, following the program:

| file | module | models |
|---|---|---|
| `tables.dfy` | `Tables` | the record of every table, `Option`, `Result` and the engine's errors |
| `edge_table.dfy` | `EdgeTable` | `get_network`, `get_connectors` |
| `graph.dfy` | `Graph` | the edge table and the directed graph of `build_network_graph` |
| `router.dfy` | `Router` | the shortest-path search as a parameter, and what every path it returns satisfies |
| `path.dfy` | `Path` | `get_path`: the segments of a node path and their inner join with the edge table |
| `od_pair.dfy` | `OdPair` | the `od_pair` label and its parser |
| `assignment.dfy` | `Assignment` | `assign_demand` as functions of the demand table |
| `aggregation.dfy` | `Aggregation` | `output_link_results`, `output_cost_matrix` |
| `select_link.dfy` | `SelectLink` | `run_select_link_analysis`, and `select_link_analysis` as functions |
| `accessibility.dfy` | `Accessibility` | `analyse_accessibility` as functions of its two zone tables |
| `grouping.dfy` | `Grouping` | generic group-by, concatenation, filter and map over sequences, with their lemmas |
| `model.dfy` | `Engine` | the `Model` object and its fields; the batch loops as methods proved against the functions above |

The pure parts of the source (renames, concatenations, joins, group-bys) are
Dafny functions. Each of them has lemmas that state what the table contains.
The three batch loops (`assign_demand`, `select_link_analysis`,
`analyse_accessibility`) update the object's fields one row at a time.
They are methods of `Engine.Model`, with loop invariants that tie each field
to the function that specifies it.

The router is a parameter of the model object. Its type is
`(edge table, origin, destination) -> Option<node path>`, and `None` stands
for the exception networkx raises. `Router.RouterSound` states what every
path it returns satisfies: both ends are nodes of the graph, and the path
runs from the origin to the destination along edges of the graph. Lemmas that rely on that property take
`RouterSound(route)` as a precondition.

Behaviour of the code that the model keeps:

- Duplicate directed edges are not rejected when the graph is built. The
  inner join of `get_path` repeats a segment once per duplicate edge row
  (`Path.JoinPathComplete`, `Path.JoinSegment`). Only a table without
  duplicates gives one row per segment (`Assignment.RoutedRowsOfUniqueTable`).
- In the accessibility analysis, the route away from the analysis zone is
  tried only when the route towards it succeeds, because both are in one
  `try` block. If the route away fails, the rows towards the zone are kept.
- When no OD pair is routed, the accumulator is a `DataFrame()` with no
  columns, and the `od_pair` stamp raises `KeyError`. The model returns
  `Err(EmptyPathTable)` there, instead of an empty result.
- The select-link batch prepends each run's tables to the accumulated
  ones, so the batch output is in reverse order of the select-link input table
  (`SelectLink.SlaBatchReversed`).
- The `od_pair` label writes the zone ids as the row delivers them. A demand
  table with a float `demand` column makes `assign_demand` write
  `101.0_202.0`, while integer ids give `101_202` (`OdPair.RenderingsDiffer`).
- A nominated link that no path traverses fails nothing in the code: it
  yields empty select-link tables.
- The cycling speed is the fixed constant 20 km/h
  (`Accessibility.AssumedSpeedKmh`), as in the code.

## Model

All source cells refer to `brisbane/02_scripts/model_functions.py`.

| member | source | states |
|---|---|---|
| EdgeTable.Reverse | brisbane/02_scripts/model_functions.py:66-75 | the opposite-direction row swaps the endpoint ids and their x/y coordinates and keeps cost, length and WKT |
| EdgeTable.ReverseInvolutive | brisbane/02_scripts/model_functions.py:66-75 | reversing a link row twice gives the row back |
| EdgeTable.GetNetwork | brisbane/02_scripts/model_functions.py:56-77 | the full link table has twice the rows: the reversed rows first, then the input rows, each in input order |
| EdgeTable.NetworkSymmetric | brisbane/02_scripts/model_functions.py:65-76 | every row of the full link table has its reverse in the table |
| EdgeTable.ForwardConnector | brisbane/02_scripts/model_functions.py:88-95 | the forward rename maps zone to `i_node` and node to `j_node`, with their coordinates |
| EdgeTable.ReverseConnector | brisbane/02_scripts/model_functions.py:103-110 | the reverse rename maps node to `i_node` and zone to `j_node`; it is the reverse of the forward rename |
| EdgeTable.GetConnectors | brisbane/02_scripts/model_functions.py:81-114 | the full connector table: every connector reversed, then every connector forward, each in input order |
| EdgeTable.ConnectorsAreRenamedNetwork | brisbane/02_scripts/model_functions.py:88-113 | the full connector table equals the link symmetrisation applied to the forward-renamed connectors |
| EdgeTable.ConnectorsSymmetric | brisbane/02_scripts/model_functions.py:100-113 | every row of the full connector table has its reverse in the table |
| Graph.ToGraphEdge | brisbane/02_scripts/model_functions.py:120-123 | a row keeps its endpoints, cost, length and WKT and receives its edge type |
| Graph.GraphTable | brisbane/02_scripts/model_functions.py:118-123 | the edge table is the network rows tagged `network` followed by the connector rows tagged `connector`, nothing dropped or reordered |
| Graph.EdgeSet | brisbane/02_scripts/model_functions.py:131-137 | `(i, j)` is an edge of the directed graph exactly when some edge-table row has that `i_node` and `j_node` |
| Graph.ToGraphEdgeReverse | brisbane/02_scripts/model_functions.py:120-123 | tagging and projecting a reversed link gives the reversed edge |
| Graph.GraphTableClosed | brisbane/02_scripts/model_functions.py:122-123 | input tables closed under reversal give an edge table in which every row's reverse is a row |
| Graph.GraphSymmetric | brisbane/02_scripts/model_functions.py:56-123 | for the full link and connector tables, every edge-table row has a row running the other way with the same cost, length, type and WKT |
| Graph.EdgeSetSymmetric | brisbane/02_scripts/model_functions.py:131-137 | the graph built from the full tables has `(j, i)` whenever it has `(i, j)` |
| Engine.Model.BuildNetworkGraph | brisbane/02_scripts/model_functions.py:118-139 | stores and returns the edge table; the graph's edges are exactly the ordered pairs of the network and connector rows |
| Router.UnknownNodeNotRouted | brisbane/02_scripts/model_functions.py:156 | a sound router finds no path from or to a node the graph does not have, where networkx raises `NodeNotFound` |
| Path.SegmentsNumbered | brisbane/02_scripts/model_functions.py:159-166 | a path of n nodes gives n-1 segments; segment k runs from node k to node k+1, is numbered k+1 and carries the OD pair and demand |
| Path.SegmentsRoundTrip | brisbane/02_scripts/model_functions.py:160-161 | the walk of the segments of a path of at least two nodes is the path again |
| Path.RoutedSegmentsWalk | brisbane/02_scripts/model_functions.py:156-161 | the segments of a routed path start at the origin, end at the destination, chain end to start and are graph edges |
| Path.JoinSegment | brisbane/02_scripts/model_functions.py:169-175 | one segment joins to exactly as many rows as edge-table rows with its `(i, j)`: each is the segment merged with such a row |
| Path.JoinPathSound | brisbane/02_scripts/model_functions.py:169-175 | every joined row is a segment merged with an edge-table row having its `(i, j)` |
| Path.JoinPathComplete | brisbane/02_scripts/model_functions.py:169-175 | every edge-table row matching a segment is joined to it, duplicates included |
| Path.JoinPathUnique | brisbane/02_scripts/model_functions.py:169-175 | when every segment matches exactly one edge-table row, row k of the join is segment k |
| Path.RoutePathRows | brisbane/02_scripts/model_functions.py:153-177 | a route fails exactly when the router finds no path; each row carries the OD pair and demand, no `od_pair` yet, and lies on a graph edge |
| Path.SegmentCovered | brisbane/02_scripts/model_functions.py:156-175 | every segment of a graph path has a joined row |
| Path.RoutedPathCovered | brisbane/02_scripts/model_functions.py:156-175 | every segment of a routed path has a row in the route's path table |
| Engine.Model.GetPath | brisbane/02_scripts/model_functions.py:153-177 | returns the route's joined rows, which become `last_path_output_df`; a failure leaves that field unchanged |
| OdPair.NatToString | brisbane/02_scripts/model_functions.py:199 | the decimal rendering of a natural number is a non-empty string of digits |
| OdPair.IntToString | brisbane/02_scripts/model_functions.py:199 | the integer rendering of a zone id is non-empty and has neither an underscore nor a decimal point |
| OdPair.NatRoundTrip | brisbane/02_scripts/model_functions.py:199 | reading the digits back gives the number |
| OdPair.IntRoundTrip | brisbane/02_scripts/model_functions.py:199 | reading a zone id's rendering back gives the zone id, negative ones included |
| OdPair.ZoneString | brisbane/02_scripts/model_functions.py:186-199 | a zone id's `str` is non-empty, has no underscore, and has a decimal point exactly when the row reached the stamp with float ids |
| OdPair.ZoneRoundTrip | brisbane/02_scripts/model_functions.py:186-199 | the integer part of either rendering of a zone id reads back as the zone id |
| OdPair.RenderingsDiffer | brisbane/02_scripts/model_functions.py:186-199 | the float and integer renderings of a zone differ, so the same OD pair is labelled differently by tables of different dtypes |
| OdPair.FirstIndex | brisbane/02_scripts/model_functions.py:199 | the returned index is the first occurrence of the separator, or the length when it is absent |
| OdPair.OdPairRoundTrip | brisbane/02_scripts/model_functions.py:199 | splitting an `od_pair` label at its first underscore gives back the origin and destination zones |
| OdPair.OdPairInjective | brisbane/02_scripts/model_functions.py:199 | two OD pairs have the same label only when they are the same pair, whichever rendering each label used |
| Assignment.RowsOfDemand | brisbane/02_scripts/model_functions.py:186-196 | a demand row contributes its route's rows when routed and nothing otherwise; each row carries its zones and demand and lies on a graph edge |
| Assignment.AssignedPathsSound | brisbane/02_scripts/model_functions.py:186-196 | every row of the path table comes from a routed demand row and carries that row's zones and demand |
| Assignment.AssignedPathsComplete | brisbane/02_scripts/model_functions.py:186-196 | every row of every routed demand row is in the path table |
| Assignment.AssignedPathsAppend | brisbane/02_scripts/model_functions.py:186-194 | the path table of two demand tables in sequence is the concatenation of their path tables |
| Assignment.FailingRowSkipped | brisbane/02_scripts/model_functions.py:192-196 | a demand row the router fails on adds nothing and does not stop the rows after it |
| Assignment.LastPathOutputIsLast | brisbane/02_scripts/model_functions.py:169-175 | after the batch the last path output is the rows of the last routed demand row, or the earlier value when none is routed |
| Assignment.StampOdPairsLabels | brisbane/02_scripts/model_functions.py:199 | the stamp keeps the row count, gives each row exactly the label of its own zones in the table's rendering (recoverable from the label) and changes no other column |
| Assignment.RoutedRowsOfUniqueTable | brisbane/02_scripts/model_functions.py:156-175 | over an edge table without duplicate `(i, j)` rows, a route gives one row per segment, in path order, numbered from 1 |
| Assignment.PathRowsOfUniqueTable | brisbane/02_scripts/model_functions.py:159-175 | joining the segments of a graph path with an edge table without duplicate `(i, j)` rows gives one row per segment, in path order, numbered from 1 |
| Assignment.SegmentsOnUniqueEdges | brisbane/02_scripts/model_functions.py:159-175 | every segment of a graph path matches exactly one row of an edge table without duplicate `(i, j)` rows |
| Assignment.NothingRoutedEmpty | brisbane/02_scripts/model_functions.py:183-194 | when no demand row is routed the accumulated path table is empty |
| Engine.Model.AssignDemand | brisbane/02_scripts/model_functions.py:181-206 | succeeds exactly when some demand row is routed, with the concatenation of the routed rows in demand order, stamped in the rendering the demand table's dtype gives its zone ids; otherwise `KeyError` with an empty table; the last path output is that of the last routed row |
| Aggregation.LinkResultsRows | brisbane/02_scripts/model_functions.py:214-217 | one row per distinct `(i, j, length, WKT)` of the path rows and no other; demand is the group's summed demand and person-km that demand times the length in km |
| Aggregation.LinkDemandConserved | brisbane/02_scripts/model_functions.py:214 | the link demands add up to the total demand of the path rows |
| Aggregation.LinkPersonKmConserved | brisbane/02_scripts/model_functions.py:214-216 | the link person-km add up to the person-km of the path rows |
| Engine.Model.OutputLinkResults | brisbane/02_scripts/model_functions.py:210-224 | stores and returns the link-volume table of the path table |
| Aggregation.CostMatrixGroups | brisbane/02_scripts/model_functions.py:231-233 | one row per distinct `(od_pair, origin, dest)` of the labelled path rows; demand is the group's mean and length the group's sum |
| Aggregation.LabelledKeys | brisbane/02_scripts/model_functions.py:231 | the group keys of the labelled rows are exactly the keys of the table that have a label |
| Aggregation.CostMatrixOdDistinct | brisbane/02_scripts/model_functions.py:231-233 | when labels are the stamps of their own zones in one rendering, each OD pair appears at most once in the matrix |
| Aggregation.CostMatrixSingleRoute | brisbane/02_scripts/model_functions.py:231-233 | the matrix of one route's rows is one row with its OD pair, its demand and its total length |
| Engine.Model.OutputCostMatrix | brisbane/02_scripts/model_functions.py:228-240 | stores and returns the cost matrix of the path table |
| SelectLink.LinkOdsExact | brisbane/02_scripts/model_functions.py:252-258 | an OD pair is among the link's OD pairs exactly when one of its rows traverses the link |
| SelectLink.SlaOdPairsExact | brisbane/02_scripts/model_functions.py:252-259 | the OD-pair table holds each OD pair using the link exactly once, tagged with the description, and no other |
| SelectLink.JoinOdDistinct | brisbane/02_scripts/model_functions.py:266-272 | joining a row with a distinct OD-pair table gives the tagged row once if its OD pair is present and nothing otherwise |
| SelectLink.JoinOdOne | brisbane/02_scripts/model_functions.py:266-272 | a path row joins to the OD-pair table once, tagged, when its OD pair used the link, and not at all otherwise |
| SelectLink.SlaPathsExact | brisbane/02_scripts/model_functions.py:266-272 | the select-link path table is the path rows, in table order, of the OD pairs using the link, each tagged with the description |
| SelectLink.SlaPathsMember | brisbane/02_scripts/model_functions.py:252-272 | a tagged row is in the select-link paths exactly when it is a path row whose OD pair has a row on the link and the tag is the nominated link's description |
| SelectLink.SlaLinksConserveDemand | brisbane/02_scripts/model_functions.py:279-282 | the select-link link volumes add up to the demand of the select-link paths |
| Engine.Model.RunSelectLinkAnalysis | brisbane/02_scripts/model_functions.py:244-289 | the run's OD-pair, path and link tables become the current select-link tables and are returned |
| SelectLink.SlaBatchReversed | brisbane/02_scripts/model_functions.py:310-312 | the tables of a later block of nominated links come before those of an earlier block |
| SelectLink.SlaBatchSkipsFailure | brisbane/02_scripts/model_functions.py:308-314 | a failing run contributes nothing and does not stop the batch |
| SelectLink.SlaBatchPathsExact | brisbane/02_scripts/model_functions.py:302-314 | a row is in the accumulated path table exactly when some successful run's link was used by its OD pair and it carries that run's description |
| SelectLink.SlaBatchSnoc | brisbane/02_scripts/model_functions.py:309-312 | one more nominated link prepends its three tables (empty when it fails) to the accumulated tables |
| Engine.Model.SelectLinkStep | brisbane/02_scripts/model_functions.py:308-314 | a successful run becomes the current tables and is prepended to the accumulated ones; a failing run changes nothing |
| Engine.Model.SelectLinkAnalysis | brisbane/02_scripts/model_functions.py:293-323 | the accumulated tables are the batch over all nominated links, the current tables those of the last successful run, and the accumulated path table is returned |
| Accessibility.ZonePairsExact | brisbane/02_scripts/model_functions.py:339-344 | the loop iterations are exactly the combinations of an analysis zone with a zone |
| Accessibility.TagRowsMember | brisbane/02_scripts/model_functions.py:351-361 | a tagged row is a route row carrying the direction, the analysis zone, its description and the opposite zone |
| Accessibility.PairOutcomeOk | brisbane/02_scripts/model_functions.py:348-362 | an iteration appends rows and leaves a last path output exactly when the route towards the analysis zone is found |
| Accessibility.PairSteps | brisbane/02_scripts/model_functions.py:348-364 | towards fails: nothing appended; only towards found: its rows appended and left as last output; both found: towards then away appended, away left as last output |
| Accessibility.TowardsFirst | brisbane/02_scripts/model_functions.py:355-362 | rows towards followed by rows away keep every row away after every row towards |
| Accessibility.PairRowsOrdered | brisbane/02_scripts/model_functions.py:348-364 | the rows towards the analysis zone come first and are kept when the route away fails; no row towards follows a row away |
| Accessibility.PairRowsOriented | brisbane/02_scripts/model_functions.py:346-361 | an iteration's rows carry its zones, zero demand and no label; rows towards run from the opposite zone to the analysis zone and rows away the other way |
| Accessibility.AccessRowsSound | brisbane/02_scripts/model_functions.py:339-364 | every row of the accessibility table belongs to an analysis zone and a zone of the inputs whose route towards succeeded, has zero demand and is oriented by its direction |
| Accessibility.AccessRowsComplete | brisbane/02_scripts/model_functions.py:348-355 | every row of a found route towards an analysis zone is in the accessibility table, whatever the route away does |
| Accessibility.StampAccessLabels | brisbane/02_scripts/model_functions.py:367 | the stamp gives every row exactly the label of its route's zones in the table's rendering, recoverable from the label, and changes nothing else |
| Accessibility.TravelTimeMinutes | brisbane/02_scripts/model_functions.py:377 | the minutes, in hours, times 20 km/h cover the length in km; non-negative lengths give non-negative times |
| Accessibility.AccessMatrixRows | brisbane/02_scripts/model_functions.py:375-378 | one row per distinct 7-column group of the table; length is the group's sum and travel time that length at 20 km/h; zero-demand tables give zero demands |
| Accessibility.AccessMatrixOriented | brisbane/02_scripts/model_functions.py:339-378 | every matrix row of the analysis has zero demand and runs from the opposite zone to the analysis zone when towards, and the other way when away |
| Accessibility.JoinZonesSound | brisbane/02_scripts/model_functions.py:381-388 | every joined row is a matrix row with the X, Y and WKT of a zone whose id is its opposite zone |
| Accessibility.JoinZonesComplete | brisbane/02_scripts/model_functions.py:381-388 | every matrix row whose opposite zone is in the zone table is joined to that zone |
| Accessibility.JoinZonesOnePerRow | brisbane/02_scripts/model_functions.py:381-388 | with unique zone ids and every opposite zone present, row n of the join is matrix row n with its zone's geometry |
| Accessibility.NothingAccessRoutedEmpty | brisbane/02_scripts/model_functions.py:337-362 | when no route towards an analysis zone is found the accessibility table is empty |
| Engine.Model.SkimPair | brisbane/02_scripts/model_functions.py:348-364 | one iteration appends exactly its rows, reports whether the route towards was found, and leaves the last path output of that iteration |
| Engine.Model.SkimStep | brisbane/02_scripts/model_functions.py:343-364 | one inner iteration extends the table, the routed flag and the last path output from the iterations done before to those plus this one |
| Engine.Model.SkimAnalysisZone | brisbane/02_scripts/model_functions.py:343-364 | the inner loop extends the table, the routed flag and the last path output by the iterations of one analysis zone |
| Engine.Model.SkimAll | brisbane/02_scripts/model_functions.py:337-364 | both loops give the accessibility table of all iterations, whether any route towards was found, and the last iteration's path output |
| Engine.Model.Summarise | brisbane/02_scripts/model_functions.py:366-388 | stamps the table, replaces the matrix by its reduction and the geometry table by the join with the zones |
| Engine.Model.AnalyseAccessibility | brisbane/02_scripts/model_functions.py:327-395 | succeeds exactly when some route towards an analysis zone is found, with the joined matrix of the table stamped in the zone ids' rendering; otherwise `KeyError` with an empty table and the matrices unchanged |

## Left out

- File and directory I/O (`__init__` scaffolding, `safe_create_directory`, every `read_csv` and `to_csv`, `get_demand`, `attributes`) and all printing. Input tables are parameters and output tables are return values or fields.
- Engine.Model.GetPath: the router is a parameter. Only the property that its paths are graph paths from origin to destination is modelled. Minimality of cost, Dijkstra's tie-breaking and the `cost_minutes` weight are not.
- Engine.Model.BuildNetworkGraph: the networkx `DiGraph` object is not stored. It is represented by `Graph.EdgeSet` of the stored edge table, which the router receives. When duplicate `(i, j)` rows carry different costs, which cost networkx keeps is left to the router.
- `build_network_graph` also adds an `edge_type` column to the caller's two frames in place. That mutation of the inputs is not modelled.
- Group-by output order: pandas sorts groups by key. The model lists groups in order of first occurrence (`Grouping.DistinctKeys`). Contents and multiplicities are modelled, the sort is not.
- Aggregation.CostMatrixGroups: pandas drops groups with a missing key. The model drops rows without an `od_pair` label. Other missing values (NaN) are not modelled.
- Accessibility.AccessMatrixRows: every accessibility row is stamped before grouping, so no key is missing. A missing zone description, which pandas would drop from the grouping, is not modelled.
- SelectLink.SlaLinksOf (used by SelectLink.SlaLinksConserveDemand): the select-link link volumes group on `(location_desc, i, j, length, WKT)`. All rows of one run carry the same description, so the model groups on the link key and tags every row with the description.
- Floating point: demand, lengths, costs and coordinates are exact reals. `astype(float)` and float rounding in the sums, means and travel time are not modelled.
- OdPair.OdPairString: how the zone ids are rendered (`OdPair.Rendering`) is a parameter of the two stamping operations. The caller picks it from the input table's dtypes. `iterrows` gives a row one dtype, so a demand table whose `demand` column is a float hands `assign_demand` float zone ids, and the labels read `101.0_202.0`.
- OdPair.ZoneString: a float of magnitude 1e16 or more, which Python writes in exponent form, and an id beyond 2^53, which a float cannot hold exactly, are not modelled.
- Accessibility.StampAccess: one rendering covers the whole table. The code's two zone columns can end up with different dtypes when only routes in one direction reach the table. The model does not capture that.
- Engine.Model.SelectLinkAnalysis: the `except` around each run catches failures of the file reads and writes inside `run_select_link_analysis`, which are not modelled. A failure is an oracle on the row of the select-link input table (`SelectLink.Failure`). A failing run is modelled as changing nothing. The code may already have replaced some of the current select-link tables when a later step of the run fails.
- Aliasing: in `analyse_accessibility`, `to_result_df` is the same frame as `last_path_output_df`, so its tag columns also appear on the last path output. The model's last path output holds plain path rows.
- `analyse_accessibility` reuses `path_outputs_df`. The model keeps the accessibility table in its own field (`accessOutputs`), so it never holds assignment rows of another type. The assignment's `pathOutputs` is therefore not overwritten by the analysis.
- Extra pandas columns that the projections drop anyway (e.g. the `i_node_x` columns after the graph projection, the `index` columns), and column dtypes other than the zone ids' rendering, are not modelled.
- Engine.Model.constructor: only the initial empty tables are modelled. The run name and file name placeholders are I/O configuration.
