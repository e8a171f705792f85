# tour-in routing core, modelled in Dafny

tour-in plans a walking or driving tour over the road network of Ilocos
Norte. Its core does six things:

- **Road-graph builder** (`tourin/graph/build_graph.py`). It cuts every road
  line at its endpoints and at the points where it meets other lines. Each
  cut piece longer than a minimum length becomes an edge of a multigraph.
  Nodes are numbered densely through a table of (optionally rounded)
  coordinates. The builder also picks a UTM zone for the data set.
- **GeoJSON export** (`tourin/graph/build_graph_geojson.py`). Nodes become
  Point features and edges become LineString features.
- **Snapping** (`tourin/server/graph/snap.py`). Each requested coordinate
  goes to its nearest node, unless an edge is strictly nearer. In that case
  the edge is cut at the projection of the coordinate, and a synthetic node
  is spliced in between the two pieces.
- **Search and stitching** (`tourin/server/search/ucs.py`,
  `tourin/server/graph/stitch.py`). A greedy tour runs repeated uniform-cost
  searches: each leg goes from the last reached target to the cheapest
  pending one. The resulting node path is then expanded into the
  coordinates of the edges it uses.
- **Standalone planner and HTTP endpoint** (`tourin/ucs.py`,
  `tourin/server/api.py`). Both chain snapping, the tour and stitching. The
  endpoint validates a JSON body first and answers `{"route": [[lon, lat], ...]}`.
- **Command-line planner's GeoJSON handling** (`scripts/test_planner.py`). It
  reads a FeatureCollection of Point features and writes the route back.

Layout, one module per file:

| file | module | models |
|---|---|---|
| `wrappers.dfy` | `Wrappers` | `Option`, `Result`; floats extended with `+inf` |
| `json.dfy` | `Json` | decoded JSON values and `dict.get` |
| `geo.dfy` | `Geo` | coordinates, squared distance, polyline length, `pairwise`, shapely geometry kinds |
| `utm.dfy` | `Utm` | `_utm_crs_for_bounds` |
| `breakpoints.dfy` | `Breakpoints` | `_points_from_geometry`, `_collect_breakpoints` |
| `segments.dfy` | `Segments` | `_segments_from_line`, `_ensure_terminal_breakpoints` |
| `road_graph.dfy` | `RoadGraph` | `_quantize`, `_node_id`, `build_road_graph` (class `RoadGraph`) |
| `multigraph.dfy` | `MultiGraph` | the networkx MultiGraph operations the server uses (class `Graph`) |
| `snap.dfy` | `Snap` | `snap_coords` and its helpers |
| `stitch.dfy` | `Stitch` | `stitch_path` and its helpers |
| `search.dfy` | `Search` | `_ucs`, `_edge_travel_cost`, `plan` |
| `tour.dfy` | `Tour` | `plan` of `tourin/ucs.py` |
| `graph_geojson.dfy` | `GraphGeojson` | `build_graph_geojson` |
| `api.dfy` | `Api` | `route_planner` and its parsers |
| `planner_script.dfy` | `PlannerScript` | the script's GeoJSON reading and writing |

Library calls whose results the core only consumes are parameters of the
model. These are the shapely operations (`project`, `interpolate`, `length`,
`substring`, `distance`, `linemerge`, `intersection`), the spatial-index
query, the osmnx nearest-node and nearest-edge lookups, the pyproj geodesic
distance, the great-circle distance, `json.loads` and `float` of a string.
The geodesic and great-circle distances are a `Metric`: any non-negative
function of two coordinates.

Code that changes state step by step is imperative Dafny. Each such method
is proved equal to a specification function, and the properties are proved
about that function. The builder's graph and the server's graph are classes
whose methods update their fields. The loops of `_collect_breakpoints`,
`_segments_from_line`, `_ucs`, `plan`, `stitch_path`, `snap_coords` and
`build_graph_geojson` are `while`/`for` loops with invariants.

## Model

| member | source | states |
|---|---|---|
| `Json.Get` | tourin/server/api.py:28-29 | a missing key reads as `None` (Null); a present key reads as its value |
| `Geo.SquaredDistance` | tourin/server/graph/stitch.py:92-96 | never negative, and zero between a point and itself |
| `Geo.Pairs` | tourin/graph/build_graph.py:302-305 | one pair fewer than elements (none for an empty sequence); pair `i` is (element `i`, element `i+1`) |
| `Geo.Reverse` | tourin/server/graph/stitch.py:52-53 | same length; element `i` is element `n-1-i` of the input |
| `Geo.PathLength` | tourin/graph/build_graph.py:293-299 | a polyline's length is never negative |
| `Geo.PathLengthSplit` | tourin/graph/build_graph.py:293-299 | cutting a polyline at a vertex conserves its length: the two parts add up to the whole |
| `Geo.SumOfLegs` | tourin/server/graph/snap.py:267-273 | the accumulating loop of `_linestring_length` (and `_geodesic_length`) ends with exactly the polyline length |
| `Utm.Zone` | tourin/graph/build_graph.py:154 | the zone number `z` is the 6-degree band holding the longitude: `-180 + 6(z-1) <= lon < -180 + 6z` |
| `Utm.ZoneRange` | tourin/graph/build_graph.py:154 | every longitude in [-180, 180) falls in a zone from 1 to 60 |
| `Utm.Digits` | tourin/graph/build_graph.py:156 | decimal digits of a natural number; one digit below 10, two digits (tens, units) below 100 |
| `Utm.Pad2` | tourin/graph/build_graph.py:156 | the `02d` text of a number from 0 to 99 has two characters |
| `Utm.Pad2RoundTrip` | tourin/graph/build_graph.py:156 | the `02d` zone text of `0..99` reads back as the same number |
| `Utm.HemisphereCode` | tourin/graph/build_graph.py:155 | "326" exactly when the latitude is at least 0, and "327" exactly when it is negative |
| `Utm.UtmCrsForBounds` | tourin/graph/build_graph.py:147-156 | no code exactly when some bound is not finite |
| `Utm.UtmCodeShape` | tourin/graph/build_graph.py:147-156 | with finite bounds and the centre longitude in range, the code has 10 characters: "EPSG:", the hemisphere of the centre latitude, and a zone from 1 to 60 whose band holds the centre longitude |
| `Breakpoints.PointsFromGeometry` | tourin/graph/build_graph.py:251-268 | every point returned is a vertex of the intersection geometry; a geometry collection gives none |
| `Breakpoints.PartsInVertices` | tourin/graph/build_graph.py:262-266 | the endpoints of the parts of a MultiLineString are vertices of it |
| `Breakpoints.MultiLinePointsConcatenate` | tourin/graph/build_graph.py:262-266 | a MultiLineString's points are those of its parts in part order |
| `Breakpoints.AddShared` | tourin/graph/build_graph.py:186-189 | every point is added to the sets of both lines of the pair, and every other line's set is unchanged |
| `Breakpoints.RowMembership` | tourin/graph/build_graph.py:177-189 | after one line's candidate loop, a point is in line `k`'s set iff it was already there, or some candidate `j > idx` with `k` in {idx, j} shares it |
| `Breakpoints.RowsMembership` | tourin/graph/build_graph.py:165-190 | a point is a breakpoint of line `k` iff it is an endpoint of `k`, or it lies in the intersection of a pair (i, j), i < j, proposed by the index for `i`, with `k` one of the two |
| `Breakpoints.RowsStep` | tourin/graph/build_graph.py:176-189 | one more line's candidate loop adds exactly the points of the pairs examined from that line |
| `Breakpoints.RowsSound` | tourin/graph/build_graph.py:165-190 | every breakpoint that is not an endpoint comes from an examined intersecting pair |
| `Breakpoints.RowsComplete` | tourin/graph/build_graph.py:165-190 | every endpoint and every point of an examined pair's intersection is recorded for both lines |
| `Breakpoints.EndpointsAreBreakpoints` | tourin/graph/build_graph.py:169-172 | both ends of every non-empty line are among its breakpoints |
| `Breakpoints.IntersectionsShared` | tourin/graph/build_graph.py:177-189 | a point shared by an examined pair is a breakpoint of both lines |
| `Breakpoints.EndpointTable` | tourin/graph/build_graph.py:167-172 | the first loop builds the endpoint table, one set per line |
| `Breakpoints.CollectBreakpoints` | tourin/graph/build_graph.py:165-190 | the two loops build exactly the table `RowsMembership` characterises |
| `Breakpoints.ScanCandidates` | tourin/graph/build_graph.py:177-189 | one line's candidate loop, skipping candidates at or before the line, equals its specification |
| `Breakpoints.AddPoints` | tourin/graph/build_graph.py:186-189 | the point loop adds the shared points to both lines |
| `Segments.Projected` | tourin/graph/build_graph.py:198-201 | one breakpoint per coordinate, in order: its projected distance and the coordinate |
| `Segments.InsertByDist` | tourin/graph/build_graph.py:202 | inserting into a distance-sorted list keeps it sorted and adds exactly the new element |
| `Segments.SortByDist` | tourin/graph/build_graph.py:202 | the result is sorted by distance and is a permutation of the input |
| `Segments.Trimmed` | tourin/graph/build_graph.py:204-209 | empty iff the input is; keeps the first breakpoint; keeps only input breakpoints |
| `Segments.TrimmedSpaced` | tourin/graph/build_graph.py:204-209 | on sorted input, consecutive kept distances are more than the tolerance apart |
| `Segments.TrimmedCovers` | tourin/graph/build_graph.py:204-209 | every dropped breakpoint lies within the tolerance of a kept one |
| `Segments.WithStart` | tourin/graph/build_graph.py:238-239 | the list starts within the tolerance of distance 0; a start at 0 is added only when the first breakpoint is farther |
| `Segments.WithEnd` | tourin/graph/build_graph.py:240-241 | the list ends within the tolerance of the line length; the end is appended only when the last breakpoint is farther |
| `Segments.WithTerminals` | tourin/graph/build_graph.py:229-242 | both terminals are present, at most two breakpoints are added, and none when both are already there |
| `Segments.WithTerminalsSpaced` | tourin/graph/build_graph.py:229-242 | adding the terminals keeps consecutive breakpoints more than the tolerance apart |
| `Segments.EnsureTerminalBreakpoints` | tourin/graph/build_graph.py:229-242 | the method inserts the start and appends the end as `WithTerminals` specifies |
| `Segments.Cut` | tourin/graph/build_graph.py:216-225 | at most one segment per pair; each comes from a pair more than the tolerance apart, runs between the pair's coordinates and has at least two vertices |
| `Segments.Segments` | tourin/graph/build_graph.py:193-226 | every segment of a line has at least two vertices |
| `Segments.SegmentsShape` | tourin/graph/build_graph.py:211-226 | no breakpoints give no segments; otherwise fewer segments than terminal-completed breakpoints |
| `Segments.TerminalsSpacedForValidLine` | tourin/graph/build_graph.py:193-214 | on a line whose projections lie within its length, the completed breakpoints are strictly increasing, more than the tolerance apart |
| `Segments.SegmentsFromLine` | tourin/graph/build_graph.py:193-226 | the method (project, sort, trim, add terminals, cut) computes `Segments` |
| `Segments.ProjectAll` | tourin/graph/build_graph.py:198-201 | the projection loop computes `Projected` |
| `Segments.Trim` | tourin/graph/build_graph.py:206-209 | the trimming loop computes `Trimmed` |
| `Segments.CutAll` | tourin/graph/build_graph.py:216-225 | the cutting loop computes `Cut` over consecutive pairs |
| `RoadGraph.RoundHalfEven` | tourin/graph/build_graph.py:290 | the result is within 0.5 of the input, equals it on whole numbers, and is even on exact halves (Python's `round`) |
| `RoadGraph.RoundAtClose` | tourin/graph/build_graph.py:290 | a rounded value is within half a unit of the input |
| `RoadGraph.RoundAtIdempotent` | tourin/graph/build_graph.py:290 | rounding a rounded value changes nothing |
| `RoadGraph.Quantize` | tourin/graph/build_graph.py:286-290 | with no precision the coordinate is kept as it is |
| `RoadGraph.QuantizeIdempotent` | tourin/graph/build_graph.py:286-290 | quantizing twice is quantizing once |
| `RoadGraph.QuantizeClose` | tourin/graph/build_graph.py:286-290 | with precision `n` each axis moves by at most half of `10^-n` |
| `RoadGraph.Kept` | tourin/graph/build_graph.py:64-67 | a segment is kept iff it is an input segment whose length exceeds the minimum; no more segments than the input |
| `RoadGraph.RoadGraph.constructor` | tourin/graph/build_graph.py:46-48 | an empty graph and an empty node table |
| `RoadGraph.RoadGraph.NodeId` | tourin/graph/build_graph.py:271-283 | a quantized coordinate seen before returns its id and changes nothing; a new one gets id = number of coordinates seen, a node storing the quantized lon/lat, and the table stays a bijection with dense ids |
| `RoadGraph.RoadGraph.AddSegments` | tourin/graph/build_graph.py:64-78 | exactly one new edge per kept segment, in order, each weighted by its geodesic length between the nodes of its quantized ends; old edges and node ids are kept, and every new node is the end of a new edge |
| `RoadGraph.RoadGraph.AddSegment` | tourin/graph/build_graph.py:65-78 | a segment adds an edge iff it is longer than the minimum |
| `RoadGraph.RoadGraph.AppendEdge` | tourin/graph/build_graph.py:78 | `add_edge` appends the edge and keeps nodes and the table |
| `RoadGraph.Enumerate` | tourin/graph/build_graph.py:57 | iterating a breakpoint set visits each of its elements exactly once |
| `RoadGraph.AddLine` | tourin/graph/build_graph.py:51-78 | an empty line adds nothing; otherwise, for some order of the breakpoint set, the new edges are exactly the line's pieces between consecutive breakpoints that exceed the minimum length, in order, each joining the nodes of its quantized ends with its geodesic length and the line's metadata; old edges and node ids are kept, every new node is the end of a new edge, and every edge stays weighted by its length |
| `RoadGraph.BuildRoadGraph` | tourin/graph/build_graph.py:38-86 | a fresh valid graph whose edges are the lines' edges run together, line by line in input order, each line's edges being what `AddLine` states for that line's breakpoints from `CollectBreakpoints`; every node is the end of some edge; every edge's weight equals its `length_m`, which exceeds the minimum segment length |
| `MultiGraph.Between` | tourin/server/graph/stitch.py:66 | `get_edge_data(u, v)`: exactly the edges joining the two nodes, in either direction |
| `MultiGraph.Neighbors` | tourin/server/search/ucs.py:75 | a node is a neighbour iff some edge joins it to the node |
| `MultiGraph.NeighborsInGraph` | tourin/server/search/ucs.py:75 | in a well-formed graph every neighbour is a node |
| `MultiGraph.NextFree` | tourin/server/graph/snap.py:213 | the least unused key from `k` on |
| `MultiGraph.NewKey` | tourin/server/graph/snap.py:213 | `add_edge`'s key is used by no edge between the two nodes, and is at least their number |
| `MultiGraph.Without` | tourin/server/graph/snap.py:208 | `remove_edge(u, v, key)` keeps exactly the edges not named by the triple |
| `MultiGraph.EdgeData` | tourin/server/graph/snap.py:180 | `graph[u][v][key]` is present iff an edge has that name, and is then that edge's attributes |
| `MultiGraph.FreeTag` | tourin/server/graph/snap.py:197 | the synthetic id is not a node of the graph |
| `MultiGraph.Graph.AddNode` | tourin/server/graph/snap.py:199-206 | sets the node's data and keeps the edges |
| `MultiGraph.Graph.RemoveEdge` | tourin/server/graph/snap.py:208 | removes the named edge and keeps the nodes |
| `MultiGraph.Graph.AddEdge` | tourin/server/graph/snap.py:213 | appends the edge under a fresh key and keeps the nodes |
| `MultiGraph.AddEdgeWellFormed` | tourin/server/graph/snap.py:213 | adding an edge between two nodes under the fresh key keeps the graph well formed |
| `MultiGraph.WithoutWellFormed` | tourin/server/graph/snap.py:208 | removing an edge keeps the graph well formed |
| `MultiGraph.AddNodeWellFormed` | tourin/server/graph/snap.py:199-206 | adding a node keeps the graph well formed |
| `Snap.EnsureList` | tourin/server/graph/snap.py:139-145 | a scalar becomes a one-element list and a sequence is kept |
| `Snap.EdgeLine` | tourin/server/graph/snap.py:223-239 | a stored LineString or LinearRing gives its vertices; a MultiLineString gives its `linemerge` when that is a single line; anything else, or no geometry, the straight line between the end nodes |
| `Snap.CutPieces` | tourin/server/graph/snap.py:249-264 | no pieces for a zero-length line or a split at or beyond an end; at most two pieces, each with two or more vertices; for a split strictly inside, the substrings before and after it that are lines of two or more vertices, in that order, so two pieces iff both are |
| `Snap.CutAt` | tourin/server/graph/snap.py:181-184 | the edge's line, the point at the target's projected distance along it, and the pieces of cutting it there (at most two) |
| `Snap.Nearer` | tourin/server/graph/snap.py:185-193 | one of the edge's end nodes, no farther from the point than either, `u` on ties |
| `Snap.Surgery` | tourin/server/graph/snap.py:195-220 | a fresh synthetic node at the cut point is added; the edge is removed and every other edge kept in order; then `u`–new and new–`v` are appended carrying the oriented pieces with the old attributes |
| `Snap.SplitLineSegments` | tourin/server/graph/snap.py:249-264 | the method computes `CutPieces` |
| `Snap.Nearest` | tourin/server/graph/snap.py:285-286 | Python's `min` by distance: a closest piece, the first of the closest |
| `Snap.OrientSegments` | tourin/server/graph/snap.py:276-291 | the piece nearest `u` then the piece nearest `v`, or the pieces in their order when both are the same |
| `Snap.OrientPermutes` | tourin/server/graph/snap.py:276-291 | of two pieces, the oriented pair is the same two pieces |
| `Snap.InsertSpec` | tourin/server/graph/snap.py:173-220 | fails (KeyError) iff the edge does not exist, and then leaves the graph unchanged; otherwise returns a node of the new graph |
| `Snap.InsertFallback` | tourin/server/graph/snap.py:185-193 | when the cut does not give two pieces, the graph is unchanged and the endpoint nearer the projected point is returned, `u` on ties |
| `Snap.InsertSurgery` | tourin/server/graph/snap.py:195-220 | when it does, a fresh synthetic node at the projected point replaces the edge by `u`–new and new–`v`, carrying the oriented pieces, their great-circle lengths and the old attributes; every other edge is kept |
| `Snap.InsertWellFormed` | tourin/server/graph/snap.py:173-220 | inserting a synthetic node keeps the graph well formed |
| `Snap.InsertNonNegative` | tourin/server/graph/snap.py:210-218 | all edge lengths stay non-negative |
| `Snap.InsertExtends` | tourin/server/graph/snap.py:197-218 | no node is removed or changed, and the edge count does not drop |
| `Snap.InsertSyntheticNode` | tourin/server/graph/snap.py:173-220 | the method on the live graph ends in the state and result of `InsertSpec` |
| `Snap.Splice` | tourin/server/graph/snap.py:195-220 | the add-node, remove-edge and two add-edge calls on the live graph end in the state and result of `Surgery` |
| `Snap.SnapWith` | tourin/server/graph/snap.py:96-134 | refuses (TooFar) iff a limit is set and the nearer of node and edge is beyond it; otherwise reports the input, a node of the graph, its position and the great-circle distance to it; goes by node iff there is no edge distance or the node is no farther, and then reports the nearest node and leaves the graph unchanged; by edge it reports the node and graph that `_insert_synthetic_node` gives |
| `Snap.Snapped` | tourin/server/graph/snap.py:41-136 | no coordinates give no results and the same graph; the graph stays well formed and no node is lost |
| `Snap.SnapCoords` | tourin/server/graph/snap.py:41-136 | the loop on the live graph, looking each coordinate up as its turn comes, ends with `Snapped`'s result and graph |
| `Snap.SnapOne` | tourin/server/graph/snap.py:96-134 | one loop pass on the live graph equals `SnapWith` |
| `Snap.ErrorStops` | tourin/server/graph/snap.py:103-108 | the first error ends the run: later coordinates change nothing |
| `Snap.SnappedResults` | tourin/server/graph/snap.py:121-134 | a successful run has one result per coordinate, in order, each on a node of the final graph at that node's position |
| `Snap.SnappedNonNegative` | tourin/server/graph/snap.py:114-118 | snapping keeps all edge lengths non-negative |
| `Snap.SnapOnlyTooFar` | tourin/server/graph/snap.py:41-136 | on a graph with edges and with lookups that return existing nodes and edges, the only failure is the distance guard, and without a guard there is none |
| `Snap.BatchedSecondSplitFails` | tourin/server/graph/snap.py:75-92 | as written: two coordinates that split the same edge make the second fail with a missing edge |
| `Stitch.FirstMinIndex` | tourin/server/graph/stitch.py:69-72 | the index of an edge of least `length` (missing counts as infinity), the first such |
| `Stitch.PreferredEdge` | tourin/server/graph/stitch.py:60-72 | none iff no edge joins the nodes; otherwise the attributes of a joining edge with the least `length`, the first such in the edges' order |
| `Stitch.GeometryCoords` | tourin/server/graph/stitch.py:75-89 | none for a missing geometry or an unknown value; a coordinate list as it is; a point, line string or ring gives its vertices; a multi-part geometry gives its parts' coordinates in order, or none when they have none, never an empty list |
| `Stitch.GeometryCoordsAsWritten` | tourin/server/graph/stitch.py:75-89 | the code as written raises exactly on a multi-part geometry, and elsewhere agrees with `GeometryCoords` |
| `Stitch.MultiLineStringRaises` | tourin/server/graph/stitch.py:79-86 | on a one-line multi-line string the code as written raises, while the intended reading gives the line's points |
| `Stitch.MultiLineCoords` | tourin/server/graph/stitch.py:81-86 | a MultiLineString's coordinates are its parts' coordinates concatenated |
| `Stitch.MultiPointCoords` | tourin/server/graph/stitch.py:81-86 | a MultiPoint's coordinates are its points |
| `Stitch.ExtractGeometryCoords` | tourin/server/graph/stitch.py:75-89 | the part loop computes `GeometryCoords`, the reading in which a multi-part geometry yields its parts' coordinates |
| `Stitch.EdgeGeometryCoords` | tourin/server/graph/stitch.py:34-57 | the polyline ends at `v`'s position and, with two or more points, starts at `u`'s; no joining edge, or a preferred edge without stored coordinates or with an empty list, gives the straight segment |
| `Stitch.EdgeGeometryOrientation` | tourin/server/graph/stitch.py:47-57 | the stored geometry keeps its length; it is reversed iff its first point is farther from `u` than its last; the inner points are kept |
| `Stitch.Stitched` | tourin/server/graph/stitch.py:14-31 | empty iff the node path is empty |
| `Stitch.StitchPath` | tourin/server/graph/stitch.py:14-31 | the loop computes `Stitched` |
| `Stitch.StitchedSnoc` | tourin/server/graph/stitch.py:26-29 | each step appends the pair's polyline without its first point |
| `Stitch.StitchedLength` | tourin/server/graph/stitch.py:22-29 | the length is one plus the points each pair contributes |
| `Stitch.StitchedStart` | tourin/server/graph/stitch.py:22-24 | the route starts at the first node's position |
| `Stitch.StitchedEnd` | tourin/server/graph/stitch.py:14-31 | when every pair's polyline has two or more points, the route ends at the last node's position |
| `Search.EdgeTravelCost` | tourin/server/search/ucs.py:85-102 | infinite iff no edge joins the nodes; otherwise the preferred edge's `length`, or the great-circle distance between the nodes when it has none |
| `Search.StepNonNegative` | tourin/server/search/ucs.py:95-102 | with non-negative lengths no step costs less than 0 |
| `Search.PrefixCost` | tourin/server/search/ucs.py:77-80 | with non-negative steps a walk's prefix costs no more than the walk |
| `Search.Ucs` | tourin/server/search/ucs.py:54-82 | a source that is a target is returned at cost 0; a result is a walk from the source to a target of least cost among all walks to any target; no result means every walk to a target has infinite cost |
| `Search.Pop` | tourin/server/search/ucs.py:67-80 | one pass of the search loop keeps the search invariant and makes progress |
| `Search.StartInv` | tourin/server/search/ucs.py:61-65 | the initial frontier and cost table satisfy the search invariant |
| `Search.PoppedTargetClosest` | tourin/server/search/ucs.py:68-70 | a least-cost entry at a target is a cheapest walk to any target |
| `Search.ExhaustedUnreachable` | tourin/server/search/ucs.py:67-82 | an empty frontier means no target is reachable at finite cost |
| `Search.SkipStale` | tourin/server/search/ucs.py:72-73 | dropping an entry costlier than the recorded best keeps the invariant |
| `Search.Settle` | tourin/server/search/ucs.py:68-75 | popping a least-cost non-target entry settles its node with its cheapest cost |
| `Search.Expand` | tourin/server/search/ucs.py:75-80 | relaxing all neighbours of the settled node restores the invariant |
| `Search.RelaxNeighbour` | tourin/server/search/ucs.py:76-80 | relaxing one neighbour keeps the invariant |
| `Search.Relax` | tourin/server/search/ucs.py:78-80 | recording a cheaper route to a neighbour as its best cost and pushing the extended path keeps the invariant |
| `Search.KeepBest` | tourin/server/search/ucs.py:78 | leaving the frontier and the table as they are when the route is no cheaper keeps the invariant |
| `Search.Joined` | tourin/server/search/ucs.py:38-47 | the joined path starts at the start node |
| `Search.ReachedTargets` | tourin/server/search/ucs.py:48 | a node is reached iff some leg ends at it |
| `Search.Plan` | tourin/server/search/ucs.py:25-51 | refuses an empty target list, and only that, with NoDestinations; fails otherwise only with "no route", and then the tour is stuck; a result joins one leg per distinct target, each a cheapest walk from the previous target to a pending one |
| `Search.TourStep` | tourin/server/search/ucs.py:41-49 | one leg keeps the leg-loop invariant |
| `Search.GreedyStep` | tourin/server/search/ucs.py:41-49 | a cheapest leg to a pending target extends a greedy tour, adding its target and its path without the junction node |
| `Search.TourInGraph` | tourin/server/search/ucs.py:38-51 | every node of a greedy tour's path is a node of the graph |
| `Search.ChainedVisits` | tourin/server/search/ucs.py:47 | every target a chain of legs reached lies on the joined path |
| `Search.TourVisits` | tourin/server/search/ucs.py:38-51 | a greedy tour's path passes through every target it reached |
| `Tour.TargetNodes` | tourin/ucs.py:75-76 | the targets are the snapped nodes after the first, in order |
| `Tour.TourThrough` | tourin/ucs.py:75-120 | a route is the stitched path of a greedy tour from the start node through every distinct target; none means the tour is stuck |
| `Tour.TourVisitsTargets` | tourin/ucs.py:94-107 | the tour's node path passes through every snapped destination |
| `Tour.SnapRun` | tourin/ucs.py:70-74 | snapping the start and destinations with the default guard keeps the graph well formed |
| `Tour.Plan` | tourin/ucs.py:29-124 | no destinations is refused with the graph untouched; otherwise the graph is the snapped graph, a snapping error is passed on, and the result is a tour or "no route" with a stuck tour |
| `GraphGeojson.GeometryJson` | tourin/graph/build_graph_geojson.py:29 | a geometry object has exactly the keys `type` and `coordinates` |
| `GraphGeojson.FeatureJson` | tourin/graph/build_graph_geojson.py:26-31 | a feature has exactly the keys `type`, `geometry` and `properties` |
| `GraphGeojson.NodeProps` | tourin/graph/build_graph_geojson.py:24-25 | the node's attributes without `lon`/`lat`, plus `node_id` set to the id |
| `GraphGeojson.CoordsFromNodes` | tourin/graph/build_graph_geojson.py:60-71 | two `[lon, lat]` pairs, `u`'s then `v`'s |
| `GraphGeojson.EdgeCoords` | tourin/graph/build_graph_geojson.py:38 | truthy stored `coordinates` are used, otherwise the straight line between the end nodes |
| `GraphGeojson.EdgeProps` | tourin/graph/build_graph_geojson.py:39-42 | the attributes without `coordinates`, plus `u`, `v`, `edge_key`, which the attributes override |
| `GraphGeojson.FeatureCollection` | tourin/graph/build_graph_geojson.py:51 | an object with exactly `type` and `features`, one feature per input |
| `GraphGeojson.FirstUnlocated` | tourin/graph/build_graph_geojson.py:19-23 | the first node without `lon` or `lat`, or the count when there is none |
| `GraphGeojson.NodeFeatures` | tourin/graph/build_graph_geojson.py:19-32 | one feature per node |
| `GraphGeojson.NodeFeaturesAt` | tourin/graph/build_graph_geojson.py:19-32 | feature `i` is the point feature of node `i` |
| `GraphGeojson.EdgeFeatures` | tourin/graph/build_graph_geojson.py:37-49 | one feature per edge |
| `GraphGeojson.EdgeFeaturesAt` | tourin/graph/build_graph_geojson.py:37-49 | feature `i` is the line feature of edge `i` |
| `GraphGeojson.BuildGraphGeojson` | tourin/graph/build_graph_geojson.py:14-51 | fails iff some node lacks `lon` or `lat`, naming the first; otherwise the collection of all node features followed by all edge features |
| `GraphGeojson.CollectNodeFeatures` | tourin/graph/build_graph_geojson.py:19-32 | the node loop raises on the first unlocated node, otherwise builds `NodeFeatures` |
| `GraphGeojson.CollectEdgeFeatures` | tourin/graph/build_graph_geojson.py:37-49 | the edge loop builds `EdgeFeatures` |
| `Api.AsFloat` | tourin/server/api.py:34 | `float()` of a float, or a bool (1.0 / 0.0); of an int, its value when it lies strictly between ±(2^1024 − 2^970), and otherwise an OverflowError (none) |
| `Api.ParseCoordinateAsWritten` | tourin/server/api.py:22-34 | as written: refuses a non-object; "not numeric" iff `lat` or `lon` fails `isinstance(x, (int, float))`, booleans passing; then "invalid payload" iff `float()` overflows on either; otherwise the point `(lon, lat)` |
| `Api.OverflowingCoordinateRefused` | tourin/server/api.py:72-79 | an integer `lon` beyond the range of a double makes both readings refuse with "Invalid request payload." |
| `Api.BooleanCoordinateAccepted` | tourin/server/api.py:30 | as written, `{"lat": true, "lon": false}` is accepted as the point (0, 1) |
| `Api.ParseCoordinate` | tourin/server/api.py:22-34 | refuses a non-object; "not numeric" iff `lat` or `lon` is not a JSON number; then "invalid payload" iff `float()` overflows on either; otherwise the point `(lon, lat)` |
| `Api.ParseAgreesOffBooleans` | tourin/server/api.py:30 | the corrected and the written parsers agree on every payload without boolean fields |
| `Api.BooleanCoordinateRefused` | tourin/server/api.py:30 | the corrected parser refuses the boolean point as not numeric |
| `Api.ParseItemsSpec` | tourin/server/api.py:42-45 | the items parse iff each does, giving their coordinates in order; otherwise the error is the first failing item's |
| `Api.ParseItems` | tourin/server/api.py:42-45 | a success from item `i` on has one coordinate per remaining item (its full meaning is `ParseItemsSpec`) |
| `Api.ParseDestinations` | tourin/server/api.py:37-45 | a non-array or an empty array is refused; a non-empty array parses iff every item parses under the label `destinations[i]`, giving one coordinate per item, each item's own; otherwise the error is the first failing item's |
| `Api.Payload` | tourin/server/api.py:63-70 | an absent or undecodable body, or the JSON literal `null`, reads as `{}`; an object is used; anything else is refused |
| `Api.ParseRequest` | tourin/server/api.py:72-79 | succeeds iff both the start and the destinations parse; the start's error is reported first, and the destinations' error when the start parses |
| `Api.SerializeCoordinates` | tourin/server/api.py:100-102 | one `[lon, lat]` pair per coordinate, in order |
| `Api.SerializeRoundTrip` | tourin/server/api.py:100-102 | reading the serialised route back gives the same coordinates |
| `Api.RouteJson` | tourin/server/api.py:97 | the answer has the single key `route`, which reads back as the route |
| `Api.RoutePlanner` | tourin/server/api.py:57-97 | OPTIONS gives no content; a non-object body or a bad start/destination (including an overflowing integer, "Invalid request payload.") is refused as a BadRequest before the graph changes; otherwise the graph becomes the snapped graph and the answer follows the snapping outcome |
| `Api.SnapAndPlan` | tourin/server/api.py:83-97 | a distance-guard refusal becomes a BadRequest, other snapping errors escape, and snapped nodes are routed |
| `Api.PlanAndStitch` | tourin/server/api.py:88-97 | "no route" comes with a stuck tour; a route is the JSON of the stitched greedy tour through the snapped destinations |
| `PlannerScript.StripLeft` | scripts/test_planner.py:68 | a suffix of the text whose dropped prefix is white space, starting with a non-space |
| `PlannerScript.StripRight` | scripts/test_planner.py:68 | a prefix of the text whose dropped suffix is white space, ending with a non-space |
| `PlannerScript.StripEmpty` | scripts/test_planner.py:68-70 | stripping leaves nothing iff the text is all white space |
| `PlannerScript.StripShape` | scripts/test_planner.py:68 | the stripped text is a slice of the text, with no white space at either end |
| `PlannerScript.LoadFeatureCollection` | scripts/test_planner.py:66-84 | blank text and undecodable JSON are ValueErrors; a non-object document is an AttributeError; the document is returned iff it is a FeatureCollection with a non-empty feature list |
| `PlannerScript.FloatOf` | scripts/test_planner.py:102-106 | `float()` of a float is its value; of an int, its value when it lies strictly between ±(2^1024 − 2^970), and an OverflowError exactly otherwise; a boolean is 1.0 or 0.0; a string converts iff the string parser accepts it; null, lists and objects are refused |
| `PlannerScript.ExtractCoordinate` | scripts/test_planner.py:87-108 | a non-object feature is an AttributeError and one without an object geometry a TypeError; a non-Point is "not a Point", a non-list `coordinates` is the TypeError "must be a list" and fewer than two "missing lon/lat"; on a Point with two or more coordinates a refused `float()` of the longitude, then of the latitude, is "not numeric" and an overflow escapes as OverflowError; it succeeds iff both convert, giving `(lon, lat)` |
| `PlannerScript.ExtractAll` | scripts/test_planner.py:116-118 | all features convert iff each does, numbered from 1, in order; otherwise the error of the first feature that fails, every earlier one having converted |
| `PlannerScript.PointsOf` | scripts/test_planner.py:116-125 | the first point is the start and the rest the destinations; the first failing feature's error is passed on; fewer than two points, all converted, is the "at least two" ValueError; two or more, all converted, always succeed |
| `PlannerScript.ParsePoints` | scripts/test_planner.py:111-125 | a loading error is passed on; otherwise the points of the loaded features |
| `PlannerScript.LoadedFeatures` | scripts/test_planner.py:114 | a loaded collection has at least one feature |
| `PlannerScript.RouteFeatures` | scripts/test_planner.py:134-157 | one feature per destination plus the start and the path |
| `PlannerScript.RouteFeaturesShape` | scripts/test_planner.py:134-157 | the start first, destination `i` numbered `i` from 1, the path last |
| `PlannerScript.PointReadBack` | scripts/test_planner.py:87-108 | a written Point feature reads back as its coordinate |
| `PlannerScript.RouteFeaturesReadBack` | scripts/test_planner.py:128-159 | the start and destinations written by `build_geojson` read back as themselves |
| `PlannerScript.BuildGeojson` | scripts/test_planner.py:128-159 | a FeatureCollection of `RouteFeatures` |

## Left out

- I/O is not modelled: reading and writing files, Flask request handling, `jsonify`, printing, logging and the timing phases of `tourin/ucs.py`. Error messages are kept as error kinds, without their formatted text.
- `_inject_cors` (tourin/server/api.py:48-54) only sets response headers and is not modelled.
- `_load_roads`, `_filter_positive_lengths`, `serialize_graph`, `_clean_value` and the command-line functions of tourin/graph/build_graph.py are not modelled. They read and write files or reproject through pyproj. Road metadata is an opaque value.
- The `main`, `parse_args`, `echo`, temporary-file and cleanup functions of scripts/test_planner.py are not modelled. They are interactive I/O.
- `_ensure_edge_list` (tourin/server/graph/snap.py:148-170) is not modelled. It only reshapes numpy output. The model takes one `(u, v, key)` triple per coordinate.
- Shapely, the spatial index, osmnx and pyproj are parameters. The model assumes only what their signatures give, plus the conditions named in the contracts: `ValidLine`, `Honest`, `CandidatesInRange`.
- Floating point is modelled as exact real arithmetic. The one range limit kept is `float()` of a JSON integer, which overflows from 2^1024 − 2^970 in magnitude (`Api.AsFloat`, `PlannerScript.FloatOf`). NaN and infinite coordinates are not modelled, except for the finiteness test of `_utm_crs_for_bounds`. The infinite step cost of `_edge_travel_cost` is modelled with an extended real.
- The synthetic node id `snap-<uuid4>` is a fresh `Synthetic` tag. Only its freshness is modelled. The node's extra `lon`/`lat` attributes are left out, since only `x`/`y` are read.
- `Search.Ucs`: the heap is a set of entries, and any least-cost entry is popped. Python breaks ties by comparing node ids and then paths. That order is not modelled, so the contracts hold for every tie-break. Python's comparison also fails: two entries of equal cost whose nodes are an integer OSM id and a `snap-<hex>` string raise TypeError, which ends the request with HTTP 500 in the server and with an uncaught error in the planner. The model does not have that failure; it pops one of the two.
- Iteration over a set (a line's breakpoints, a node's neighbours) is modelled as some order. The contracts hold for every order.
- JSON object key order is not modelled (objects are maps).
- tourin/snap.py, tourin/geo.py and tourin/logger.py are not part of this model. The standalone planner (tourin/ucs.py) imports `snap_coords` from tourin/snap.py. In its place `Tour.Plan` uses the corrected per-turn snapping `Snap.SnapCoords` (see Findings), not the server's batched lookups as written.
- The private helpers of tourin/ucs.py (`_ucs`, `_edge_travel_cost`, `_path_coordinates`, `_edge_geometry_coords`, `_preferred_edge_attrs`, `_extract_geometry_coords`, `_squared_distance`) are copies of the server's. They are modelled once, by the `Search` and `Stitch` members.
- `Search.Ucs`, `Search.Plan`, `Tour.Plan` and `Api.RoutePlanner` require non-negative edge lengths (`NonNegativeLengths`). The search's optimality depends on it. Snapping is proved to preserve it (`Snap.SnappedNonNegative`).
- `Snap.SnapWith`: the result's method is "edge" whenever the edge was nearer, even when `_insert_synthetic_node` falls back to an existing endpoint. The code does this (tourin/server/graph/snap.py:114-119); the model follows the code.
- `Segments.SortByDist`: the contract states sorted and a permutation. Python's sort is also stable, which the model keeps but does not state.
- `Stitch.Stitched`: the contract states only emptiness. The contents are stated by `StitchedSnoc`, `StitchedStart`, `StitchedEnd` and `StitchedLength`.
- `RoadGraph.Quantize`: `round(x, n)` is modelled as exact decimal rounding, half to even. Binary floating-point representation effects are not modelled.
- `Api.RoutePlanner`: an HTTP 500 from an uncaught error is the `Failure` value `SnapCrash` or `NoRoute`. No HTTP status codes are modelled.
- `Api.RoutePlanner`: it composes the corrected members of the Findings table, `Api.ParseCoordinate` and the per-turn snapping `Snap.SnapCoords`. The code as written also accepts boolean coordinates and raises KeyError when two coordinates split the same edge; those behaviours are stated only by `Api.ParseCoordinateAsWritten` and `Snap.Snapped` with batched lookups.
- `Api.SnapAndPlan`: it snaps with the corrected per-turn `Snap.SnapCoords`, not the batched lookups as written, so it never meets the KeyError of the first finding.
- `Stitch.GeometryCoords`: it models the intended reading, in which a multi-part geometry yields its parts' coordinates. The code as written raises instead (see Findings and `Stitch.GeometryCoordsAsWritten`). The geometries `EdgeGeometryCoords` meets are the line-string pieces that snapping stores and the line strings of the server's loaded graph; edges from `build_road_graph` store `coordinates` and no `geometry`, so for them it falls back to the end nodes' positions. No multi-part geometry is met, so the difference does not arise there.
- `Stitch.ExtractGeometryCoords`: its loop over the parts is the intended reading too; the code as written never reaches that loop.
- `PlannerScript.FloatOf`: `float()` of a string is a parameter, as is `json.loads`. Booleans convert as in Python (`float(True)` is 1.0), so the script, like the server as written, accepts boolean coordinates; the model keeps that behaviour. An OverflowError from an oversized integer is not among the exceptions `main` catches (scripts/test_planner.py:103-105 catch only TypeError and ValueError), so it ends the script; `main` is not modelled.

## Findings

| source | as written | input that shows it | evidently intended | confidence | as-written member | corrected member |
|---|---|---|---|---|---|---|
| tourin/server/graph/snap.py:75-92 | The nearest node and edge of every coordinate are looked up once, before the loop. The loop then splits edges (lines 114-118), so a later coordinate can still be given an edge an earlier one removed. | Two coordinates whose nearest edge is the same edge `(u, v, key)`, each nearer to it than to any node, where the first one's cut gives two pieces: the first split removes `(u, v, key)`, and the second raises KeyError at `graph[u][v][key]` (line 180). | Each coordinate is snapped against the graph as it stands when its turn comes. Snapping then fails only on the distance guard. | not executed | `Snap.BatchedSecondSplitFails` (on `Snap.Snapped` with batched lookups) | `Snap.SnapCoords`, with `Snap.SnapOnlyTooFar` |
| tourin/server/graph/stitch.py:79 | `hasattr(geometry, "coords")` reads shapely's `coords` property. On a multi-part geometry that property raises NotImplementedError, and `hasattr` passes on every exception but AttributeError. The `geoms` branch (lines 81-86) is never reached. | A MultiLineString with one line from `a` to `b` raises instead of giving `[a, b]`. | A multi-part geometry gives the coordinates of its parts, in order, or None when there are none. | not executed | `Stitch.GeometryCoordsAsWritten`, `Stitch.MultiLineStringRaises` | `Stitch.GeometryCoords`, with `Stitch.MultiLineCoords` and `Stitch.MultiPointCoords` |
| tourin/server/api.py:30 | `isinstance(x, (int, float))` is true for `True` and `False`, because `bool` is a subclass of `int`. | `{"start": {"lat": true, "lon": false}, ...}` is accepted as the point (0, 1). | Only JSON numbers are accepted; the message says "numeric". | not executed | `Api.ParseCoordinateAsWritten`, `Api.BooleanCoordinateAccepted` | `Api.ParseCoordinate`, `Api.BooleanCoordinateRefused` |
