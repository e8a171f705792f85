/**
 * Export of the built road graph as a GeoJSON FeatureCollection (RFC 7946,
 * section 3.3): one Point feature per node, then one LineString feature per
 * edge, in the graph's iteration order.
 */
module GraphGeojson {
  import opened Wrappers
  import opened Json

  type Attrs = map<string, Value>

  datatype AttrEdge = AttrEdge(u: int, v: int, key: int, attrs: Attrs)

  /** The graph as networkx iterates it: nodes with their attributes, then edges with key and attributes. */
  datatype AttrGraph = AttrGraph(nodes: seq<(int, Attrs)>, edges: seq<AttrEdge>)

  datatype ExportError = MissingLonLat(node: int)

  /** `graph.nodes[id]`: the attributes of the node with that id. */
  function Lookup(nodes: seq<(int, Attrs)>, id: int): Option<Attrs>
    decreases |nodes|
  {
    if nodes == [] then None
    else if nodes[0].0 == id then Some(nodes[0].1)
    else Lookup(nodes[1..], id)
  }

  /** `attrs.get("lon")` and `attrs.get("lat")` both give something other than None. */
  predicate Located(a: Attrs) {
    Get(a, "lon") != Null && Get(a, "lat") != Null
  }

  /** Both ends of `e` are nodes of the graph. */
  predicate EdgeEndsKnown(g: AttrGraph, e: AttrEdge) {
    Lookup(g.nodes, e.u).Some? && Lookup(g.nodes, e.v).Some?
  }

  /** Every edge joins two nodes of the graph. */
  predicate EndsKnown(g: AttrGraph) {
    forall i :: 0 <= i < |g.edges| ==> EdgeEndsKnown(g, g.edges[i])
  }

  /** A GeoJSON geometry: a Point at `[lon, lat]` or a LineString over a coordinate array. */
  datatype Geometry = Point(lon: Value, lat: Value) | LineString(coordinates: Value)

  datatype Feature = Feature(geometry: Geometry, properties: Attrs)

  /** A geometry as the JSON object it is written as. */
  function GeometryJson(g: Geometry): (v: Value)
    ensures v.Obj? && v.fields.Keys == {"type", "coordinates"}
  {
    match g
    case Point(lon, lat) => Obj(map["type" := Str("Point"), "coordinates" := Arr([lon, lat])])
    case LineString(cs) => Obj(map["type" := Str("LineString"), "coordinates" := cs])
  }

  /** A feature as the JSON object it is written as. */
  function FeatureJson(f: Feature): (v: Value)
    ensures v.Obj? && v.fields.Keys == {"type", "geometry", "properties"}
  {
    Obj(map["type" := Str("Feature"), "geometry" := GeometryJson(f.geometry), "properties" := Obj(f.properties)])
  }

  /** Node properties: every attribute but `lon` and `lat`, plus `node_id`. */
  function NodeProps(id: int, a: Attrs): (p: Attrs)
    ensures p.Keys == a.Keys - {"lon", "lat"} + {"node_id"}
    ensures p["node_id"] == Int(id)
    ensures forall k :: k in a && k !in {"lon", "lat", "node_id"} ==> p[k] == a[k]
  {
    (map k | k in a && k != "lon" && k != "lat" :: a[k])["node_id" := Int(id)]
  }

  function NodeFeature(id: int, a: Attrs): Feature {
    Feature(Point(Get(a, "lon"), Get(a, "lat")), NodeProps(id, a))
  }

  /** `_coords_from_nodes`: the straight line between the two end nodes, as `[lon, lat]` pairs. */
  function CoordsFromNodes(g: AttrGraph, u: int, v: int): (c: Value)
    requires Lookup(g.nodes, u).Some? && Lookup(g.nodes, v).Some?
    ensures c.Arr? && |c.items| == 2
    ensures var au, av := Lookup(g.nodes, u).value, Lookup(g.nodes, v).value;
      c.items[0] == Arr([Get(au, "lon"), Get(au, "lat")]) &&
      c.items[1] == Arr([Get(av, "lon"), Get(av, "lat")])
  {
    var au, av := Lookup(g.nodes, u).value, Lookup(g.nodes, v).value;
    Arr([Arr([Get(au, "lon"), Get(au, "lat")]), Arr([Get(av, "lon"), Get(av, "lat")])])
  }

  /** An edge's line: its `coordinates` attribute when that is truthy, else the straight line. */
  function EdgeCoords(g: AttrGraph, e: AttrEdge): (c: Value)
    requires Lookup(g.nodes, e.u).Some? && Lookup(g.nodes, e.v).Some?
    ensures Truthy(Get(e.attrs, "coordinates")) ==> c == e.attrs["coordinates"]
    ensures !Truthy(Get(e.attrs, "coordinates")) ==> c == CoordsFromNodes(g, e.u, e.v)
  {
    var stored := Get(e.attrs, "coordinates");
    if Truthy(stored) then stored else CoordsFromNodes(g, e.u, e.v)
  }

  /** Edge properties: `u`, `v` and `edge_key`, then every attribute but `coordinates`, which win. */
  function EdgeProps(e: AttrEdge): (p: Attrs)
    ensures p.Keys == e.attrs.Keys - {"coordinates"} + {"u", "v", "edge_key"}
    ensures forall k :: k in e.attrs && k != "coordinates" ==> p[k] == e.attrs[k]
    ensures "u" !in e.attrs ==> p["u"] == Int(e.u)
    ensures "v" !in e.attrs ==> p["v"] == Int(e.v)
    ensures "edge_key" !in e.attrs ==> p["edge_key"] == Int(e.key)
  {
    map["u" := Int(e.u), "v" := Int(e.v), "edge_key" := Int(e.key)] +
    (map k | k in e.attrs && k != "coordinates" :: e.attrs[k])
  }

  function EdgeFeature(g: AttrGraph, e: AttrEdge): Feature
    requires EdgeEndsKnown(g, e)
  {
    Feature(LineString(EdgeCoords(g, e)), EdgeProps(e))
  }

  /** `{"type": "FeatureCollection", "features": [...]}`. */
  function FeatureCollection(features: seq<Feature>): (v: Value)
    ensures v.Obj? && v.fields.Keys == {"type", "features"}
    ensures v.fields["features"].Arr? && |v.fields["features"].items| == |features|
  {
    Obj(map["type" := Str("FeatureCollection"),
            "features" := Arr(seq(|features|, i requires 0 <= i < |features| => FeatureJson(features[i])))])
  }

  /** The index of the first node lacking `lon` or `lat`, if any. */
  function FirstUnlocated(nodes: seq<(int, Attrs)>): (i: nat)
    ensures i <= |nodes|
    ensures forall j :: 0 <= j < i ==> Located(nodes[j].1)
    ensures i < |nodes| ==> !Located(nodes[i].1)
    decreases |nodes|
  {
    if nodes == [] || !Located(nodes[0].1) then 0 else 1 + FirstUnlocated(nodes[1..])
  }

  /** The Point features of the nodes, in order. */
  function NodeFeatures(nodes: seq<(int, Attrs)>): (fs: seq<Feature>)
    ensures |fs| == |nodes|
    decreases |nodes|
  {
    if nodes == [] then []
    else
      var init := nodes[..|nodes| - 1];
      assert forall i :: 0 <= i < |init| ==> init[i] == nodes[i];
      NodeFeatures(init) + [NodeFeature(nodes[|nodes| - 1].0, nodes[|nodes| - 1].1)]
  }

  /** The LineString features of the edges, in order. */
  function EdgeFeatures(g: AttrGraph, edges: seq<AttrEdge>): (fs: seq<Feature>)
    requires forall i :: 0 <= i < |edges| ==> EdgeEndsKnown(g, edges[i])
    ensures |fs| == |edges|
    decreases |edges|
  {
    if edges == [] then []
    else
      var init := edges[..|edges| - 1];
      assert forall i :: 0 <= i < |init| ==> init[i] == edges[i];
      EdgeFeatures(g, init) + [EdgeFeature(g, edges[|edges| - 1])]
  }

  /**
   * `build_graph_geojson`: the node loop fails on the first node without
   * `lon`/`lat`; otherwise the collection holds one feature per node followed
   * by one per edge, in order.
   */
  method BuildGraphGeojson(g: AttrGraph) returns (r: Result<Value, ExportError>)
    requires EndsKnown(g)
    ensures r.Err? <==> exists i :: 0 <= i < |g.nodes| && !Located(g.nodes[i].1)
    ensures r.Err? ==> r.error == MissingLonLat(g.nodes[FirstUnlocated(g.nodes)].0)
    ensures r.Ok? ==> r.value == FeatureCollection(NodeFeatures(g.nodes) + EdgeFeatures(g, g.edges))
  {
    var nodeFeatures := CollectNodeFeatures(g.nodes);
    if nodeFeatures.Err? {
      return Err(nodeFeatures.error);
    }
    var edgeFeatures := CollectEdgeFeatures(g);
    r := Ok(FeatureCollection(nodeFeatures.value + edgeFeatures));
  }

  /** The node loop: one Point feature per node, stopping at the first node without `lon`/`lat`. */
  method CollectNodeFeatures(nodes: seq<(int, Attrs)>) returns (r: Result<seq<Feature>, ExportError>)
    ensures r.Err? <==> exists i :: 0 <= i < |nodes| && !Located(nodes[i].1)
    ensures r.Err? ==> r.error == MissingLonLat(nodes[FirstUnlocated(nodes)].0)
    ensures r.Ok? ==> r.value == NodeFeatures(nodes)
  {
    var features: seq<Feature> := [];
    for i := 0 to |nodes|
      invariant i <= FirstUnlocated(nodes)
      invariant features == NodeFeatures(nodes[..i])
    {
      var id, attrs := nodes[i].0, nodes[i].1;
      if !Located(attrs) {
        return Err(MissingLonLat(id));
      }
      NodeFeaturesSnoc(nodes, i);
      features := features + [NodeFeature(id, attrs)];
    }
    assert nodes[..|nodes|] == nodes;
    r := Ok(features);
  }

  /** The edge loop: one LineString feature per edge. */
  method CollectEdgeFeatures(g: AttrGraph) returns (features: seq<Feature>)
    requires EndsKnown(g)
    ensures features == EdgeFeatures(g, g.edges)
  {
    features := [];
    for j := 0 to |g.edges|
      invariant features == EdgeFeatures(g, g.edges[..j])
    {
      EdgeFeaturesSnoc(g, j);
      features := features + [EdgeFeature(g, g.edges[j])];
    }
    assert g.edges[..|g.edges|] == g.edges;
  }

  /** Feature `i` of the node export is the feature of node `i`. */
  lemma {:induction false} NodeFeaturesAt(nodes: seq<(int, Attrs)>, i: nat)
    requires i < |nodes|
    ensures NodeFeatures(nodes)[i] == NodeFeature(nodes[i].0, nodes[i].1)
    decreases |nodes|
  {
    if i < |nodes| - 1 {
      var init := nodes[..|nodes| - 1];
      NodeFeaturesAt(init, i);
    }
  }

  /** Feature `i` of the edge export is the feature of edge `i`. */
  lemma {:induction false} EdgeFeaturesAt(g: AttrGraph, edges: seq<AttrEdge>, i: nat)
    requires forall j :: 0 <= j < |edges| ==> EdgeEndsKnown(g, edges[j])
    requires i < |edges|
    ensures EdgeFeatures(g, edges)[i] == EdgeFeature(g, edges[i])
    decreases |edges|
  {
    if i < |edges| - 1 {
      var init := edges[..|edges| - 1];
      EdgeFeaturesAt(g, init, i);
    }
  }

  /** Appending a node appends its feature. */
  lemma NodeFeaturesSnoc(nodes: seq<(int, Attrs)>, i: nat)
    requires i < |nodes|
    ensures NodeFeatures(nodes[..i + 1]) == NodeFeatures(nodes[..i]) + [NodeFeature(nodes[i].0, nodes[i].1)]
  {
    assert nodes[..i + 1][..i] == nodes[..i];
  }

  /** Appending an edge appends its feature. */
  lemma EdgeFeaturesSnoc(g: AttrGraph, j: nat)
    requires EndsKnown(g) && j < |g.edges|
    ensures EdgeFeatures(g, g.edges[..j + 1]) == EdgeFeatures(g, g.edges[..j]) + [EdgeFeature(g, g.edges[j])]
  {
    assert g.edges[..j + 1][..j] == g.edges[..j];
  }
}
