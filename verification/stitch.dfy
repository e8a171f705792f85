/**
 * Expanding a node path into a polyline: for each consecutive node pair the
 * preferred parallel edge's stored geometry is oriented from the first node
 * to the second, its ends are pinned to the two nodes' coordinates, and the
 * pieces are joined without repeating the junction points.
 */
module Stitch {
  import opened Wrappers
  import opened Geo
  import opened MultiGraph

  /** The key `preferred_edge_attrs` minimises: `length`, a missing one counting as infinite. */
  function LengthKey(a: EdgeAttrs): ExtReal {
    if a.length.Some? then Fin(a.length.value) else PosInf
  }

  /** Python's `min` over a non-empty sequence: the first element of least key. */
  function FirstMinIndex(es: seq<Edge>): (i: nat)
    requires es != []
    ensures i < |es|
    ensures forall j :: 0 <= j < |es| ==> LengthKey(es[i].attrs).Le(LengthKey(es[j].attrs))
    ensures forall j :: 0 <= j < i ==> LengthKey(es[i].attrs).Lt(LengthKey(es[j].attrs))
    decreases |es|
  {
    if |es| == 1 then 0
    else
      var k := FirstMinIndex(es[1..]) + 1;
      assert es[1..][k - 1] == es[k];
      if LengthKey(es[0].attrs).Le(LengthKey(es[k].attrs)) then 0 else k
  }

  /** Edge `i` carries `a`, and every edge before it has a strictly greater key. */
  predicate FirstLeast(es: seq<Edge>, i: nat, a: EdgeAttrs) {
    i < |es| && es[i].attrs == a && forall j :: 0 <= j < i ==> LengthKey(a).Lt(LengthKey(es[j].attrs))
  }

  /**
   * `preferred_edge_attrs`: None when no edge joins `u` and `v`, otherwise
   * the attributes of the first parallel edge of least `length`.
   */
  function PreferredEdge(gs: GraphState, u: NodeId, v: NodeId): (r: Option<EdgeAttrs>)
    ensures r.None? <==> !Adjacent(gs, u, v)
    ensures r.Some? ==> exists e :: e in gs.edges && Joins(e, u, v) && e.attrs == r.value
    ensures r.Some? ==> forall e :: e in gs.edges && Joins(e, u, v) ==> LengthKey(r.value).Le(LengthKey(e.attrs))
    ensures r.Some? ==> exists i :: FirstLeast(Between(gs.edges, u, v), i, r.value)
  {
    var between := Between(gs.edges, u, v);
    if between == [] then
      assert forall e :: e in gs.edges && Joins(e, u, v) ==> e in between;
      None
    else
      var i := FirstMinIndex(between);
      assert between[i] in between;
      assert forall e :: e in between ==> exists j :: 0 <= j < |between| && between[j] == e;
      assert FirstLeast(between, i, between[i].attrs);
      Some(between[i].attrs)
  }

  /** Geometries with a `coords` attribute: points, line strings and rings. */
  predicate HasCoords(g: Geometry) {
    g.Point? || g.LineString? || g.LinearRing?
  }

  function CoordsOf(g: Geometry): seq<Coord>
    requires HasCoords(g)
  {
    match g
    case Point(p) => [p]
    case LineString(cs) => cs
    case LinearRing(cs) => cs
  }

  /** The parts a multi-part geometry yields through `geoms`. */
  function PartsOf(g: Geometry): (parts: seq<Geometry>)
    requires !HasCoords(g)
  {
    match g
    case MultiPoint(ps) => seq(|ps|, i requires 0 <= i < |ps| => Point(ps[i]))
    case MultiLineString(ls) => seq(|ls|, i requires 0 <= i < |ls| => LineString(ls[i]))
    case GeometryCollection(parts) => parts
  }

  /** Coordinates of the parts that have them, parts in order. */
  function PartsCoords(parts: seq<Geometry>): seq<Coord>
    decreases |parts|
  {
    if parts == [] then []
    else
      var p := Last(parts);
      PartsCoords(parts[..|parts| - 1]) + (if HasCoords(p) then CoordsOf(p) else [])
  }

  /** Concatenation of coordinate lists, in order. */
  function Concat(ls: seq<seq<Coord>>): seq<Coord>
    decreases |ls|
  {
    if ls == [] then [] else Concat(ls[..|ls| - 1]) + Last(ls)
  }

  /** The coordinates of a multi-line string are its lines' coordinates run together. */
  lemma {:induction false} MultiLineCoords(ls: seq<seq<Coord>>)
    ensures PartsCoords(PartsOf(MultiLineString(ls))) == Concat(ls)
    decreases |ls|
  {
    if ls != [] {
      var init := ls[..|ls| - 1];
      MultiLineCoords(init);
      assert PartsOf(MultiLineString(ls))[..|ls| - 1] == PartsOf(MultiLineString(init));
    }
  }

  /** The coordinates of a multi-point are its points, in order. */
  lemma {:induction false} MultiPointCoords(ps: seq<Coord>)
    ensures PartsCoords(PartsOf(MultiPoint(ps))) == ps
    decreases |ps|
  {
    if ps != [] {
      var init := ps[..|ps| - 1];
      MultiPointCoords(init);
      assert PartsOf(MultiPoint(ps))[..|ps| - 1] == PartsOf(MultiPoint(init));
      assert init + [Last(ps)] == ps;
    }
  }

  /**
   * What `extract_geometry_coords` returns: None for a missing value or one
   * it does not understand, the vertex list of a geometry with coordinates,
   * the coordinates of the coordinate-bearing parts of a multi-part geometry
   * (None if there are none), or a copy of a plain list.
   */
  function GeometryCoords(v: Option<GeometryValue>): (r: Option<seq<Coord>>)
    ensures v.None? || v == Some(Other) ==> r.None?
    ensures v.Some? && v.value.CoordList? ==> r == Some(v.value.items)
    ensures v.Some? && v.value.Shape? && HasCoords(v.value.shape) ==> r == Some(CoordsOf(v.value.shape))
    ensures v.Some? && v.value.Shape? && !HasCoords(v.value.shape) ==>
      r != Some([]) && (r.None? <==> PartsCoords(PartsOf(v.value.shape)) == []) &&
      (r.Some? ==> r.value == PartsCoords(PartsOf(v.value.shape)))
  {
    match v
    case None => None
    case Some(Other) => None
    case Some(CoordList(items)) => Some(items)
    case Some(Shape(g)) =>
      if HasCoords(g) then Some(CoordsOf(g))
      else
        var cs := PartsCoords(PartsOf(g));
        if cs == [] then None else Some(cs)
  }

  /** The error `extract_geometry_coords` lets escape. */
  datatype Raised = NotImplementedError

  /**
   * `extract_geometry_coords` as written. `hasattr(geometry, "coords")`
   * evaluates shapely's `coords` property, which raises NotImplementedError
   * on a multi-part geometry; `hasattr` swallows only AttributeError, so the
   * error escapes and the `geoms` branch is never reached. Everywhere else
   * the code gives what `GeometryCoords` gives.
   */
  function GeometryCoordsAsWritten(v: Option<GeometryValue>): (r: Result<Option<seq<Coord>>, Raised>)
    ensures r.Err? <==> v.Some? && v.value.Shape? && !HasCoords(v.value.shape)
    ensures r.Ok? ==> r.value == GeometryCoords(v)
  {
    match v
    case None => Ok(None)
    case Some(Other) => Ok(None)
    case Some(CoordList(items)) => Ok(Some(items))
    case Some(Shape(g)) => if HasCoords(g) then Ok(Some(CoordsOf(g))) else Err(NotImplementedError)
  }

  /**
   * A one-line multi-line string: the code as written raises, while the
   * reading its `geoms` branch intends gives the line's points.
   */
  lemma MultiLineStringRaises(a: Coord, b: Coord)
    ensures GeometryCoordsAsWritten(Some(Shape(MultiLineString([[a, b]])))) == Err(NotImplementedError)
    ensures GeometryCoords(Some(Shape(MultiLineString([[a, b]])))) == Some([a, b])
  {
    MultiLineCoords([[a, b]]);
    assert [[a, b]][..0] == [];
    assert Concat([[a, b]]) == [a, b];
  }

  /** `extract_geometry_coords`, with its accumulation loop over the parts. */
  method ExtractGeometryCoords(v: Option<GeometryValue>) returns (r: Option<seq<Coord>>)
    ensures r == GeometryCoords(v)
  {
    if v.None? || v.value.Other? {
      return None;
    }
    if v.value.CoordList? {
      return Some(v.value.items);
    }
    var g := v.value.shape;
    if HasCoords(g) {
      return Some(CoordsOf(g));
    }
    var parts := PartsOf(g);
    var coords := [];
    for i := 0 to |parts|
      invariant coords == PartsCoords(parts[..i])
    {
      assert parts[..i + 1][..i] == parts[..i];
      if HasCoords(parts[i]) {
        coords := coords + CoordsOf(parts[i]);
      }
    }
    assert parts[..|parts|] == parts;
    r := if coords == [] then None else Some(coords);
  }

  /**
   * `edge_geometry_coords`: the polyline from `u` to `v`. Without an edge
   * or without usable stored coordinates it is the straight pair of node
   * positions; otherwise the stored coordinates, reversed when their first
   * vertex is farther (squared distance) from `u` than their last, with the
   * first vertex overwritten by `u`'s position and then the last by `v`'s.
   */
  function EdgeGeometryCoords(gs: GraphState, u: NodeId, v: NodeId): (coords: seq<Coord>)
    requires u in gs.nodes && v in gs.nodes
    ensures coords != [] && Last(coords) == Position(gs, v)
    ensures |coords| >= 2 ==> coords[0] == Position(gs, u)
    ensures PreferredEdge(gs, u, v).None? ==> coords == [Position(gs, u), Position(gs, v)]
    ensures PreferredEdge(gs, u, v).Some? &&
            (GeometryCoords(PreferredEdge(gs, u, v).value.geometry).None? ||
             GeometryCoords(PreferredEdge(gs, u, v).value.geometry) == Some([])) ==>
      coords == [Position(gs, u), Position(gs, v)]
  {
    var start := Position(gs, u);
    var end := Position(gs, v);
    var candidate := PreferredEdge(gs, u, v);
    if candidate.None? then [start, end]
    else
      var raw := GeometryCoords(candidate.value.geometry);
      if raw.None? || raw.value == [] then [start, end]
      else
        var oriented := if SquaredDistance(raw.value[0], start) > SquaredDistance(Last(raw.value), start)
                        then Reverse(raw.value) else raw.value;
        oriented[0 := start][|oriented| - 1 := end]
  }

  /**
   * Orientation and pinning: with usable stored coordinates `raw` the result
   * has their length, its interior is `raw` read forwards, or backwards
   * exactly when the first stored vertex is farther from `u` than the last,
   * and a single stored vertex collapses to `v`'s position alone.
   */
  lemma EdgeGeometryOrientation(gs: GraphState, u: NodeId, v: NodeId)
    requires u in gs.nodes && v in gs.nodes
    requires PreferredEdge(gs, u, v).Some?
    requires GeometryCoords(PreferredEdge(gs, u, v).value.geometry).Some?
    requires GeometryCoords(PreferredEdge(gs, u, v).value.geometry).value != []
    ensures
      var raw := GeometryCoords(PreferredEdge(gs, u, v).value.geometry).value;
      var coords := EdgeGeometryCoords(gs, u, v);
      var reversed := SquaredDistance(raw[0], Position(gs, u)) > SquaredDistance(Last(raw), Position(gs, u));
      |coords| == |raw| &&
      (|raw| == 1 ==> coords == [Position(gs, v)]) &&
      (forall i :: 0 < i < |raw| - 1 ==> coords[i] == if reversed then raw[|raw| - 1 - i] else raw[i])
  {
    var raw := GeometryCoords(PreferredEdge(gs, u, v).value.geometry).value;
    var start, end := Position(gs, u), Position(gs, v);
    var reversed := SquaredDistance(raw[0], start) > SquaredDistance(Last(raw), start);
    var oriented := if reversed then Reverse(raw) else raw;
    assert EdgeGeometryCoords(gs, u, v) == oriented[0 := start][|oriented| - 1 := end];
  }

  predicate NodePositions(gs: GraphState, nodes: seq<NodeId>) {
    forall n :: n in nodes ==> n in gs.nodes
  }

  /**
   * What `stitch_path` returns: nothing for no nodes, otherwise the first
   * node's position followed, for each consecutive pair, by that pair's
   * polyline without its first coordinate.
   */
  function Stitched(gs: GraphState, nodes: seq<NodeId>): (r: seq<Coord>)
    requires NodePositions(gs, nodes)
    ensures nodes == [] <==> r == []
    decreases |nodes|
  {
    if nodes == [] then []
    else if |nodes| == 1 then [Position(gs, nodes[0])]
    else
      var init := nodes[..|nodes| - 1];
      assert forall n :: n in init ==> n in nodes;
      Stitched(gs, init) + EdgeGeometryCoords(gs, nodes[|nodes| - 2], nodes[|nodes| - 1])[1..]
  }

  /** `stitch_path`, extending the coordinate list pair by pair. */
  method StitchPath(gs: GraphState, nodes: seq<NodeId>) returns (stitched: seq<Coord>)
    requires NodePositions(gs, nodes)
    ensures stitched == Stitched(gs, nodes)
  {
    if nodes == [] {
      return [];
    }
    stitched := [Position(gs, nodes[0])];
    var pairs := Pairs(nodes);
    for i := 0 to |pairs|
      invariant stitched == Stitched(gs, nodes[..i + 1])
    {
      var (u, v) := pairs[i];
      StitchedSnoc(gs, nodes, i);
      var segment := EdgeGeometryCoords(gs, u, v);
      stitched := stitched + segment[1..];
    }
    assert nodes[..|pairs| + 1] == nodes;
  }

  /** One more node extends the stitched prefix by its pair's polyline, first coordinate dropped. */
  lemma StitchedSnoc(gs: GraphState, nodes: seq<NodeId>, i: nat)
    requires NodePositions(gs, nodes) && i + 1 < |nodes|
    ensures nodes[i] in nodes && nodes[i + 1] in nodes
    ensures Stitched(gs, nodes[..i + 2]) ==
      Stitched(gs, nodes[..i + 1]) + EdgeGeometryCoords(gs, nodes[i], nodes[i + 1])[1..]
  {
    assert nodes[..i + 2][..i + 1] == nodes[..i + 1];
  }

  /** Total number of coordinates the pairs contribute: each polyline minus its first point. */
  function Contributed(gs: GraphState, nodes: seq<NodeId>): nat
    requires NodePositions(gs, nodes)
    decreases |nodes|
  {
    if |nodes| < 2 then 0
    else
      var init := nodes[..|nodes| - 1];
      assert forall n :: n in init ==> n in nodes;
      Contributed(gs, init) + |EdgeGeometryCoords(gs, nodes[|nodes| - 2], nodes[|nodes| - 1])| - 1
  }

  /** The stitched path has one coordinate for the first node plus what every pair contributes. */
  lemma {:induction false} StitchedLength(gs: GraphState, nodes: seq<NodeId>)
    requires NodePositions(gs, nodes) && nodes != []
    ensures |Stitched(gs, nodes)| == 1 + Contributed(gs, nodes)
    decreases |nodes|
  {
    if |nodes| > 1 {
      var init := nodes[..|nodes| - 1];
      assert forall n :: n in init ==> n in nodes;
      StitchedLength(gs, init);
    }
  }

  /** The stitched path starts at the first node's position. */
  lemma {:induction false} StitchedStart(gs: GraphState, nodes: seq<NodeId>)
    requires NodePositions(gs, nodes) && nodes != []
    ensures Stitched(gs, nodes)[0] == Position(gs, nodes[0])
    decreases |nodes|
  {
    if |nodes| > 1 {
      var init := nodes[..|nodes| - 1];
      assert forall n :: n in init ==> n in nodes;
      StitchedStart(gs, init);
    }
  }

  /** Every polyline of the path has at least two coordinates. */
  ghost predicate LongPieces(gs: GraphState, nodes: seq<NodeId>)
    requires NodePositions(gs, nodes)
  {
    forall i :: 0 <= i < |nodes| - 1 ==> |EdgeGeometryCoords(gs, nodes[i], nodes[i + 1])| >= 2
  }

  /** When every polyline has at least two coordinates, the stitched path ends at the last node. */
  lemma {:induction false} StitchedEnd(gs: GraphState, nodes: seq<NodeId>)
    requires NodePositions(gs, nodes) && nodes != []
    requires LongPieces(gs, nodes)
    ensures Last(Stitched(gs, nodes)) == Position(gs, Last(nodes))
  {
    if |nodes| > 1 {
      var piece := EdgeGeometryCoords(gs, nodes[|nodes| - 2], nodes[|nodes| - 1]);
      assert |piece| >= 2;
      assert Last(piece[1..]) == Last(piece);
    }
  }
}
