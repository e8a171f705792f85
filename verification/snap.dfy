/**
 * Snapping arbitrary (lon, lat) coordinates onto the routing graph. A
 * coordinate goes to its nearest node, unless an edge is strictly nearer;
 * then that edge is cut at the projection of the coordinate and a synthetic
 * node is spliced in between the two pieces, so that the search only ever
 * deals with nodes.
 */
module Snap {
  import opened Wrappers
  import opened Geo
  import opened MultiGraph

  /** Default maximum snapping distance, in metres. */
  const SnapMaxDistance: real := 100.0

  /**
   * The library calls snapping relies on: osmnx nearest node and nearest
   * edge (each with its distance), shapely `project`, `interpolate`,
   * `length`, `substring`, line-to-point `distance` and `linemerge`, and the
   * great-circle distance in metres.
   */
  datatype Oracles = Oracles(
    nearestNode: (GraphState, Coord) -> (NodeId, real),
    nearestEdge: (GraphState, Coord) -> (EdgeRef, Option<real>),
    project: (seq<Coord>, Coord) -> real,
    interpolate: (seq<Coord>, real) -> Coord,
    lineLength: seq<Coord> -> real,
    substring: (seq<Coord>, real, real) -> Geometry,
    lineDistance: (seq<Coord>, Coord) -> real,
    linemerge: seq<seq<Coord>> -> Geometry,
    greatCircle: Metric)

  datatype SnapError =
    | TooFar(distance: real, limit: real)   // the ValueError of the distance guard
    | MissingEdge(edge: EdgeRef)            // KeyError on `graph[u][v][key]`
    | MissingNode(node: NodeId)             // KeyError on `graph.nodes[node_id]`

  datatype Method = ByNode | ByEdge

  datatype SnapResult = SnapResult(original: Coord, node: NodeId, snapped: Coord, how: Method,
                                   distance: real)

  /** What the numpy-or-scalar results of osmnx may look like. */
  datatype Shaped<T> = Scalar(item: T) | Sequence(items: seq<T>)

  /** `_ensure_list`: a sequence is kept as it is, a scalar becomes a one-element list. */
  function EnsureList<T>(v: Shaped<T>): (r: seq<T>)
    ensures v.Scalar? ==> |r| == 1 && r[0] == v.item
    ensures v.Sequence? ==> r == v.items
  {
    match v
    case Scalar(x) => [x]
    case Sequence(xs) => xs
  }

  /** The endpoints of an existing edge are nodes of a well-formed graph. */
  lemma EdgeEnds(gs: GraphState, r: EdgeRef)
    requires WellFormed(gs) && HasEdge(gs, r)
    ensures r.u in gs.nodes && r.v in gs.nodes
  {
    var e :| e in gs.edges && Names(e, r);
  }

  /**
   * `_edge_geometry`: a stored LineString (a LinearRing is one too), a
   * MultiLineString that merges into a single line, or else the straight
   * line between the two end nodes.
   */
  function EdgeLine(gs: GraphState, o: Oracles, u: NodeId, v: NodeId, attrs: EdgeAttrs): (r: seq<Coord>)
    requires u in gs.nodes && v in gs.nodes
    ensures attrs.geometry.Some? && attrs.geometry.value.Shape? && StoredLine(attrs.geometry.value.shape).Some? ==>
      r == StoredLine(attrs.geometry.value.shape).value
    ensures attrs.geometry.Some? && attrs.geometry.value.Shape? && attrs.geometry.value.shape.MultiLineString? ==>
      var merged := o.linemerge(attrs.geometry.value.shape.lines);
      r == if StoredLine(merged).Some? then StoredLine(merged).value else [Position(gs, u), Position(gs, v)]
    ensures attrs.geometry.None? || !attrs.geometry.value.Shape? ==> r == [Position(gs, u), Position(gs, v)]
    ensures attrs.geometry.Some? && attrs.geometry.value.Shape? ==>
      (StoredLine(attrs.geometry.value.shape).None? && !attrs.geometry.value.shape.MultiLineString? ==>
         r == [Position(gs, u), Position(gs, v)])
  {
    var straight := [Position(gs, u), Position(gs, v)];
    match attrs.geometry
    case Some(Shape(LineString(cs))) => cs
    case Some(Shape(LinearRing(cs))) => cs
    case Some(Shape(MultiLineString(lines))) =>
      (match o.linemerge(lines)
       case LineString(cs) => cs
       case LinearRing(cs) => cs
       case _ => straight)
    case _ => straight
  }

  /** The vertices of a single line (a LineString or a LinearRing); none for any other kind. */
  function StoredLine(g: Geometry): Option<seq<Coord>> {
    match g
    case LineString(cs) => Some(cs)
    case LinearRing(cs) => Some(cs)
    case _ => None
  }

  /** A piece produced by `substring` is kept when it is a line with at least two vertices. */
  function LinePiece(g: Geometry): Option<seq<Coord>> {
    match g
    case LineString(cs) => if |cs| >= 2 then Some(cs) else None
    case LinearRing(cs) => if |cs| >= 2 then Some(cs) else None
    case _ => None
  }

  /** The two candidate pieces of cutting `line` at `split`. */
  function Candidates(o: Oracles, line: seq<Coord>, split: real): seq<Geometry> {
    [o.substring(line, 0.0, split), o.substring(line, split, o.lineLength(line))]
  }

  function KeptPieces(cands: seq<Geometry>): (r: seq<seq<Coord>>)
    ensures |r| <= |cands|
    ensures forall p :: p in r ==> |p| >= 2
    decreases |cands|
  {
    if cands == [] then []
    else
      var init := KeptPieces(cands[..|cands| - 1]);
      match LinePiece(Last(cands))
      case Some(p) => init + [p]
      case None => init
  }

  /**
   * What `_split_line_segments` returns: nothing when the line has zero
   * length or the cut is not strictly inside it; otherwise the pieces
   * before and after the cut that are lines of two or more vertices, in
   * that order, so two pieces exactly when both are.
   */
  function CutPieces(o: Oracles, line: seq<Coord>, split: real): (r: seq<seq<Coord>>)
    ensures |r| <= 2
    ensures forall p :: p in r ==> |p| >= 2
    ensures o.lineLength(line) == 0.0 || split <= 0.0 || split >= o.lineLength(line) ==> r == []
    ensures |r| == 2 ==> Some(r[0]) == LinePiece(o.substring(line, 0.0, split)) &&
                         Some(r[1]) == LinePiece(o.substring(line, split, o.lineLength(line)))
    ensures 0.0 < split < o.lineLength(line) ==>
      r == PieceList(o.substring(line, 0.0, split)) + PieceList(o.substring(line, split, o.lineLength(line)))
    ensures 0.0 < split < o.lineLength(line) ==>
      (|r| == 2 <==> LinePiece(o.substring(line, 0.0, split)).Some? &&
                     LinePiece(o.substring(line, split, o.lineLength(line))).Some?)
  {
    var length := o.lineLength(line);
    if length == 0.0 || split <= 0.0 || split >= length then []
    else
      var cands := Candidates(o, line, split);
      KeptTwo(cands);
      KeptPieces(cands)
  }

  /** A candidate as the list of what is kept of it: itself as a line, or nothing. */
  function PieceList(g: Geometry): (r: seq<seq<Coord>>)
    ensures |r| <= 1 && (r != [] <==> LinePiece(g).Some?)
    ensures r != [] ==> r[0] == LinePiece(g).value
  {
    match LinePiece(g)
    case Some(p) => [p]
    case None => []
  }

  /** Of two candidates, each line is kept, in order. */
  lemma KeptTwo(cands: seq<Geometry>)
    requires |cands| == 2
    ensures KeptPieces(cands) == PieceList(cands[0]) + PieceList(cands[1])
  {
    assert cands[..1][..0] == [];
    assert KeptPieces(cands[..1][..0]) == [];
    assert cands[..1][0] == cands[0];
  }

  /** `_split_line_segments`: the pieces are collected in a loop over the two candidates. */
  method SplitLineSegments(o: Oracles, line: seq<Coord>, split: real) returns (segments: seq<seq<Coord>>)
    ensures segments == CutPieces(o, line, split)
  {
    var length := o.lineLength(line);
    if length == 0.0 || split <= 0.0 || split >= length {
      return [];
    }
    var cands := Candidates(o, line, split);
    segments := [];
    for i := 0 to |cands|
      invariant segments == KeptPieces(cands[..i])
    {
      assert cands[..i + 1][..i] == cands[..i];
      match LinePiece(cands[i]) {
        case Some(p) => segments := segments + [p];
        case None =>
      }
    }
    assert cands[..|cands|] == cands;
  }

  /** The index of the first piece nearest to `p` (Python's `min` keeps the first of equal keys). */
  function Nearest(o: Oracles, pieces: seq<seq<Coord>>, p: Coord): (i: nat)
    requires pieces != []
    ensures i < |pieces|
    ensures forall j :: 0 <= j < |pieces| ==> o.lineDistance(pieces[i], p) <= o.lineDistance(pieces[j], p)
    ensures forall j :: 0 <= j < i ==> o.lineDistance(pieces[j], p) > o.lineDistance(pieces[i], p)
    decreases |pieces|
  {
    if |pieces| == 1 then 0
    else
      var k := Nearest(o, pieces[..|pieces| - 1], p);
      assert forall j :: 0 <= j < |pieces| - 1 ==> pieces[..|pieces| - 1][j] == pieces[j];
      if o.lineDistance(pieces[|pieces| - 1], p) < o.lineDistance(pieces[k], p) then |pieces| - 1 else k
  }

  /**
   * `_orient_segments`: the piece nearest `u` comes first and the piece
   * nearest `v` second; when both are the same piece the list order is kept.
   */
  function OrientSegments(o: Oracles, pieces: seq<seq<Coord>>, pu: Coord, pv: Coord)
    : (r: (seq<Coord>, seq<Coord>))
    requires |pieces| >= 2
    ensures var i, j := Nearest(o, pieces, pu), Nearest(o, pieces, pv);
      pieces[i] != pieces[j] ==> r == (pieces[i], pieces[j])
    ensures var i, j := Nearest(o, pieces, pu), Nearest(o, pieces, pv);
      pieces[i] == pieces[j] ==> r == (pieces[0], pieces[1])
  {
    var first := pieces[Nearest(o, pieces, pu)];
    var second := pieces[Nearest(o, pieces, pv)];
    if first == second then (pieces[0], pieces[1]) else (first, second)
  }

  /** With two pieces, orientation only ever reorders them: both pieces are kept. */
  lemma OrientPermutes(o: Oracles, pieces: seq<seq<Coord>>, pu: Coord, pv: Coord)
    requires |pieces| == 2
    ensures var r := OrientSegments(o, pieces, pu, pv);
      multiset{r.0, r.1} == multiset(pieces)
  {
    var i, j := Nearest(o, pieces, pu), Nearest(o, pieces, pv);
    assert pieces == [pieces[0], pieces[1]];
    if pieces[i] != pieces[j] {
      assert i != j;
      if i == 1 {
        assert multiset([pieces[0], pieces[1]]) == multiset{pieces[1], pieces[0]};
      }
    }
  }

  /** The cut of an edge: its line, the projection of the target and the pieces around it. */
  datatype Cut = Cut(line: seq<Coord>, point: Coord, pieces: seq<seq<Coord>>)

  function CutAt(gs: GraphState, o: Oracles, r: EdgeRef, attrs: EdgeAttrs, target: Coord): (c: Cut)
    requires r.u in gs.nodes && r.v in gs.nodes
    ensures |c.pieces| <= 2
    ensures c.line == EdgeLine(gs, o, r.u, r.v, attrs)
    ensures c.point == o.interpolate(c.line, o.project(c.line, target))
    ensures c.pieces == CutPieces(o, c.line, o.project(c.line, target))
  {
    var line := EdgeLine(gs, o, r.u, r.v, attrs);
    var along := o.project(line, target);
    Cut(line, o.interpolate(line, along), CutPieces(o, line, along))
  }

  /** The edge exists and cutting it at the target's projection gives two pieces. */
  ghost predicate Splits(gs: GraphState, o: Oracles, r: EdgeRef, target: Coord)
    requires WellFormed(gs)
  {
    HasEdge(gs, r) &&
    (EdgeEnds(gs, r);
     |CutAt(gs, o, r, EdgeData(gs, r).value, target).pieces| == 2)
  }

  datatype Inserted = Inserted(result: Result<NodeId, SnapError>, state: GraphState)

  /** The attributes of a replacement edge: a copy with `geometry` and `length` replaced. */
  function PieceAttrs(o: Oracles, attrs: EdgeAttrs, piece: seq<Coord>): EdgeAttrs {
    attrs.(geometry := Some(Shape(LineString(piece))), length := Some(PathLength(o.greatCircle, piece)))
  }

  /** The end node of `r` no farther from `p`; squared distances order points as distances do. */
  function Nearer(gs: GraphState, r: EdgeRef, p: Coord): (n: NodeId)
    requires r.u in gs.nodes && r.v in gs.nodes
    ensures n == r.u || n == r.v
    ensures SquaredDistance(p, Position(gs, n)) <= SquaredDistance(p, Position(gs, r.u))
    ensures SquaredDistance(p, Position(gs, n)) <= SquaredDistance(p, Position(gs, r.v))
    ensures SquaredDistance(p, Position(gs, r.u)) <= SquaredDistance(p, Position(gs, r.v)) ==> n == r.u
  {
    if SquaredDistance(p, Position(gs, r.u)) <= SquaredDistance(p, Position(gs, r.v)) then r.u else r.v
  }

  /**
   * The graph surgery of a successful cut: a synthetic node at the projected
   * point, the cut edge removed, and the two oriented pieces added as edges
   * `u`-new and new-`v`.
   */
  function Surgery(gs: GraphState, o: Oracles, r: EdgeRef, attrs: EdgeAttrs, cut: Cut): (out: Inserted)
    requires r.u in gs.nodes && r.v in gs.nodes && |cut.pieces| == 2
    ensures out.result.Ok? && out.result.value.Synthetic? && out.result.value !in gs.nodes
    ensures out.state.nodes == gs.nodes[out.result.value := NodeData(cut.point.lon, cut.point.lat, true)]
    ensures |out.state.edges| == |Without(gs.edges, r)| + 2
    ensures out.state.edges[..|out.state.edges| - 2] == Without(gs.edges, r)
    ensures var halves := OrientSegments(o, cut.pieces, Position(gs, r.u), Position(gs, r.v));
      var e1, e2 := out.state.edges[|out.state.edges| - 2], out.state.edges[|out.state.edges| - 1];
      e1.u == r.u && e1.v == out.result.value && e1.attrs == PieceAttrs(o, attrs, halves.0) &&
      e2.u == out.result.value && e2.v == r.v && e2.attrs == PieceAttrs(o, attrs, halves.1)
  {
    var halves := OrientSegments(o, cut.pieces, Position(gs, r.u), Position(gs, r.v));
    var id := Synthetic(FreeTag(gs.nodes));
    var nodes := gs.nodes[id := NodeData(cut.point.lon, cut.point.lat, true)];
    var kept := Without(gs.edges, r);
    var e1 := Edge(r.u, id, NewKey(kept, r.u, id), PieceAttrs(o, attrs, halves.0));
    var e2 := Edge(id, r.v, NewKey(kept + [e1], id, r.v), PieceAttrs(o, attrs, halves.1));
    Inserted(Ok(id), GraphState(nodes, kept + [e1, e2]))
  }

  /**
   * `_insert_synthetic_node` as a function of the graph: the missing edge is
   * an error; a cut that does not give two pieces falls back to the end node
   * nearer the projected point, leaving the graph alone; otherwise the
   * surgery.
   */
  function InsertSpec(gs: GraphState, o: Oracles, r: EdgeRef, target: Coord): (out: Inserted)
    requires WellFormed(gs)
    ensures out.result.Err? <==> !HasEdge(gs, r)
    ensures out.result.Err? ==> out.result.error == MissingEdge(r) && out.state == gs
    ensures out.result.Ok? ==> out.result.value in out.state.nodes
  {
    match EdgeData(gs, r)
    case None => Inserted(Err(MissingEdge(r)), gs)
    case Some(attrs) =>
      EdgeEnds(gs, r);
      var cut := CutAt(gs, o, r, attrs, target);
      if |cut.pieces| != 2 then Inserted(Ok(Nearer(gs, r, cut.point)), gs)
      else Surgery(gs, o, r, attrs, cut)
  }

  /** When the cut does not give two pieces the graph is untouched and the nearer end node is chosen. */
  lemma InsertFallback(gs: GraphState, o: Oracles, r: EdgeRef, target: Coord)
    requires WellFormed(gs) && HasEdge(gs, r) && !Splits(gs, o, r, target)
    ensures r.u in gs.nodes && r.v in gs.nodes
    ensures var out := InsertSpec(gs, o, r, target);
      var p := CutAt(gs, o, r, EdgeData(gs, r).value, target).point;
      out.state == gs &&
      out.result == Ok(if SquaredDistance(p, Position(gs, r.u)) <= SquaredDistance(p, Position(gs, r.v))
                       then r.u else r.v)
  {
    EdgeEnds(gs, r);
  }

  /**
   * A successful split adds exactly one node, fresh and synthetic, at the
   * projected point; removes the split edge; adds an edge from `u` to it and
   * one from it to `v`, each carrying the old attributes with the piece's
   * geometry and great-circle length; and changes nothing else.
   */
  lemma InsertSurgery(gs: GraphState, o: Oracles, r: EdgeRef, target: Coord)
    requires WellFormed(gs) && Splits(gs, o, r, target)
    ensures r.u in gs.nodes && r.v in gs.nodes
    ensures var out := InsertSpec(gs, o, r, target);
      var attrs := EdgeData(gs, r).value;
      var cut := CutAt(gs, o, r, attrs, target);
      var halves := OrientSegments(o, cut.pieces, Position(gs, r.u), Position(gs, r.v));
      out.result.Ok? && out.result.value !in gs.nodes && out.result.value.Synthetic? &&
      out.state.nodes == gs.nodes[out.result.value := NodeData(cut.point.lon, cut.point.lat, true)] &&
      !HasEdge(out.state, r) &&
      (forall e :: e in gs.edges && !Names(e, r) ==> e in out.state.edges) &&
      |out.state.edges| == |Without(gs.edges, r)| + 2 &&
      out.state.edges[..|out.state.edges| - 2] == Without(gs.edges, r) &&
      var e1, e2 := out.state.edges[|out.state.edges| - 2], out.state.edges[|out.state.edges| - 1];
      e1.u == r.u && e1.v == out.result.value && e1.attrs == PieceAttrs(o, attrs, halves.0) &&
      e2.u == out.result.value && e2.v == r.v && e2.attrs == PieceAttrs(o, attrs, halves.1)
  {
    EdgeEnds(gs, r);
    var attrs := EdgeData(gs, r).value;
    var cut := CutAt(gs, o, r, attrs, target);
    assert InsertSpec(gs, o, r, target) == Surgery(gs, o, r, attrs, cut);
    SurgeryFrame(gs, o, r, attrs, cut);
  }

  lemma SurgeryFrame(gs: GraphState, o: Oracles, r: EdgeRef, attrs: EdgeAttrs, cut: Cut)
    requires r.u in gs.nodes && r.v in gs.nodes && |cut.pieces| == 2
    ensures var out := Surgery(gs, o, r, attrs, cut);
      var halves := OrientSegments(o, cut.pieces, Position(gs, r.u), Position(gs, r.v));
      out.result.Ok? && out.result.value !in gs.nodes && out.result.value.Synthetic? &&
      out.state.nodes == gs.nodes[out.result.value := NodeData(cut.point.lon, cut.point.lat, true)] &&
      !HasEdge(out.state, r) &&
      (forall e :: e in gs.edges && !Names(e, r) ==> e in out.state.edges) &&
      |out.state.edges| == |Without(gs.edges, r)| + 2 &&
      out.state.edges[..|out.state.edges| - 2] == Without(gs.edges, r) &&
      var e1, e2 := out.state.edges[|out.state.edges| - 2], out.state.edges[|out.state.edges| - 1];
      e1.u == r.u && e1.v == out.result.value && e1.attrs == PieceAttrs(o, attrs, halves.0) &&
      e2.u == out.result.value && e2.v == r.v && e2.attrs == PieceAttrs(o, attrs, halves.1)
  {
    var out := Surgery(gs, o, r, attrs, cut);
    var kept := Without(gs.edges, r);
    assert out.state.edges[..|out.state.edges| - 2] == kept;
    forall e | e in out.state.edges
      ensures !Names(e, r)
    {
      if e !in kept {
        assert e == out.state.edges[|kept|] || e == out.state.edges[|kept| + 1];
      }
    }
  }

  /** Cutting an edge keeps the graph well formed. */
  lemma InsertWellFormed(gs: GraphState, o: Oracles, r: EdgeRef, target: Coord)
    requires WellFormed(gs)
    ensures WellFormed(InsertSpec(gs, o, r, target).state)
  {
    if Splits(gs, o, r, target) {
      EdgeEnds(gs, r);
      var attrs := EdgeData(gs, r).value;
      var cut := CutAt(gs, o, r, attrs, target);
      assert InsertSpec(gs, o, r, target) == Surgery(gs, o, r, attrs, cut);
      SurgeryWellFormed(gs, o, r, attrs, cut);
    }
  }

  lemma SurgeryWellFormed(gs: GraphState, o: Oracles, r: EdgeRef, attrs: EdgeAttrs, cut: Cut)
    requires WellFormed(gs) && r.u in gs.nodes && r.v in gs.nodes && |cut.pieces| == 2
    ensures WellFormed(Surgery(gs, o, r, attrs, cut).state)
  {
    var out := Surgery(gs, o, r, attrs, cut);
    var id := out.result.value;
    var kept := Without(gs.edges, r);
    var nodes := out.state.nodes;
    WithoutWellFormed(gs, r);
    AddNodeWellFormed(GraphState(gs.nodes, kept), id, nodes[id]);
    var g1 := GraphState(nodes, kept);
    var e1 := out.state.edges[|kept|];
    AddEdgeWellFormed(g1, r.u, id, e1.attrs);
    var e2 := out.state.edges[|kept| + 1];
    AddEdgeWellFormed(GraphState(nodes, kept + [e1]), id, r.v, e2.attrs);
    assert out.state.edges == kept + [e1] + [e2];
  }

  /** Replacement edges carry great-circle lengths, so stored lengths stay non-negative. */
  lemma InsertNonNegative(gs: GraphState, o: Oracles, r: EdgeRef, target: Coord)
    requires WellFormed(gs) && NonNegativeLengths(gs)
    ensures NonNegativeLengths(InsertSpec(gs, o, r, target).state)
  {
    if Splits(gs, o, r, target) {
      EdgeEnds(gs, r);
      var attrs := EdgeData(gs, r).value;
      var cut := CutAt(gs, o, r, attrs, target);
      assert InsertSpec(gs, o, r, target) == Surgery(gs, o, r, attrs, cut);
      SurgeryNonNegative(gs, o, r, attrs, cut);
    }
  }

  lemma SurgeryNonNegative(gs: GraphState, o: Oracles, r: EdgeRef, attrs: EdgeAttrs, cut: Cut)
    requires r.u in gs.nodes && r.v in gs.nodes && |cut.pieces| == 2 && NonNegativeLengths(gs)
    ensures NonNegativeLengths(Surgery(gs, o, r, attrs, cut).state)
  {
    var st := Surgery(gs, o, r, attrs, cut).state;
    var kept := Without(gs.edges, r);
    assert |st.edges| == |kept| + 2 && st.edges[..|kept|] == kept;
    forall e | e in st.edges
      ensures e.attrs.length.Some? ==> e.attrs.length.value >= 0.0
    {
      if e !in kept {
        assert e == st.edges[|kept|] || e == st.edges[|kept| + 1];
      }
    }
  }

  /** Node data only grows: every node keeps its attributes. */
  ghost predicate Extends(before: GraphState, after: GraphState) {
    forall n :: n in before.nodes ==> n in after.nodes && after.nodes[n] == before.nodes[n]
  }

  lemma InsertExtends(gs: GraphState, o: Oracles, r: EdgeRef, target: Coord)
    requires WellFormed(gs)
    ensures Extends(gs, InsertSpec(gs, o, r, target).state)
    ensures |InsertSpec(gs, o, r, target).state.edges| >= |gs.edges|
  {
    if Splits(gs, o, r, target) {
      EdgeEnds(gs, r);
      var attrs := EdgeData(gs, r).value;
      var cut := CutAt(gs, o, r, attrs, target);
      assert InsertSpec(gs, o, r, target) == Surgery(gs, o, r, attrs, cut);
      SurgeryExtends(gs, o, r, attrs, cut);
      var named :| named in gs.edges && Names(named, r);
      WithoutOne(gs.edges, r, named);
    }
  }

  lemma SurgeryExtends(gs: GraphState, o: Oracles, r: EdgeRef, attrs: EdgeAttrs, cut: Cut)
    requires r.u in gs.nodes && r.v in gs.nodes && |cut.pieces| == 2
    ensures Extends(gs, Surgery(gs, o, r, attrs, cut).state)
  {
    var nodes := Surgery(gs, o, r, attrs, cut).state.nodes;
    var id := Synthetic(FreeTag(gs.nodes));
    assert nodes == gs.nodes[id := NodeData(cut.point.lon, cut.point.lat, true)];
  }

  /** In a well-formed graph at most one edge carries a name, so removing it drops at most one. */
  lemma {:induction false} WithoutOne(edges: seq<Edge>, r: EdgeRef, named: Edge)
    requires named in edges && Names(named, r)
    requires forall i, j :: 0 <= i < j < |edges| ==>
      !(Joins(edges[j], edges[i].u, edges[i].v) && edges[i].key == edges[j].key)
    ensures |Without(edges, r)| >= |edges| - 1
    decreases |edges|
  {
    if Names(edges[0], r) {
      assert Without(edges, r) == Without(edges[1..], r);
      NoneNamed(edges[1..], r, edges[0]);
    } else {
      assert named in edges[1..];
      WithoutOne(edges[1..], r, named);
    }
  }

  /** An edge list none of whose edges shares the key and ends of `first` loses nothing by removal. */
  lemma {:induction false} NoneNamed(edges: seq<Edge>, r: EdgeRef, first: Edge)
    requires Names(first, r)
    requires forall e :: e in edges ==> !(Joins(e, first.u, first.v) && first.key == e.key)
    ensures Without(edges, r) == edges
    decreases |edges|
  {
    if edges != [] {
      assert edges[0] in edges;
      NoneNamed(edges[1..], r, first);
      assert edges == [edges[0]] + edges[1..];
    }
  }

  /**
   * `_insert_synthetic_node` on the live graph: the new node is added, the
   * old edge removed and the two replacement edges added in place.
   */
  method InsertSyntheticNode(g: Graph, o: Oracles, r: EdgeRef, target: Coord)
    returns (result: Result<NodeId, SnapError>)
    requires WellFormed(g.State())
    modifies g
    ensures Inserted(result, g.State()) == InsertSpec(old(g.State()), o, r, target)
  {
    var found := EdgeData(g.State(), r);
    if found.None? {
      return Err(MissingEdge(r));
    }
    var attrs := found.value;
    EdgeEnds(g.State(), r);
    var line := EdgeLine(g.State(), o, r.u, r.v, attrs);
    var along := o.project(line, target);
    var point := o.interpolate(line, along);
    var pieces := SplitLineSegments(o, line, along);
    var cut := Cut(line, point, pieces);
    assert cut == CutAt(g.State(), o, r, attrs, target);
    if |pieces| != 2 {
      return Ok(Nearer(g.State(), r, point));
    }
    result := Splice(g, o, r, attrs, cut);
  }

  /** The surgery on the live graph: `add_node`, `remove_edge`, then two `add_edge` calls. */
  method Splice(g: Graph, o: Oracles, r: EdgeRef, attrs: EdgeAttrs, cut: Cut) returns (result: Result<NodeId, SnapError>)
    requires r.u in g.nodes && r.v in g.nodes && |cut.pieces| == 2
    modifies g
    ensures Inserted(result, g.State()) == Surgery(old(g.State()), o, r, attrs, cut)
  {
    var (first, second) := OrientSegments(o, cut.pieces, Position(g.State(), r.u), Position(g.State(), r.v));
    var id := Synthetic(FreeTag(g.nodes));
    g.AddNode(id, NodeData(cut.point.lon, cut.point.lat, true));
    g.RemoveEdge(r);
    var firstLength := SumOfLegs(first, o.greatCircle);
    var _ := g.AddEdge(r.u, id, attrs.(geometry := Some(Shape(LineString(first))), length := Some(firstLength)));
    var secondLength := SumOfLegs(second, o.greatCircle);
    var _ := g.AddEdge(id, r.v, attrs.(geometry := Some(Shape(LineString(second))), length := Some(secondLength)));
    result := Ok(id);
  }

  function Min(a: real, b: real): real {
    if b < a then b else a
  }

  datatype Snapped1 = Snapped1(result: Result<SnapResult, SnapError>, state: GraphState)

  /**
   * One pass of the `snap_coords` loop, given the nearest node and edge with
   * their distances: the distance guard on the nearer of the two, then the
   * node when there is no edge distance or the node is no farther (ties go
   * to the node), else a cut of the edge.
   */
  function SnapWith(gs: GraphState, o: Oracles, c: Coord, nodeHit: (NodeId, real),
                    edgeHit: (EdgeRef, Option<real>), maxDistance: Option<real>): (out: Snapped1)
    requires WellFormed(gs)
    ensures var nearest := if edgeHit.1.None? then nodeHit.1 else Min(nodeHit.1, edgeHit.1.value);
      (maxDistance.Some? && nearest > maxDistance.value) <==> out.result.Err? && out.result.error.TooFar?
    ensures var nearest := if edgeHit.1.None? then nodeHit.1 else Min(nodeHit.1, edgeHit.1.value);
      maxDistance.Some? && nearest > maxDistance.value ==>
        out == Snapped1(Err(TooFar(nearest, maxDistance.value)), gs)
    ensures out.result.Ok? ==> (out.result.value.original == c &&
      out.result.value.node in out.state.nodes &&
      out.result.value.snapped == Position(out.state, out.result.value.node) &&
      out.result.value.distance == o.greatCircle(c, out.result.value.snapped) &&
      (out.result.value.how == ByNode <==> edgeHit.1.None? || nodeHit.1 <= edgeHit.1.value))
    ensures out.result.Ok? && out.result.value.how == ByNode ==> out.result.value.node == nodeHit.0
    ensures out.result.Ok? && out.result.value.how == ByEdge ==>
      InsertSpec(gs, o, edgeHit.0, c) == Inserted(Ok(out.result.value.node), out.state)
    ensures (edgeHit.1.None? || nodeHit.1 <= edgeHit.1.value) ==> out.state == gs
    ensures out.state == gs || out.state == InsertSpec(gs, o, edgeHit.0, c).state
    ensures WellFormed(out.state) && Extends(gs, out.state) && |out.state.edges| >= |gs.edges|
  {
    var (nodeId, nodeDist) := nodeHit;
    var (edge, edgeDist) := edgeHit;
    var nearest := if edgeDist.None? then nodeDist else Min(nodeDist, edgeDist.value);
    if maxDistance.Some? && nearest > maxDistance.value then
      Snapped1(Err(TooFar(nearest, maxDistance.value)), gs)
    else
      InsertWellFormed(gs, o, edge, c);
      InsertExtends(gs, o, edge, c);
      var byNode := edgeDist.None? || nodeDist <= edgeDist.value;
      var chosen := if byNode then Inserted(Ok(nodeId), gs) else InsertSpec(gs, o, edge, c);
      var how := if byNode then ByNode else ByEdge;
      match chosen.result
      case Err(e) => Snapped1(Err(e), chosen.state)
      case Ok(n) =>
        if n !in chosen.state.nodes then Snapped1(Err(MissingNode(n)), chosen.state)
        else
          var snapped := Position(chosen.state, n);
          Snapped1(Ok(SnapResult(c, n, snapped, how, o.greatCircle(c, snapped))), chosen.state)
  }

  datatype Outcome = Outcome(result: Result<seq<SnapResult>, SnapError>, state: GraphState)

  /**
   * `snap_coords` over a list of coordinates, threading the graph through
   * the loop; the first error stops it with the graph as far as it got.
   * With `batched` the nearest node and edge of every coordinate are looked
   * up once in the initial graph `gs`, as the code does; without it they are
   * looked up in the current graph.
   */
  function Snapped(gs: GraphState, o: Oracles, coords: seq<Coord>, maxDistance: Option<real>, batched: bool)
    : (out: Outcome)
    requires WellFormed(gs)
    ensures WellFormed(out.state) && Extends(gs, out.state) && |out.state.edges| >= |gs.edges|
    ensures coords == [] ==> out == Outcome(Ok([]), gs)
    decreases |coords|
  {
    if coords == [] then Outcome(Ok([]), gs)
    else
      var prev := Snapped(gs, o, coords[..|coords| - 1], maxDistance, batched);
      if prev.result.Err? then prev
      else
        var c := Last(coords);
        var queried := if batched then gs else prev.state;
        var one := SnapWith(prev.state, o, c, o.nearestNode(queried, c), o.nearestEdge(queried, c), maxDistance);
        match one.result
        case Err(e) => Outcome(Err(e), one.state)
        case Ok(s) => Outcome(Ok(prev.result.value + [s]), one.state)
  }

  /**
   * `snap_coords` on the live graph, looking up each coordinate's nearest
   * node and edge in the graph as it stands when the coordinate's turn comes.
   */
  method SnapCoords(g: Graph, o: Oracles, coords: seq<Coord>, maxDistance: Option<real>)
    returns (r: Result<seq<SnapResult>, SnapError>)
    requires WellFormed(g.State())
    modifies g
    ensures Outcome(r, g.State()) == Snapped(old(g.State()), o, coords, maxDistance, false)
  {
    ghost var initial := g.State();
    if coords == [] {
      return Ok([]);
    }
    var results := [];
    for i := 0 to |coords|
      invariant Snapped(initial, o, coords[..i], maxDistance, false) == Outcome(Ok(results), g.State())
      invariant WellFormed(g.State())
    {
      assert coords[..i + 1][..i] == coords[..i];
      var c := coords[i];
      var nodeHit := o.nearestNode(g.State(), c);
      var edgeHit := o.nearestEdge(g.State(), c);
      var one := SnapOne(g, o, c, nodeHit, edgeHit, maxDistance);
      if one.Err? {
        ErrorStops(initial, o, coords, maxDistance, false, i + 1);
        return Err(one.error);
      }
      results := results + [one.value];
    }
    assert coords[..|coords|] == coords;
    r := Ok(results);
  }

  /** One pass of the loop on the live graph, proved against `SnapWith`. */
  method SnapOne(g: Graph, o: Oracles, c: Coord, nodeHit: (NodeId, real), edgeHit: (EdgeRef, Option<real>),
                 maxDistance: Option<real>)
    returns (r: Result<SnapResult, SnapError>)
    requires WellFormed(g.State())
    modifies g
    ensures Snapped1(r, g.State()) == SnapWith(old(g.State()), o, c, nodeHit, edgeHit, maxDistance)
  {
    ghost var initial := g.State();
    var (nodeId, nodeDist) := nodeHit;
    var (edge, edgeDist) := edgeHit;
    var nearest := if edgeDist.None? then nodeDist else Min(nodeDist, edgeDist.value);
    if maxDistance.Some? && nearest > maxDistance.value {
      return Err(TooFar(nearest, maxDistance.value));
    }
    var chosen: Result<NodeId, SnapError>;
    var how: Method;
    var byNode := edgeDist.None? || nodeDist <= edgeDist.value;
    if byNode {
      chosen, how := Ok(nodeId), ByNode;
    } else {
      chosen := InsertSyntheticNode(g, o, edge, c);
      how := ByEdge;
    }
    assert Inserted(chosen, g.State()) ==
      if byNode then Inserted(Ok(nodeId), initial) else InsertSpec(initial, o, edge, c);
    if chosen.Err? {
      return Err(chosen.error);
    }
    var n := chosen.value;
    if n !in g.nodes {
      return Err(MissingNode(n));
    }
    var snapped := Position(g.State(), n);
    r := Ok(SnapResult(c, n, snapped, how, o.greatCircle(c, snapped)));
  }

  /** After the first error the remaining coordinates are not looked at. */
  lemma {:induction false} ErrorStops(gs: GraphState, o: Oracles, coords: seq<Coord>, maxDistance: Option<real>,
                                      batched: bool, k: nat)
    requires WellFormed(gs) && k <= |coords|
    requires Snapped(gs, o, coords[..k], maxDistance, batched).result.Err?
    ensures Snapped(gs, o, coords, maxDistance, batched) == Snapped(gs, o, coords[..k], maxDistance, batched)
    decreases |coords|
  {
    if k == |coords| {
      assert coords[..k] == coords;
    } else {
      var init := coords[..|coords| - 1];
      assert init[..k] == coords[..k];
      ErrorStops(gs, o, init, maxDistance, batched, k);
    }
  }

  /**
   * Snapping yields one result per coordinate, in input order: each keeps
   * its input coordinate and reports the position its node has in the final
   * graph.
   */
  lemma {:induction false} SnappedResults(gs: GraphState, o: Oracles, coords: seq<Coord>,
                                          maxDistance: Option<real>, batched: bool)
    requires WellFormed(gs)
    ensures var out := Snapped(gs, o, coords, maxDistance, batched);
      out.result.Ok? ==>
        |out.result.value| == |coords| &&
        forall i :: 0 <= i < |coords| ==>
          out.result.value[i].original == coords[i] &&
          out.result.value[i].node in out.state.nodes &&
          out.result.value[i].snapped == Position(out.state, out.result.value[i].node)
    decreases |coords|
  {
    if coords != [] {
      var init := coords[..|coords| - 1];
      SnappedResults(gs, o, init, maxDistance, batched);
      var prev := Snapped(gs, o, init, maxDistance, batched);
      var out := Snapped(gs, o, coords, maxDistance, batched);
      if prev.result.Ok? && out.result.Ok? {
        var c := Last(coords);
        var queried := if batched then gs else prev.state;
        var one := SnapWith(prev.state, o, c, o.nearestNode(queried, c), o.nearestEdge(queried, c), maxDistance);
        assert out.result.value == prev.result.value + [one.result.value] && out.state == one.state;
        assert coords == init + [c];
        ResultsSnoc(init, prev.result.value, prev.state, one.state, c, one.result.value);
      }
    }
  }

  /** Results that hold in a graph still hold once it is extended, and a new one can be added. */
  lemma ResultsSnoc(coords: seq<Coord>, results: seq<SnapResult>, before: GraphState, after: GraphState,
                    c: Coord, r: SnapResult)
    requires |results| == |coords|
    requires forall i :: 0 <= i < |coords| ==>
      results[i].original == coords[i] && results[i].node in before.nodes &&
      results[i].snapped == Position(before, results[i].node)
    requires Extends(before, after)
    requires r.original == c && r.node in after.nodes && r.snapped == Position(after, r.node)
    ensures var cs, rs := coords + [c], results + [r];
      |rs| == |cs| &&
      forall i :: 0 <= i < |cs| ==>
        rs[i].original == cs[i] && rs[i].node in after.nodes && rs[i].snapped == Position(after, rs[i].node)
  {
    var cs, rs := coords + [c], results + [r];
    forall i | 0 <= i < |cs|
      ensures rs[i].original == cs[i] && rs[i].node in after.nodes && rs[i].snapped == Position(after, rs[i].node)
    {
      if i < |coords| {
        assert rs[i] == results[i] && cs[i] == coords[i];
      }
    }
  }


  /** Snapping keeps stored lengths non-negative. */
  lemma {:induction false} SnappedNonNegative(gs: GraphState, o: Oracles, coords: seq<Coord>,
                                              maxDistance: Option<real>, batched: bool)
    requires WellFormed(gs) && NonNegativeLengths(gs)
    ensures NonNegativeLengths(Snapped(gs, o, coords, maxDistance, batched).state)
    decreases |coords|
  {
    if coords != [] {
      var init := coords[..|coords| - 1];
      SnappedNonNegative(gs, o, init, maxDistance, batched);
      var prev := Snapped(gs, o, init, maxDistance, batched);
      if prev.result.Ok? {
        var c := Last(coords);
        var queried := if batched then gs else prev.state;
        var one := SnapWith(prev.state, o, c, o.nearestNode(queried, c), o.nearestEdge(queried, c), maxDistance);
        assert Snapped(gs, o, coords, maxDistance, batched).state == one.state;
        InsertNonNegative(prev.state, o, o.nearestEdge(queried, c).0, c);
      }
    }
  }

  /** Nearest-element lookups that return an element of the graph they are asked about. */
  ghost predicate Honest(o: Oracles) {
    (forall gs: GraphState, c: Coord :: gs.nodes != map[] ==> o.nearestNode(gs, c).0 in gs.nodes) &&
    (forall gs: GraphState, c: Coord :: gs.edges != [] ==> HasEdge(gs, o.nearestEdge(gs, c).0))
  }

  /**
   * Looking each coordinate up in the current graph, a graph with edges and
   * honest lookups fails only on the distance guard.
   */
  lemma {:induction false} SnapOnlyTooFar(gs: GraphState, o: Oracles, coords: seq<Coord>, maxDistance: Option<real>)
    requires WellFormed(gs) && Honest(o) && gs.edges != []
    ensures var out := Snapped(gs, o, coords, maxDistance, false);
      out.result.Err? ==> out.result.error.TooFar?
    ensures maxDistance.None? ==> Snapped(gs, o, coords, maxDistance, false).result.Ok?
    decreases |coords|
  {
    if coords != [] {
      var init := coords[..|coords| - 1];
      SnapOnlyTooFar(gs, o, init, maxDistance);
      var prev := Snapped(gs, o, init, maxDistance, false);
      if prev.result.Ok? {
        var st := prev.state;
        var c := Last(coords);
        assert st.edges != [];
        var e := st.edges[0];
        assert e.u in st.nodes;
        var edgeHit := o.nearestEdge(st, c);
        assert HasEdge(st, edgeHit.0);
        var nodeHit := o.nearestNode(st, c);
        assert nodeHit.0 in st.nodes;
      }
    }
  }

  /**
   * The code as written looks every coordinate up in the initial graph: when
   * the first of two coordinates splits an edge that is also the batched
   * nearest edge of the second, and the edge is strictly nearer than the
   * node for both, the second lookup of `graph[u][v][key]` fails.
   */
  lemma BatchedSecondSplitFails(gs: GraphState, o: Oracles, c1: Coord, c2: Coord, r: EdgeRef)
    requires WellFormed(gs) && Splits(gs, o, r, c1)
    requires o.nearestEdge(gs, c1).0 == r && o.nearestEdge(gs, c2).0 == r
    requires o.nearestEdge(gs, c1).1.Some? && o.nearestNode(gs, c1).1 > o.nearestEdge(gs, c1).1.value
    requires o.nearestEdge(gs, c2).1.Some? && o.nearestNode(gs, c2).1 > o.nearestEdge(gs, c2).1.value
    ensures Snapped(gs, o, [c1, c2], None, true).result == Err(MissingEdge(r))
  {
    var s1 := InsertSpec(gs, o, r, c1).state;
    assert !HasEdge(s1, r) && WellFormed(s1) by {
      InsertSurgery(gs, o, r, c1);
      InsertWellFormed(gs, o, r, c1);
    }
    assert Snapped(gs, o, [c1], None, true).result.Ok? && Snapped(gs, o, [c1], None, true).state == s1 by {
      BatchedFirstStep(gs, o, c1, r);
    }
    GoneEdgeMissing(s1, o, c2, o.nearestNode(gs, c2), o.nearestEdge(gs, c2));
    BatchedSecondStep(gs, o, c1, c2, s1, MissingEdge(r));
  }

  /** A coordinate sent to an edge the graph no longer has fails with the missing edge. */
  lemma GoneEdgeMissing(gs: GraphState, o: Oracles, c: Coord, nodeHit: (NodeId, real), edgeHit: (EdgeRef, Option<real>))
    requires WellFormed(gs) && !HasEdge(gs, edgeHit.0)
    requires edgeHit.1.Some? && nodeHit.1 > edgeHit.1.value
    ensures SnapWith(gs, o, c, nodeHit, edgeHit, None).result == Err(MissingEdge(edgeHit.0))
  {
    assert InsertSpec(gs, o, edgeHit.0, c).result == Err(MissingEdge(edgeHit.0));
  }

  /** The second coordinate of the batched run fails when its step fails on the graph the first left. */
  lemma BatchedSecondStep(gs: GraphState, o: Oracles, c1: Coord, c2: Coord, s1: GraphState, e: SnapError)
    requires WellFormed(gs)
    requires Snapped(gs, o, [c1], None, true).result.Ok? && Snapped(gs, o, [c1], None, true).state == s1
    requires WellFormed(s1)
    requires SnapWith(s1, o, c2, o.nearestNode(gs, c2), o.nearestEdge(gs, c2), None).result == Err(e)
    ensures Snapped(gs, o, [c1, c2], None, true).result == Err(e)
  {
    assert [c1, c2][..1] == [c1];
    assert Last([c1, c2]) == c2;
  }

  /** Without a limit, a coordinate nearer an existing edge than any node is snapped onto that edge. */
  lemma EdgeStepOk(gs: GraphState, o: Oracles, c: Coord, nodeHit: (NodeId, real), edgeHit: (EdgeRef, Option<real>))
    requires WellFormed(gs) && HasEdge(gs, edgeHit.0)
    requires edgeHit.1.Some? && nodeHit.1 > edgeHit.1.value
    ensures SnapWith(gs, o, c, nodeHit, edgeHit, None).result.Ok?
    ensures SnapWith(gs, o, c, nodeHit, edgeHit, None).state == InsertSpec(gs, o, edgeHit.0, c).state
  {
    assert InsertSpec(gs, o, edgeHit.0, c).result.Ok?;
  }

  /** The first coordinate of the batched run splits the edge. */
  lemma BatchedFirstStep(gs: GraphState, o: Oracles, c1: Coord, r: EdgeRef)
    requires WellFormed(gs) && Splits(gs, o, r, c1)
    requires o.nearestEdge(gs, c1).0 == r
    requires o.nearestEdge(gs, c1).1.Some? && o.nearestNode(gs, c1).1 > o.nearestEdge(gs, c1).1.value
    ensures Snapped(gs, o, [c1], None, true).result.Ok?
    ensures Snapped(gs, o, [c1], None, true).state == InsertSpec(gs, o, r, c1).state
  {
    var s1 := InsertSpec(gs, o, r, c1).state;
    var one := SnapWith(gs, o, c1, o.nearestNode(gs, c1), o.nearestEdge(gs, c1), None);
    EdgeStepOk(gs, o, c1, o.nearestNode(gs, c1), o.nearestEdge(gs, c1));
    assert one.state == s1 && one.result.Ok?;
    assert [c1][..0] == [];
    assert Snapped(gs, o, [c1][..0], None, true) == Outcome(Ok([]), gs);
    assert Last([c1]) == c1;
  }
}
