/**
 * The road graph the builder produces (tourin/graph/build_graph.py): node ids
 * handed out densely through a table of quantized coordinates, and one
 * weighted edge per cut segment longer than the minimum segment length.
 */
module RoadGraph {
  import opened Wrappers
  import opened Geo
  import Json
  import opened Breakpoints
  import opened Segments

  // ---------------------------------------------------------------------
  // _quantize
  // ---------------------------------------------------------------------

  function Pow10(n: nat): (r: real)
    ensures r >= 1.0
  {
    if n == 0 then 1.0 else 10.0 * Pow10(n - 1)
  }

  /** `10 ** n` for any integer `n`, as Python's `round` scales by it. */
  function Scale(n: int): (r: real)
    ensures r > 0.0
  {
    if n >= 0 then Pow10(n) else 1.0 / Pow10(-n)
  }

  /** Round half to even, the rule of Python's `round`. */
  function RoundHalfEven(y: real): (k: int)
    ensures -0.5 <= k as real - y <= 0.5
    ensures y == k as real <==> y == y.Floor as real
    ensures y - y.Floor as real == 0.5 ==> k % 2 == 0
  {
    var f := y.Floor;
    var frac := y - f as real;
    if frac < 0.5 then f
    else if frac > 0.5 then f + 1
    else if f % 2 == 0 then f else f + 1
  }

  /** `x` rounded to a whole number of units `1 / s`. */
  function RoundAt(x: real, s: real): real
    requires s > 0.0
  {
    RoundHalfEven(x * s) as real / s
  }

  /** `round(x, n)`: `x` rounded to `n` decimal places. */
  function RoundTo(x: real, n: int): real {
    RoundAt(x, Scale(n))
  }

  /** `_quantize`: with no precision the coordinate is kept as it is, else each axis is rounded. */
  function Quantize(c: Coord, precision: Option<int>): (q: Coord)
    ensures precision.None? ==> q == c
  {
    match precision
    case None => c
    case Some(n) => Coord(RoundTo(c.lon, n), RoundTo(c.lat, n))
  }

  /** A rounded value is off by at most half a unit. */
  lemma RoundAtClose(x: real, s: real)
    requires s > 0.0
    ensures -0.5 <= (RoundAt(x, s) - x) * s <= 0.5
  {
    var k := RoundHalfEven(x * s) as real;
    assert (k / s) * s == k;
    assert (k / s - x) * s == (k / s) * s - x * s;
  }

  /** A whole number of units rounds to itself. */
  lemma RoundAtUnit(k: int, s: real)
    requires s > 0.0
    ensures RoundAt((k as real) / s, s) == (k as real) / s
  {
    var r := (k as real) / s;
    var y := r * s;
    assert RoundAt(r, s) == (RoundHalfEven(y) as real) / s;
    assert y == k as real by {
      assert r * s == k as real;
    }
    assert RoundHalfEven(y) == k;
  }

  /** Rounding a rounded value changes nothing. */
  lemma RoundAtIdempotent(x: real, s: real)
    requires s > 0.0
    ensures RoundAt(RoundAt(x, s), s) == RoundAt(x, s)
  {
    var k := RoundHalfEven(x * s);
    assert RoundAt(x, s) == (k as real) / s;
    RoundAtUnit(k, s);
  }

  /** Quantizing is idempotent, so a quantized coordinate looks up the node it made. */
  lemma QuantizeIdempotent(c: Coord, precision: Option<int>)
    ensures Quantize(Quantize(c, precision), precision) == Quantize(c, precision)
  {
    if precision.Some? {
      var scale := Scale(precision.value);
      var q := Coord(RoundAt(c.lon, scale), RoundAt(c.lat, scale));
      assert Quantize(c, precision) == q;
      RoundAtIdempotent(c.lon, scale);
      RoundAtIdempotent(c.lat, scale);
      assert Quantize(q, precision) == Coord(RoundAt(q.lon, scale), RoundAt(q.lat, scale));
    }
  }

  /** Each axis moves by at most half a unit of the last kept decimal place. */
  lemma QuantizeClose(c: Coord, n: int)
    ensures var q, scale := Quantize(c, Some(n)), Scale(n);
      -0.5 <= (q.lon - c.lon) * scale <= 0.5 && -0.5 <= (q.lat - c.lat) * scale <= 0.5
  {
    RoundAtClose(c.lon, Scale(n));
    RoundAtClose(c.lat, Scale(n));
  }

  // ---------------------------------------------------------------------
  // The graph
  // ---------------------------------------------------------------------

  /** The cleaned road attributes every segment of a line inherits. */
  datatype Metadata = Metadata(wayId: Json.Value, name: Json.Value, highway: Json.Value)

  /** An edge: its two node ids, weight and length in metres, vertices and road attributes. */
  datatype RoadEdge = RoadEdge(u: nat, v: nat, weight: real, lengthM: real,
                               coords: seq<Coord>, meta: Metadata)

  /** The segments the edge loop keeps, in order: those longer than `minSegment`. */
  function Kept(segs: seq<Segment>, d: Metric, minSegment: real): (r: seq<Segment>)
    ensures |r| <= |segs|
    ensures forall s :: s in r ==> s in segs && PathLength(d, s.coords) > minSegment
    ensures forall s :: s in segs && PathLength(d, s.coords) > minSegment ==> s in r
    decreases |segs|
  {
    if segs == [] then []
    else
      var init := segs[..|segs| - 1];
      assert segs == init + [Last(segs)];
      var r := Kept(init, d, minSegment);
      if PathLength(d, Last(segs).coords) <= minSegment then r else r + [Last(segs)]
  }

  lemma KeptStep(segs: seq<Segment>, i: nat, d: Metric, minSegment: real)
    requires i < |segs|
    ensures Kept(segs[..i + 1], d, minSegment) ==
      if PathLength(d, segs[i].coords) <= minSegment then Kept(segs[..i], d, minSegment)
      else Kept(segs[..i], d, minSegment) + [segs[i]]
  {
    assert segs[..i + 1][..i] == segs[..i];
  }

  class RoadGraph {
    /** `node_lookup`: quantized coordinate to node id. */
    var lookup: map<Coord, nat>
    /** The graph's nodes: id to the stored (lon, lat). */
    var nodes: map<nat, Coord>
    /** The graph's edges in insertion order. */
    var edges: seq<RoadEdge>

    /**
     * Ids are dense (`0 .. |nodes| - 1`), the lookup and the node table are
     * inverse to each other, and every edge joins two nodes.
     */
    ghost predicate Valid()
      reads this
    {
      |lookup| == |nodes| &&
      (forall c :: c in lookup ==> lookup[c] in nodes && nodes[lookup[c]] == c) &&
      (forall i :: i in nodes ==> i < |nodes| && nodes[i] in lookup && lookup[nodes[i]] == i) &&
      (forall e :: e in edges ==> e.u in nodes && e.v in nodes)
    }

    constructor ()
      ensures Valid()
      ensures lookup == map[] && nodes == map[] && edges == []
    {
      lookup := map[];
      nodes := map[];
      edges := [];
    }

    /**
     * `_node_id`: the id of the quantized coordinate, made on first sight as
     * the number of coordinates seen so far, with a node storing the quantized
     * lon/lat; a coordinate seen before changes nothing and gets its old id.
     */
    method NodeId(coord: Coord, precision: Option<int>) returns (id: nat)
      requires Valid()
      modifies this
      ensures Valid()
      ensures Quantize(coord, precision) in old(lookup) ==>
        id == old(lookup)[Quantize(coord, precision)] && lookup == old(lookup) && nodes == old(nodes)
      ensures Quantize(coord, precision) !in old(lookup) ==>
        id == |old(lookup)| && id !in old(nodes) &&
        lookup == old(lookup)[Quantize(coord, precision) := id] &&
        nodes == old(nodes)[id := Quantize(coord, precision)]
      ensures id in nodes && nodes[id] == Quantize(coord, precision)
      ensures Extends(old(nodes), nodes) && nodes.Keys == old(nodes).Keys + {id}
      ensures edges == old(edges)
    {
      var q := Quantize(coord, precision);
      if q !in lookup {
        id := |lookup|;
        assert id !in nodes;
        lookup := lookup[q := id];
        nodes := nodes[id := q];
        assert |lookup| == |old(lookup)| + 1;
        assert |nodes| == |old(nodes)| + 1;
      }
      id := lookup[q];
    }

    /**
     * The edge loop of `build_road_graph` for one line's segments: each
     * segment's geodesic length is summed over its vertex pairs; a segment no
     * longer than `minSegment` is dropped, every other one becomes an edge
     * whose weight and `length_m` are that length, between the nodes of its
     * quantized end coordinates, carrying its vertices and the line's
     * attributes. Existing ids never move, and every new node is an end of
     * a new edge.
     */
    method AddSegments(segs: seq<Segment>, d: Metric, minSegment: real,
                       precision: Option<int>, meta: Metadata)
      requires Valid()
      modifies this
      ensures Valid()
      ensures |edges| == |old(edges)| + |Kept(segs, d, minSegment)|
      ensures edges[..|old(edges)|] == old(edges)
      ensures AllNew(edges[|old(edges)|..], Kept(segs, d, minSegment), nodes, d, precision, meta)
      ensures Extends(old(nodes), nodes)
      ensures EndsCover(old(nodes), nodes, edges[|old(edges)|..])
    {
      ghost var start, nodes0 := edges, nodes;
      ghost var made: seq<RoadEdge> := [];
      ghost var kept: seq<Segment> := [];
      for i := 0 to |segs|
        invariant kept == Kept(segs[..i], d, minSegment)
        invariant Progress(start, nodes0, made, kept, d, precision, meta)
      {
        KeptStep(segs, i, d, minSegment);
        var added;
        added, made, kept := AddSegment(segs[i], d, minSegment, precision, meta, start, nodes0, made, kept);
      }
      assert segs[..|segs|] == segs;
      assert edges[..|start|] == start;
      assert edges[|start|..] == made;
    }

    /**
     * The edges made so far extend `start`, one per kept segment, and the
     * node table only grew, by ends of the edges made.
     */
    ghost predicate Progress(start: seq<RoadEdge>, nodes0: map<nat, Coord>, made: seq<RoadEdge>,
                             kept: seq<Segment>, d: Metric, precision: Option<int>, meta: Metadata)
      reads this
    {
      Valid() && edges == start + made && AllNew(made, kept, nodes, d, precision, meta) &&
      Extends(nodes0, nodes) && EndsCover(nodes0, nodes, made)
    }

    /** `graph.add_edge` for an edge between two known nodes. */
    method AppendEdge(edge: RoadEdge)
      requires Valid() && edge.u in nodes && edge.v in nodes
      modifies this
      ensures Valid()
      ensures edges == old(edges) + [edge] && nodes == old(nodes) && lookup == old(lookup)
    {
      edges := edges + [edge];
    }

    /** One iteration of the edge loop. */
    method AddSegment(seg: Segment, d: Metric, minSegment: real, precision: Option<int>,
                      meta: Metadata, ghost start: seq<RoadEdge>, ghost nodes0: map<nat, Coord>,
                      ghost made: seq<RoadEdge>, ghost kept: seq<Segment>)
      returns (added: bool, ghost made': seq<RoadEdge>, ghost kept': seq<Segment>)
      requires Progress(start, nodes0, made, kept, d, precision, meta)
      modifies this
      ensures Progress(start, nodes0, made', kept', d, precision, meta)
      ensures added <==> PathLength(d, seg.coords) > minSegment
      ensures added ==> kept' == kept + [seg]
      ensures !added ==> kept' == kept
    {
      var lengthM := SumOfLegs(seg.coords, d);
      added := lengthM > minSegment;
      made', kept' := made, kept;
      if added {
        ghost var nodesBefore := nodes;
        var u := NodeId(seg.start, precision);
        ghost var nodesMid := nodes;
        var v := NodeId(seg.end, precision);
        ExtendsTransitive(nodesBefore, nodesMid, nodes);
        var edge := RoadEdge(u, v, lengthM, lengthM, seg.coords, meta);
        assert NewEdge(edge, seg, nodes, d, precision, meta);
        AppendEdge(edge);
        AllNewStable(made, kept, nodesBefore, nodes, d, precision, meta);
        ExtendsTransitive(nodes0, nodesBefore, nodes);
        AllNewAppend(made, kept, nodes, edge, seg, d, precision, meta);
        EndsCoverStep(nodes0, nodesBefore, nodes, made, edge);
        AppendAssoc(start, made, edge);
        made', kept' := made + [edge], kept + [seg];
      }
    }
  }

  lemma AppendAssoc<T>(a: seq<T>, b: seq<T>, x: T)
    ensures (a + b) + [x] == a + (b + [x])
  {
  }

  lemma ExtendsTransitive<K, V>(a: map<K, V>, b: map<K, V>, c: map<K, V>)
    requires Extends(a, b) && Extends(b, c)
    ensures Extends(a, c)
  {}

  lemma AllNewAppend(made: seq<RoadEdge>, kept: seq<Segment>, nodes: map<nat, Coord>,
                     e: RoadEdge, s: Segment, d: Metric, precision: Option<int>, meta: Metadata)
    requires AllNew(made, kept, nodes, d, precision, meta) && NewEdge(e, s, nodes, d, precision, meta)
    ensures AllNew(made + [e], kept + [s], nodes, d, precision, meta)
  {}

  /** Every node of `after` that `before` lacks is an end of some edge of `es`. */
  ghost predicate EndsCover(before: map<nat, Coord>, after: map<nat, Coord>, es: seq<RoadEdge>) {
    forall n :: n in after && n !in before ==> exists e :: e in es && (e.u == n || e.v == n)
  }

  lemma EndsCoverStep(nodes0: map<nat, Coord>, nodes: map<nat, Coord>, nodes': map<nat, Coord>,
                      made: seq<RoadEdge>, edge: RoadEdge)
    requires EndsCover(nodes0, nodes, made) && nodes'.Keys <= nodes.Keys + {edge.u, edge.v}
    ensures EndsCover(nodes0, nodes', made + [edge])
  {
    forall n | n in nodes' && n !in nodes0
      ensures exists e :: e in made + [edge] && (e.u == n || e.v == n)
    {
      if n in nodes {
        var e :| e in made && (e.u == n || e.v == n);
        assert e in made + [edge];
      } else {
        assert edge in made + [edge];
      }
    }
  }

  /** Nodes added in two rounds are ends of the edges of either round. */
  lemma EndsCoverJoin(a: map<nat, Coord>, b: map<nat, Coord>, c: map<nat, Coord>,
                      es1: seq<RoadEdge>, es2: seq<RoadEdge>)
    requires EndsCover(a, b, es1) && EndsCover(b, c, es2)
    ensures EndsCover(a, c, es1 + es2)
  {
    forall n | n in c && n !in a
      ensures exists e :: e in es1 + es2 && (e.u == n || e.v == n)
    {
      if n in b {
        var e :| e in es1 && (e.u == n || e.v == n);
        assert e in es1 + es2;
      } else {
        var e :| e in es2 && (e.u == n || e.v == n);
        assert e in es1 + es2;
      }
    }
  }

  /** `later` keeps every entry of `earlier`. */
  ghost predicate Extends<K, V>(earlier: map<K, V>, later: map<K, V>) {
    forall k :: k in earlier ==> k in later && later[k] == earlier[k]
  }

  /** An added edge as the edge loop builds it from its segment. */
  ghost predicate NewEdge(e: RoadEdge, s: Segment, nodes: map<nat, Coord>, d: Metric,
                          precision: Option<int>, meta: Metadata) {
    e.coords == s.coords && e.weight == e.lengthM && e.lengthM == PathLength(d, s.coords) &&
    e.u in nodes && e.v in nodes &&
    nodes[e.u] == Quantize(s.start, precision) && nodes[e.v] == Quantize(s.end, precision) &&
    e.meta == meta
  }

  /** Every edge made so far is the edge of the segment kept at the same position. */
  ghost predicate AllNew(made: seq<RoadEdge>, kept: seq<Segment>, nodes: map<nat, Coord>, d: Metric,
                         precision: Option<int>, meta: Metadata) {
    |made| == |kept| &&
    forall k :: 0 <= k < |kept| ==> NewEdge(made[k], kept[k], nodes, d, precision, meta)
  }

  lemma AllNewStable(made: seq<RoadEdge>, kept: seq<Segment>, nodes: map<nat, Coord>,
                     nodes': map<nat, Coord>, d: Metric, precision: Option<int>, meta: Metadata)
    requires AllNew(made, kept, nodes, d, precision, meta) && Extends(nodes, nodes')
    ensures AllNew(made, kept, nodes', d, precision, meta)
  {
    forall k | 0 <= k < |kept|
      ensures NewEdge(made[k], kept[k], nodes', d, precision, meta)
    {
      NewEdgeStable(made[k], kept[k], nodes, nodes', d, precision, meta);
    }
  }

  lemma NewEdgeStable(e: RoadEdge, s: Segment, nodes: map<nat, Coord>, nodes': map<nat, Coord>,
                      d: Metric, precision: Option<int>, meta: Metadata)
    requires NewEdge(e, s, nodes, d, precision, meta) && Extends(nodes, nodes')
    ensures NewEdge(e, s, nodes', d, precision, meta)
  {}

  // ---------------------------------------------------------------------
  // build_road_graph
  // ---------------------------------------------------------------------

  /** The iteration order of a set: each member exactly once, in an order the model does not fix. */
  method Enumerate(s: set<Coord>) returns (r: seq<Coord>)
    ensures forall c :: c in r <==> c in s
    ensures forall i, j :: 0 <= i < j < |r| ==> r[i] != r[j]
  {
    r := [];
    var rest := s;
    while rest != {}
      invariant rest <= s
      invariant forall c :: c in r ==> c in s && c !in rest
      invariant forall c :: c in s ==> c in r || c in rest
      invariant forall i, j :: 0 <= i < j < |r| ==> r[i] != r[j]
      decreases rest
    {
      var c :| c in rest;
      r := r + [c];
      rest := rest - {c};
    }
  }

  /** An edge as every edge of the built graph is: weight is its geodesic length, above the minimum. */
  ghost predicate WeightedEdge(e: RoadEdge, d: Metric, minSegment: real) {
    |e.coords| >= 2 && e.weight == e.lengthM && e.lengthM == PathLength(d, e.coords) &&
    e.lengthM > minSegment
  }

  /** `order` lists each element of `s` exactly once: an iteration order of the set. */
  ghost predicate IsOrder(order: seq<Coord>, s: set<Coord>) {
    (forall c :: c in order <==> c in s) &&
    (forall i, j :: 0 <= i < j < |order| ==> order[i] != order[j])
  }

  /**
   * The edges one line contributes: none for an empty line; otherwise, for
   * some iteration order of its breakpoints, one edge per segment of the
   * line cut there that is longer than `minSegment`, in order, between the
   * nodes of the segment's quantized ends.
   */
  ghost predicate LineEdges(made: seq<RoadEdge>, line: LineGeom, breakpoints: set<Coord>,
                            nodes: map<nat, Coord>, d: Metric, precision: Option<int>,
                            minSegment: real, meta: Metadata) {
    (line.coords == [] ==> made == []) &&
    (line.coords != [] ==>
      exists order :: IsOrder(order, breakpoints) &&
        AllNew(made, Kept(Segments.Segments(line, order), d, minSegment), nodes, d, precision, meta))
  }

  lemma LineEdgesStable(made: seq<RoadEdge>, line: LineGeom, breakpoints: set<Coord>,
                        nodes: map<nat, Coord>, nodes': map<nat, Coord>, d: Metric,
                        precision: Option<int>, minSegment: real, meta: Metadata)
    requires LineEdges(made, line, breakpoints, nodes, d, precision, minSegment, meta)
    requires Extends(nodes, nodes')
    ensures LineEdges(made, line, breakpoints, nodes', d, precision, minSegment, meta)
  {
    if line.coords != [] {
      var order :| IsOrder(order, breakpoints) &&
        AllNew(made, Kept(Segments.Segments(line, order), d, minSegment), nodes, d, precision, meta);
      AllNewStable(made, Kept(Segments.Segments(line, order), d, minSegment), nodes, nodes', d, precision, meta);
    }
  }

  /**
   * One iteration of the line loop of `build_road_graph`: an empty line is
   * skipped, otherwise it is cut at its breakpoints (taken in set iteration
   * order) and its segments go through the edge loop. The edges appended
   * are the line's edges; old edges and ids stay, and every new node is an
   * end of a new edge.
   */
  method AddLine(g: RoadGraph, line: LineGeom, breakpoints: set<Coord>, d: Metric,
                 precision: Option<int>, minSegment: real, meta: Metadata)
    requires g.Valid()
    requires forall e :: e in g.edges ==> WeightedEdge(e, d, minSegment)
    modifies g
    ensures g.Valid()
    ensures forall e :: e in g.edges ==> WeightedEdge(e, d, minSegment)
    ensures |old(g.edges)| <= |g.edges| && g.edges[..|old(g.edges)|] == old(g.edges)
    ensures LineEdges(g.edges[|old(g.edges)|..], line, breakpoints, g.nodes, d, precision, minSegment, meta)
    ensures Extends(old(g.nodes), g.nodes)
    ensures EndsCover(old(g.nodes), g.nodes, g.edges[|old(g.edges)|..])
  {
    if line.coords == [] {
      assert g.edges[|old(g.edges)|..] == [];
      return;
    }
    var order := Enumerate(breakpoints);
    assert IsOrder(order, breakpoints);
    var segs := SegmentsFromLine(line, order);
    ghost var before := g.edges;
    g.AddSegments(segs, d, minSegment, precision, meta);
    AppendedWeighted(before, g.edges, segs, g.nodes, d, precision, minSegment, meta);
  }

  /** Edges appended for the kept segments of a line keep every edge weighted. */
  lemma AppendedWeighted(before: seq<RoadEdge>, after: seq<RoadEdge>, segs: seq<Segment>,
                         nodes: map<nat, Coord>, d: Metric, precision: Option<int>,
                         minSegment: real, meta: Metadata)
    requires forall e :: e in before ==> WeightedEdge(e, d, minSegment)
    requires forall s :: s in segs ==> |s.coords| >= 2
    requires |after| == |before| + |Kept(segs, d, minSegment)|
    requires after[..|before|] == before
    requires AllNew(after[|before|..], Kept(segs, d, minSegment), nodes, d, precision, meta)
    ensures forall e :: e in after ==> WeightedEdge(e, d, minSegment)
  {
    var kept := Kept(segs, d, minSegment);
    forall k | 0 <= k < |after|
      ensures WeightedEdge(after[k], d, minSegment)
    {
      if k >= |before| {
        assert after[|before|..][k - |before|] == after[k];
        assert NewEdge(after[k], kept[k - |before|], nodes, d, precision, meta);
        assert kept[k - |before|] in kept;
      } else {
        assert after[k] == before[k];
      }
    }
  }

  /** The vertex lists of the lines, as `_collect_breakpoints` receives them. */
  function LineCoords(lines: seq<LineGeom>): (geoms: seq<seq<Coord>>)
    ensures |geoms| == |lines|
    ensures forall k :: 0 <= k < |lines| ==> geoms[k] == lines[k].coords
  {
    seq(|lines|, k requires 0 <= k < |lines| => lines[k].coords)
  }

  /** The edge lists of the lines, run together in line order. */
  function Flatten(chunks: seq<seq<RoadEdge>>): seq<RoadEdge>
    decreases |chunks|
  {
    if chunks == [] then [] else Flatten(chunks[..|chunks| - 1]) + Last(chunks)
  }

  lemma SplitAt<T>(s: seq<T>, n: nat)
    requires n <= |s|
    ensures s == s[..n] + s[n..]
  {}

  /**
   * The graph built from the first `|chunks|` lines: its edges are their
   * edge lists run together, each list being that line's edges cut at its
   * breakpoints, and every node is an end of some edge.
   */
  ghost predicate Built(edges: seq<RoadEdge>, nodes: map<nat, Coord>, chunks: seq<seq<RoadEdge>>,
                        lines: seq<LineGeom>, bp: seq<set<Coord>>, metas: seq<Metadata>,
                        d: Metric, precision: Option<int>, minSegment: real) {
    |chunks| <= |lines| && |chunks| <= |bp| && |chunks| <= |metas| &&
    edges == Flatten(chunks) &&
    (forall k :: 0 <= k < |chunks| ==>
      LineEdges(chunks[k], lines[k], bp[k], nodes, d, precision, minSegment, metas[k])) &&
    EndsCover(map[], nodes, edges)
  }

  /**
   * Adding the next line keeps `Built`: its new edges are the next chunk, and
   * growing the node table leaves the finished lines' edges what they were.
   */
  lemma BuiltStep(edges: seq<RoadEdge>, nodes: map<nat, Coord>, edges': seq<RoadEdge>,
                  nodes': map<nat, Coord>, chunks: seq<seq<RoadEdge>>, lines: seq<LineGeom>,
                  bp: seq<set<Coord>>, metas: seq<Metadata>, d: Metric, precision: Option<int>,
                  minSegment: real)
    requires Built(edges, nodes, chunks, lines, bp, metas, d, precision, minSegment)
    requires |chunks| < |lines| && |chunks| < |bp| && |chunks| < |metas|
    requires |edges| <= |edges'| && edges'[..|edges|] == edges
    requires LineEdges(edges'[|edges|..], lines[|chunks|], bp[|chunks|], nodes', d, precision,
                       minSegment, metas[|chunks|])
    requires Extends(nodes, nodes') && EndsCover(nodes, nodes', edges'[|edges|..])
    ensures Built(edges', nodes', chunks + [edges'[|edges|..]], lines, bp, metas, d, precision, minSegment)
  {
    var c := edges'[|edges|..];
    SplitAt(edges', |edges|);
    FlattenSnoc(chunks, c);
    EndsCoverJoin(map[], nodes, nodes', edges, c);
    forall k | 0 <= k < |chunks| + 1
      ensures LineEdges((chunks + [c])[k], lines[k], bp[k], nodes', d, precision, minSegment, metas[k])
    {
      if k < |chunks| {
        assert (chunks + [c])[k] == chunks[k];
        LineEdgesStable(chunks[k], lines[k], bp[k], nodes, nodes', d, precision, minSegment, metas[k]);
      } else {
        assert (chunks + [c])[k] == c;
      }
    }
  }

  lemma FlattenSnoc(chunks: seq<seq<RoadEdge>>, c: seq<RoadEdge>)
    ensures Flatten(chunks + [c]) == Flatten(chunks) + c
  {
    assert (chunks + [c])[..|chunks|] == chunks;
  }

  /**
   * `build_road_graph` after loading: breakpoints are collected over all
   * lines, then every line goes through `AddLine` with its own attributes.
   * The edges are, line by line in order (`chunks`), the edges of each line
   * cut at its collected breakpoints; every edge has at least two vertices
   * and a weight equal to its summed geodesic length, above `minSegment`;
   * and every node is an end of some edge.
   */
  method BuildRoadGraph(lines: seq<LineGeom>, metas: seq<Metadata>, query: nat -> seq<nat>,
                        intersect: (nat, nat) -> Option<Geometry>, d: Metric,
                        precision: Option<int>, minSegment: real)
    returns (g: RoadGraph, ghost chunks: seq<seq<RoadEdge>>)
    requires |metas| == |lines|
    requires CandidatesInRange(|lines|, query)
    ensures fresh(g) && g.Valid()
    ensures forall e :: e in g.edges ==> WeightedEdge(e, d, minSegment)
    ensures |chunks| == |lines| && g.edges == Flatten(chunks)
    ensures forall k :: 0 <= k < |lines| ==>
      LineEdges(chunks[k], lines[k], Rows(LineCoords(lines), query, intersect, |lines|)[k],
                g.nodes, d, precision, minSegment, metas[k])
    ensures EndsCover(map[], g.nodes, g.edges)
  {
    var geoms := LineCoords(lines);
    var bp := CollectBreakpoints(geoms, query, intersect);
    g := new RoadGraph();
    chunks := [];
    for idx := 0 to |lines|
      invariant fresh(g) && g.Valid()
      invariant forall e :: e in g.edges ==> WeightedEdge(e, d, minSegment)
      invariant |chunks| == idx
      invariant Built(g.edges, g.nodes, chunks, lines, bp, metas, d, precision, minSegment)
    {
      ghost var before, nodesBefore := g.edges, g.nodes;
      AddLine(g, lines[idx], bp[idx], d, precision, minSegment, metas[idx]);
      BuiltStep(before, nodesBefore, g.edges, g.nodes, chunks, lines, bp, metas, d, precision, minSegment);
      chunks := chunks + [g.edges[|before|..]];
    }
  }
}
