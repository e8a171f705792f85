/**
 * Breakpoint collection for the road-graph builder
 * (tourin/graph/build_graph.py): every line keeps its two endpoints and the
 * points where it meets the lines the spatial index proposes for it.
 *
 * The spatial-index query and the pairwise intersection are parameters, as
 * functions of line indices; an intersection that fails with a topology error
 * is `None`.
 */
module Breakpoints {
  import opened Wrappers
  import opened Geo

  /** Distances closer than this are the same breakpoint. */
  const Tolerance: real := 0.000000001

  // ---------------------------------------------------------------------
  // _points_from_geometry
  // ---------------------------------------------------------------------

  /** Every coordinate a geometry holds, at any depth. */
  ghost function Vertices(g: Geometry): set<Coord>
    decreases g
  {
    match g
    case Point(at) => {at}
    case MultiPoint(points) => set p | p in points
    case LineString(coords) => set p | p in coords
    case LinearRing(ring) => set p | p in ring
    case MultiLineString(lines) => set i, p | 0 <= i < |lines| && p in lines[i] :: p
    case GeometryCollection(parts) =>
      set i, p | 0 <= i < |parts| && p in Vertices(parts[i]) :: p
  }

  function LineEndpoints(coords: seq<Coord>): seq<Coord> {
    if coords == [] then [] else [coords[0], Last(coords)]
  }

  /** The endpoints of each line part, parts in order (the MultiLineString loop). */
  function PartsEndpoints(lines: seq<seq<Coord>>): seq<Coord>
    decreases |lines|
  {
    if lines == [] then [] else PartsEndpoints(lines[..|lines| - 1]) + LineEndpoints(Last(lines))
  }

  /**
   * The points at which an intersection result breaks a line: a point is
   * itself, a multipoint its points, a line its two ends, a multiline the ends
   * of each part, and every other kind (or an empty geometry) nothing.
   */
  function PointsFromGeometry(g: Geometry): (r: seq<Coord>)
    ensures forall p :: p in r ==> p in Vertices(g)
    ensures g.GeometryCollection? ==> r == []
  {
    match g
    case Point(at) => [at]
    case MultiPoint(points) => points
    case LineString(coords) => LineEndpoints(coords)
    case LinearRing(ring) => LineEndpoints(ring)
    case MultiLineString(lines) =>
      PartsInVertices(lines);
      PartsEndpoints(lines)
    case GeometryCollection(_) => []
  }

  lemma {:induction false} PartsInVertices(lines: seq<seq<Coord>>)
    ensures forall p :: p in PartsEndpoints(lines) ==> p in Vertices(MultiLineString(lines))
    decreases |lines|
  {
    if lines != [] {
      var init := lines[..|lines| - 1];
      PartsInVertices(init);
      forall p | p in PartsEndpoints(lines)
        ensures p in Vertices(MultiLineString(lines))
      {
        if p in PartsEndpoints(init) {
          var i :| 0 <= i < |init| && p in init[i];
          assert lines[i] == init[i];
        } else {
          assert p in Last(lines);
          assert lines[|lines| - 1] == Last(lines);
        }
      }
    }
  }

  /** The points of a multiline are those of its parts, concatenated in part order. */
  lemma {:induction false} MultiLinePointsConcatenate(a: seq<seq<Coord>>, b: seq<seq<Coord>>)
    ensures PointsFromGeometry(MultiLineString(a + b))
         == PointsFromGeometry(MultiLineString(a)) + PointsFromGeometry(MultiLineString(b))
    decreases |b|
  {
    if b == [] {
      assert a + b == a;
    } else {
      var b' := b[..|b| - 1];
      MultiLinePointsConcatenate(a, b');
      assert (a + b)[..|a + b| - 1] == a + b';
    }
  }

  // ---------------------------------------------------------------------
  // _collect_breakpoints
  // ---------------------------------------------------------------------

  /** Breakpoint sets indexed by line position. */
  type Table = seq<set<Coord>>

  function Endpoints(line: seq<Coord>): set<Coord> {
    if line == [] then {} else {line[0], Last(line)}
  }

  /** The points a pair's intersection contributes; a topology error contributes none. */
  function Shared(intersect: (nat, nat) -> Option<Geometry>, i: nat, j: nat): seq<Coord> {
    match intersect(i, j)
    case None => []
    case Some(g) => PointsFromGeometry(g)
  }

  /** The spatial index only ever proposes indices of existing lines. */
  predicate CandidatesInRange(n: nat, query: nat -> seq<nat>) {
    forall i, j :: 0 <= i < n && j in query(i) ==> j < n
  }

  /** Adds every point of `pts` to the sets of both lines `i` and `j`. */
  function AddShared(t: Table, i: nat, j: nat, pts: seq<Coord>): (r: Table)
    requires i < |t| && j < |t|
    ensures |r| == |t|
    ensures forall k :: 0 <= k < |t| ==>
      r[k] == t[k] + (if k == i || k == j then set p | p in pts else {})
    decreases |pts|
  {
    if pts == [] then t
    else
      var r0 := AddShared(t, i, j, pts[..|pts| - 1]);
      var p := Last(pts);
      assert forall q :: q in pts <==> q in pts[..|pts| - 1] || q == p by {
        assert pts == pts[..|pts| - 1] + [p];
      }
      var r1 := r0[i := r0[i] + {p}];
      r1[j := r1[j] + {p}]
  }

  /** The candidates of line `idx`, in query order, up to the given prefix. */
  function Row(t: Table, idx: nat, cands: seq<nat>, intersect: (nat, nat) -> Option<Geometry>): (r: Table)
    requires idx < |t|
    requires forall j :: j in cands ==> j < |t|
    ensures |r| == |t|
    decreases |cands|
  {
    if cands == [] then t
    else
      var init := cands[..|cands| - 1];
      assert forall j :: j in init ==> j in cands;
      var r0 := Row(t, idx, init, intersect);
      var j := Last(cands);
      assert j in cands;
      if j <= idx then r0 else AddShared(r0, idx, j, Shared(intersect, idx, j))
  }

  function Initial(geoms: seq<seq<Coord>>): (t: Table)
    ensures |t| == |geoms|
  {
    seq(|geoms|, k requires 0 <= k < |geoms| => Endpoints(geoms[k]))
  }

  /** The table after the intersection loop has handled lines `0 .. upto - 1`. */
  function Rows(geoms: seq<seq<Coord>>, query: nat -> seq<nat>,
                intersect: (nat, nat) -> Option<Geometry>, upto: nat): (t: Table)
    requires upto <= |geoms|
    requires CandidatesInRange(|geoms|, query)
    ensures |t| == |geoms|
    decreases upto
  {
    if upto == 0 then Initial(geoms)
    else Row(Rows(geoms, query, intersect, upto - 1), upto - 1, query(upto - 1), intersect)
  }

  /**
   * Point `p` reaches the set of line `k` through the pair (i, j): the pair
   * is examined from its lower index only, and `k` is one of its two lines.
   */
  predicate Contributes(query: nat -> seq<nat>, intersect: (nat, nat) -> Option<Geometry>,
                        i: nat, j: nat, k: nat, p: Coord) {
    j in query(i) && Via(intersect, i, j, k, p)
  }

  /** The pair (i, j), examined from `i`, puts `p` into the set of line `k`. */
  predicate Via(intersect: (nat, nat) -> Option<Geometry>, i: nat, j: nat, k: nat, p: Coord) {
    i < j && (k == i || k == j) && p in Shared(intersect, i, j)
  }

  /** Some candidate of `cands`, examined from `idx`, puts `p` into the set of line `k`. */
  predicate ViaAny(intersect: (nat, nat) -> Option<Geometry>, idx: nat, cands: seq<nat>, k: nat, p: Coord) {
    exists j :: j in cands && Via(intersect, idx, j, k, p)
  }

  lemma {:induction false} RowMembership(t: Table, idx: nat, cands: seq<nat>,
                                         intersect: (nat, nat) -> Option<Geometry>,
                                         k: nat, p: Coord)
    requires idx < |t| && k < |t|
    requires forall j :: j in cands ==> j < |t|
    ensures p in Row(t, idx, cands, intersect)[k] <==>
      p in t[k] || ViaAny(intersect, idx, cands, k, p)
    decreases |cands|
  {
    if cands != [] {
      var init := cands[..|cands| - 1];
      var last := Last(cands);
      assert forall j :: j in init ==> j in cands;
      RowMembership(t, idx, init, intersect, k, p);
      var r0 := Row(t, idx, init, intersect);
      assert p in Row(t, idx, cands, intersect)[k] <==> p in r0[k] || Via(intersect, idx, last, k, p);
      if ViaAny(intersect, idx, cands, k, p) {
        var j :| j in cands && Via(intersect, idx, j, k, p);
        InInitOrLast(cands, j);
      }
    }
  }

  /** An element of a non-empty sequence is in its prefix without the last element, or is that element. */
  lemma InInitOrLast<T>(s: seq<T>, x: T)
    requires s != [] && x in s
    ensures x in s[..|s| - 1] || x == Last(s)
  {
    assert s == s[..|s| - 1] + [Last(s)];
  }

  /**
   * The whole breakpoint table: a line's set holds its two endpoints and the
   * points of every examined intersection it takes part in, and nothing else.
   */
  lemma RowsMembership(geoms: seq<seq<Coord>>, query: nat -> seq<nat>,
                       intersect: (nat, nat) -> Option<Geometry>,
                       upto: nat, k: nat, p: Coord)
    requires upto <= |geoms| && k < |geoms|
    requires CandidatesInRange(|geoms|, query)
    ensures p in Rows(geoms, query, intersect, upto)[k] <==>
      p in Endpoints(geoms[k]) ||
      exists i, j :: 0 <= i < upto && Contributes(query, intersect, i, j, k, p)
  {
    if p in Rows(geoms, query, intersect, upto)[k] && p !in Endpoints(geoms[k]) {
      RowsSound(geoms, query, intersect, upto, k, p);
    }
    if p in Endpoints(geoms[k]) || exists i, j :: 0 <= i < upto && Contributes(query, intersect, i, j, k, p) {
      RowsComplete(geoms, query, intersect, upto, k, p);
    }
  }

  /** Some pair examined from line `i` puts `p` into the set of line `k`. */
  predicate Examined(query: nat -> seq<nat>, intersect: (nat, nat) -> Option<Geometry>,
                     i: nat, k: nat, p: Coord) {
    ViaAny(intersect, i, query(i), k, p)
  }

  /** One more line's candidate loop adds exactly the points of the pairs examined from it. */
  lemma RowsStep(geoms: seq<seq<Coord>>, query: nat -> seq<nat>,
                 intersect: (nat, nat) -> Option<Geometry>, upto: nat, k: nat, p: Coord)
    requires 0 < upto <= |geoms| && k < |geoms|
    requires CandidatesInRange(|geoms|, query)
    ensures p in Rows(geoms, query, intersect, upto)[k] <==>
      p in Rows(geoms, query, intersect, upto - 1)[k] || Examined(query, intersect, upto - 1, k, p)
  {
    var prev := Rows(geoms, query, intersect, upto - 1);
    CandidatesOf(|geoms|, query, upto - 1);
    RowMembership(prev, upto - 1, query(upto - 1), intersect, k, p);
  }

  /** The candidates proposed for an existing line are existing lines. */
  lemma CandidatesOf(n: nat, query: nat -> seq<nat>, i: nat)
    requires CandidatesInRange(n, query) && i < n
    ensures forall j :: j in query(i) ==> j < n
  {
  }

  /** A point in a line's set is an endpoint of it or comes from an examined pair. */
  lemma {:induction false} RowsSound(geoms: seq<seq<Coord>>, query: nat -> seq<nat>,
                                     intersect: (nat, nat) -> Option<Geometry>,
                                     upto: nat, k: nat, p: Coord)
    requires upto <= |geoms| && k < |geoms|
    requires CandidatesInRange(|geoms|, query)
    requires p in Rows(geoms, query, intersect, upto)[k] && p !in Endpoints(geoms[k])
    ensures exists i, j :: 0 <= i < upto && Contributes(query, intersect, i, j, k, p)
    decreases upto
  {
    RowsStep(geoms, query, intersect, upto, k, p);
    if p in Rows(geoms, query, intersect, upto - 1)[k] {
      RowsSound(geoms, query, intersect, upto - 1, k, p);
      var i, j :| 0 <= i < upto - 1 && Contributes(query, intersect, i, j, k, p);
      assert 0 <= i < upto && Contributes(query, intersect, i, j, k, p);
    } else {
      var j :| j in query(upto - 1) && Via(intersect, upto - 1, j, k, p);
      assert Contributes(query, intersect, upto - 1, j, k, p);
    }
  }

  /** Endpoints and the points of examined pairs are all in a line's set. */
  lemma {:induction false} RowsComplete(geoms: seq<seq<Coord>>, query: nat -> seq<nat>,
                                        intersect: (nat, nat) -> Option<Geometry>,
                                        upto: nat, k: nat, p: Coord)
    requires upto <= |geoms| && k < |geoms|
    requires CandidatesInRange(|geoms|, query)
    requires p in Endpoints(geoms[k]) || exists i, j :: 0 <= i < upto && Contributes(query, intersect, i, j, k, p)
    ensures p in Rows(geoms, query, intersect, upto)[k]
    decreases upto
  {
    if upto > 0 {
      if p in Endpoints(geoms[k]) || exists i, j :: 0 <= i < upto - 1 && Contributes(query, intersect, i, j, k, p) {
        RowsComplete(geoms, query, intersect, upto - 1, k, p);
      } else {
        var i, j :| 0 <= i < upto && Contributes(query, intersect, i, j, k, p);
        assert Examined(query, intersect, upto - 1, k, p) by {
          assert i == upto - 1;
          assert j in query(i) && Via(intersect, i, j, k, p);
        }
      }
      RowsStep(geoms, query, intersect, upto, k, p);
    }
  }

  /** Both ends of every line are among its breakpoints. */
  lemma EndpointsAreBreakpoints(geoms: seq<seq<Coord>>, query: nat -> seq<nat>,
                                intersect: (nat, nat) -> Option<Geometry>, k: nat)
    requires k < |geoms| && geoms[k] != []
    requires CandidatesInRange(|geoms|, query)
    ensures geoms[k][0] in Rows(geoms, query, intersect, |geoms|)[k]
    ensures Last(geoms[k]) in Rows(geoms, query, intersect, |geoms|)[k]
  {
    RowsMembership(geoms, query, intersect, |geoms|, k, geoms[k][0]);
    RowsMembership(geoms, query, intersect, |geoms|, k, Last(geoms[k]));
  }

  /** An intersection point of an examined pair is recorded for both lines. */
  lemma IntersectionsShared(geoms: seq<seq<Coord>>, query: nat -> seq<nat>,
                            intersect: (nat, nat) -> Option<Geometry>, i: nat, j: nat, p: Coord)
    requires CandidatesInRange(|geoms|, query)
    requires i < j < |geoms| && j in query(i) && p in Shared(intersect, i, j)
    ensures p in Rows(geoms, query, intersect, |geoms|)[i]
    ensures p in Rows(geoms, query, intersect, |geoms|)[j]
  {
    RowsMembership(geoms, query, intersect, |geoms|, i, p);
    RowsMembership(geoms, query, intersect, |geoms|, j, p);
    assert Contributes(query, intersect, i, j, i, p);
    assert Contributes(query, intersect, i, j, j, p);
  }

  /** The first loop of `_collect_breakpoints`: each line starts with its two endpoints. */
  method EndpointTable(geoms: seq<seq<Coord>>) returns (bp: Table)
    ensures bp == Initial(geoms)
  {
    bp := [];
    for idx := 0 to |geoms|
      invariant |bp| == idx
      invariant forall k :: 0 <= k < idx ==> bp[k] == Endpoints(geoms[k])
    {
      var ends: set<Coord> := {};
      if geoms[idx] != [] {
        ends := ends + {geoms[idx][0], Last(geoms[idx])};
      }
      bp := bp + [ends];
    }
  }

  /**
   * `_collect_breakpoints`: endpoints first, then for every line and every
   * candidate of higher index, the intersection points go to both lines.
   */
  method CollectBreakpoints(geoms: seq<seq<Coord>>, query: nat -> seq<nat>,
                            intersect: (nat, nat) -> Option<Geometry>)
    returns (bp: Table)
    requires CandidatesInRange(|geoms|, query)
    ensures bp == Rows(geoms, query, intersect, |geoms|)
  {
    bp := EndpointTable(geoms);
    for idx := 0 to |geoms|
      invariant bp == Rows(geoms, query, intersect, idx)
    {
      bp := ScanCandidates(bp, idx, query(idx), intersect);
    }
  }

  /** The candidate loop for one line: pairs with a lower or equal index are skipped. */
  method ScanCandidates(t: Table, idx: nat, cands: seq<nat>,
                        intersect: (nat, nat) -> Option<Geometry>)
    returns (bp: Table)
    requires idx < |t|
    requires forall j :: j in cands ==> j < |t|
    ensures bp == Row(t, idx, cands, intersect)
  {
    bp := t;
    for c := 0 to |cands|
      invariant forall j :: j in cands[..c] ==> j in cands
      invariant bp == Row(t, idx, cands[..c], intersect)
    {
      assert cands[..c + 1][..c] == cands[..c];
      assert forall j :: j in cands[..c + 1] ==> j in cands;
      var other := cands[c];
      if idx < other {
        var points: seq<Coord> := [];
        var inter := intersect(idx, other);
        if inter.Some? {
          points := PointsFromGeometry(inter.value);
        }
        assert other in cands;
        bp := AddPoints(bp, idx, other, points);
      }
    }
    assert cands[..|cands|] == cands;
  }

  /** Each intersection point is added to the sets of both lines of the pair. */
  method AddPoints(t: Table, i: nat, j: nat, points: seq<Coord>) returns (bp: Table)
    requires i < |t| && j < |t|
    ensures bp == AddShared(t, i, j, points)
  {
    bp := t;
    for m := 0 to |points|
      invariant bp == AddShared(t, i, j, points[..m])
    {
      assert points[..m + 1][..m] == points[..m];
      bp := bp[i := bp[i] + {points[m]}];
      bp := bp[j := bp[j] + {points[m]}];
    }
    assert points[..|points|] == points;
  }
}
