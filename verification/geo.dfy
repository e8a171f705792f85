/**
 * Shared geometry vocabulary of the routing core: coordinates, the squared
 * planar distance used for tie-breaks, geodesic distance functions (supplied
 * by the caller, never computed here), polyline length, consecutive pairs and
 * the closed set of geometry shapes the core dispatches on.
 */
module Geo {

  /** A coordinate is always (longitude, latitude), in that order. */
  datatype Coord = Coord(lon: real, lat: real)

  /**
   * A distance function on coordinates: the WGS 84 inverse of pyproj or the
   * osmnx great-circle formula. Only its non-negativity is assumed.
   */
  type Metric = d: (Coord, Coord) -> real | forall a, b :: d(a, b) >= 0.0
    witness (a: Coord, b: Coord) => 0.0

  function Abs(x: real): (r: real)
    ensures r >= 0.0 && (r == x || r == -x)
  {
    if x < 0.0 then -x else x
  }

  /** Squared Euclidean distance in degrees: the cheap proxy for tie-breaks. */
  function SquaredDistance(a: Coord, b: Coord): (r: real)
    ensures r >= 0.0
    ensures a == b ==> r == 0.0
  {
    var dx := a.lon - b.lon;
    var dy := a.lat - b.lat;
    SquareNonNegative(dx);
    SquareNonNegative(dy);
    dx * dx + dy * dy
  }

  lemma SquareNonNegative(x: real)
    ensures x * x >= 0.0
  {
    if x < 0.0 {
      assert (-x) * (-x) > 0.0;
      assert x * x == (-x) * (-x);
    }
  }

  function Last<T>(s: seq<T>): T
    requires |s| > 0
  {
    s[|s| - 1]
  }

  /** Consecutive pairs of a sequence, as `itertools.pairwise` yields them. */
  function Pairs<T>(s: seq<T>): (r: seq<(T, T)>)
    ensures |r| == if |s| == 0 then 0 else |s| - 1
    ensures forall i :: 0 <= i < |r| ==> r[i] == (s[i], s[i + 1])
    decreases |s|
  {
    if |s| < 2 then [] else [(s[0], s[1])] + Pairs(s[1..])
  }

  function Reverse<T>(s: seq<T>): (r: seq<T>)
    ensures |r| == |s|
    ensures forall i :: 0 <= i < |s| ==> r[i] == s[|s| - 1 - i]
    decreases |s|
  {
    if s == [] then [] else Reverse(s[1..]) + [s[0]]
  }

  /** Sum of the distances of the consecutive vertex pairs of a polyline. */
  function PathLength(d: Metric, cs: seq<Coord>): (r: real)
    ensures r >= 0.0
    decreases |cs|
  {
    if |cs| <= 1 then 0.0 else PathLength(d, cs[..|cs| - 1]) + d(cs[|cs| - 2], cs[|cs| - 1])
  }

  /**
   * The length of a polyline is the length up to any vertex plus the length
   * from that vertex on: cutting a polyline at a vertex conserves length.
   */
  lemma {:induction false} PathLengthSplit(d: Metric, cs: seq<Coord>, k: nat)
    requires k < |cs|
    ensures PathLength(d, cs) == PathLength(d, cs[..k + 1]) + PathLength(d, cs[k..])
    decreases |cs|
  {
    if k == |cs| - 1 {
      assert cs[..k + 1] == cs;
    } else {
      var init := cs[..|cs| - 1];
      PathLengthSplit(d, init, k);
      assert init[..k + 1] == cs[..k + 1];
      var tail := cs[k..];
      assert tail[..|tail| - 1] == init[k..];
      assert tail[|tail| - 2] == cs[|cs| - 2] && tail[|tail| - 1] == cs[|cs| - 1];
    }
  }

  /**
   * The accumulator loop of `_geodesic_length` (graph construction, with the
   * WGS 84 inverse as `d`) and of `_linestring_length` (snapping, with the
   * great-circle formula as `d`).
   */
  method SumOfLegs(cs: seq<Coord>, d: Metric) returns (total: real)
    ensures total == PathLength(d, cs)
  {
    total := 0.0;
    var pairs := Pairs(cs);
    for i := 0 to |pairs|
      invariant |cs| == 0 ==> total == 0.0
      invariant |cs| > 0 ==> total == PathLength(d, cs[..i + 1])
    {
      var (a, b) := pairs[i];
      assert cs[..i + 2][..i + 1] == cs[..i + 1];
      total := total + d(a, b);
    }
    assert |cs| > 0 ==> cs[..|pairs| + 1] == cs;
  }

  /**
   * The shapely geometry kinds the core dispatches on, as a closed variant.
   * An empty geometry is a variant with no coordinates.
   */
  datatype Geometry =
    | Point(at: Coord)
    | MultiPoint(points: seq<Coord>)
    | LineString(coords: seq<Coord>)
    | LinearRing(ring: seq<Coord>)
    | MultiLineString(lines: seq<seq<Coord>>)
    | GeometryCollection(parts: seq<Geometry>)
}
