/**
 * `_segments_from_line` of tourin/graph/build_graph.py: breakpoints are
 * projected onto their line, ordered by distance along it, thinned so that
 * kept distances are more than `Tolerance` apart, completed with the two
 * terminal breakpoints and cut into one segment per consecutive pair.
 */
module Segments {
  import opened Geo
  import opened Breakpoints

  /** A line as the geometry library sees it; `project` and `substring` are its operations. */
  datatype LineGeom = LineGeom(
    coords: seq<Coord>,
    length: real,
    project: Coord -> real,
    substring: (real, real) -> seq<Coord>)

  /** What the model assumes of the library: a non-empty line, projections within its length. */
  ghost predicate ValidLine(line: LineGeom) {
    line.coords != [] && line.length >= 0.0 &&
    forall c :: 0.0 <= line.project(c) <= line.length
  }

  /** A breakpoint: its distance along the line and its coordinate. */
  datatype Breakpoint = Breakpoint(dist: real, at: Coord)

  /** A cut piece: its start and end breakpoint coordinates and its vertices. */
  datatype Segment = Segment(start: Coord, end: Coord, coords: seq<Coord>)

  function Projected(line: LineGeom, cs: seq<Coord>): (r: seq<Breakpoint>)
    ensures |r| == |cs|
    ensures forall i :: 0 <= i < |cs| ==> r[i] == Breakpoint(line.project(cs[i]), cs[i])
  {
    seq(|cs|, i requires 0 <= i < |cs| => Breakpoint(line.project(cs[i]), cs[i]))
  }

  // ---------------------------------------------------------------------
  // Ordering by distance (a stable sort)
  // ---------------------------------------------------------------------

  predicate SortedByDist(s: seq<Breakpoint>) {
    forall i, j :: 0 <= i < j < |s| ==> s[i].dist <= s[j].dist
  }

  /** Inserts `b` before the first element that is not closer, so equal keys keep their order. */
  function InsertByDist(b: Breakpoint, s: seq<Breakpoint>): (r: seq<Breakpoint>)
    requires SortedByDist(s)
    ensures |r| == |s| + 1
    ensures r[0] == b || (s != [] && r[0] == s[0])
    ensures SortedByDist(r)
    ensures multiset(r) == multiset(s) + multiset{b}
    decreases |s|
  {
    if s == [] || b.dist <= s[0].dist then
      [b] + s
    else
      var rest := InsertByDist(b, s[1..]);
      InsertBehind(b, s, rest);
      [s[0]] + rest
  }

  /** Putting a closer head in front of an insertion into the tail keeps the order and the elements. */
  lemma InsertBehind(b: Breakpoint, s: seq<Breakpoint>, rest: seq<Breakpoint>)
    requires s != [] && SortedByDist(s) && s[0].dist < b.dist
    requires SortedByDist(rest) && |rest| == |s|
    requires rest[0] == b || (|s| > 1 && rest[0] == s[1])
    requires multiset(rest) == multiset(s[1..]) + multiset{b}
    ensures SortedByDist([s[0]] + rest)
    ensures multiset([s[0]] + rest) == multiset(s) + multiset{b}
  {
    var r := [s[0]] + rest;
    assert s == [s[0]] + s[1..];
    forall i, j | 0 <= i < j < |r|
      ensures r[i].dist <= r[j].dist
    {
      assert r[j] == rest[j - 1];
      if i > 0 {
        assert r[i] == rest[i - 1];
      } else if j > 1 {
        assert rest[0].dist <= rest[j - 1].dist;
      }
    }
  }

  /** `ordered.sort(key=distance)`: sorted by distance, and a permutation of its input. */
  function SortByDist(s: seq<Breakpoint>): (r: seq<Breakpoint>)
    ensures SortedByDist(r)
    ensures multiset(r) == multiset(s)
    decreases |s|
  {
    if s == [] then []
    else
      assert s == [s[0]] + s[1..];
      InsertByDist(s[0], SortByDist(s[1..]))
  }

  // ---------------------------------------------------------------------
  // Trimming near-duplicates
  // ---------------------------------------------------------------------

  /**
   * The trimming loop, one input element at a time: an element is kept when
   * nothing is kept yet or it is more than `Tolerance` from the last kept one.
   */
  function Trimmed(s: seq<Breakpoint>): (r: seq<Breakpoint>)
    ensures r == [] <==> s == []
    ensures s != [] ==> r[0] == s[0]
    ensures forall x :: x in r ==> x in s
    decreases |s|
  {
    if s == [] then []
    else
      var t := Trimmed(s[..|s| - 1]);
      assert forall x :: x in s[..|s| - 1] ==> x in s;
      if t == [] || Abs(Last(s).dist - Last(t).dist) > Tolerance then t + [Last(s)] else t
  }

  /** Consecutive distances differ by more than `Tolerance`, increasing. */
  predicate Spaced(t: seq<Breakpoint>) {
    forall i :: 0 <= i < |t| - 1 ==> t[i + 1].dist - t[i].dist > Tolerance
  }

  /** Sorted input leaves kept distances strictly increasing with gaps above `Tolerance`. */
  lemma {:induction false} TrimmedSpaced(s: seq<Breakpoint>)
    requires SortedByDist(s)
    ensures Spaced(Trimmed(s))
    decreases |s|
  {
    if s != [] {
      var init := s[..|s| - 1];
      assert SortedByDist(init);
      TrimmedSpaced(init);
      var t := Trimmed(init);
      if t != [] && Abs(Last(s).dist - Last(t).dist) > Tolerance {
        assert Last(t) in init;
        var k :| 0 <= k < |init| && init[k] == Last(t);
        assert s[k] == Last(t);
        assert Last(t).dist <= Last(s).dist;
        var r := t + [Last(s)];
        forall i | 0 <= i < |r| - 1
          ensures r[i + 1].dist - r[i].dist > Tolerance
        {
          if i < |t| - 1 {
            assert r[i] == t[i] && r[i + 1] == t[i + 1];
          }
        }
      }
    }
  }

  /** Trimming only ever appends: what is kept from a prefix stays kept. */
  lemma {:induction false} TrimmedPrefix(s: seq<Breakpoint>, n: nat)
    requires n <= |s|
    ensures forall x :: x in Trimmed(s[..n]) ==> x in Trimmed(s)
    decreases |s| - n
  {
    if n < |s| {
      TrimmedPrefix(s, n + 1);
      var p := s[..n + 1];
      assert p[..|p| - 1] == s[..n];
    } else {
      assert s[..n] == s;
    }
  }

  /** Some kept breakpoint lies within `Tolerance` of `x`. */
  predicate Covered(x: Breakpoint, t: seq<Breakpoint>) {
    exists y :: y in t && Abs(x.dist - y.dist) <= Tolerance
  }

  /** Every dropped breakpoint lies within `Tolerance` of a kept one. */
  lemma {:induction false} TrimmedCovers(s: seq<Breakpoint>)
    ensures forall x :: x in s ==> Covered(x, Trimmed(s))
    decreases |s|
  {
    if s != [] {
      var init := s[..|s| - 1];
      TrimmedCovers(init);
      TrimmedPrefix(s, |s| - 1);
      var t := Trimmed(init);
      var r := Trimmed(s);
      assert s == init + [Last(s)];
      forall x | x in init
        ensures Covered(x, r)
      {
        var y :| y in t && Abs(x.dist - y.dist) <= Tolerance;
        assert y in r;
      }
      if t == [] || Abs(Last(s).dist - Last(t).dist) > Tolerance {
        assert Last(s) in r;
        assert Abs(Last(s).dist - Last(s).dist) <= Tolerance;
      } else {
        assert Last(t) in t;
        assert Last(t) in r;
      }
      assert Covered(Last(s), r);
    }
  }

  // ---------------------------------------------------------------------
  // Terminal breakpoints
  // ---------------------------------------------------------------------

  /** The start of the line at distance 0, in front unless the first breakpoint is within `Tolerance` of 0. */
  function WithStart(start: Coord, t: seq<Breakpoint>): (r: seq<Breakpoint>)
    requires t != []
    ensures |r| >= |t|
    ensures Abs(r[0].dist) <= Tolerance && Last(r) == Last(t)
    ensures Abs(t[0].dist) > Tolerance ==> r == [Breakpoint(0.0, start)] + t
    ensures |r| <= |t| + 1
    ensures Abs(t[0].dist) <= Tolerance ==> r == t
  {
    if Abs(t[0].dist) > Tolerance then [Breakpoint(0.0, start)] + t else t
  }

  /** The end of the line at its length, last unless the last breakpoint is within `Tolerance` of it. */
  function WithEnd(end: Coord, length: real, t: seq<Breakpoint>): (r: seq<Breakpoint>)
    requires t != []
    ensures |r| >= |t|
    ensures r[0] == t[0] && Abs(Last(r).dist - length) <= Tolerance
    ensures Abs(Last(t).dist - length) > Tolerance ==> r == t + [Breakpoint(length, end)]
    ensures |r| <= |t| + 1
    ensures Abs(Last(t).dist - length) <= Tolerance ==> r == t
  {
    if Abs(Last(t).dist - length) > Tolerance then t + [Breakpoint(length, end)] else t
  }

  /**
   * `_ensure_terminal_breakpoints`: the breakpoints, with the line's start in
   * front and its end last where they are not already within `Tolerance`;
   * a list already covering both ends is returned unchanged.
   */
  function WithTerminals(start: Coord, end: Coord, length: real, t: seq<Breakpoint>): (r: seq<Breakpoint>)
    requires t != []
    ensures |t| <= |r| <= |t| + 2
    ensures Abs(r[0].dist) <= Tolerance
    ensures Abs(Last(r).dist - length) <= Tolerance
    ensures Abs(t[0].dist) <= Tolerance && Abs(Last(t).dist - length) <= Tolerance ==> r == t
  {
    WithEnd(end, length, WithStart(start, t))
  }

  lemma WithStartSpaced(start: Coord, t: seq<Breakpoint>)
    requires t != [] && Spaced(t) && t[0].dist >= 0.0
    ensures Spaced(WithStart(start, t))
  {
    if Abs(t[0].dist) > Tolerance {
      var r := WithStart(start, t);
      forall i | 0 <= i < |r| - 1
        ensures r[i + 1].dist - r[i].dist > Tolerance
      {
        if i > 0 {
          assert r[i] == t[i - 1] && r[i + 1] == t[i];
        }
      }
    }
  }

  lemma WithEndSpaced(end: Coord, length: real, t: seq<Breakpoint>)
    requires t != [] && Spaced(t) && Last(t).dist <= length
    ensures Spaced(WithEnd(end, length, t))
  {
    if Abs(Last(t).dist - length) > Tolerance {
      var r := WithEnd(end, length, t);
      forall i | 0 <= i < |r| - 1
        ensures r[i + 1].dist - r[i].dist > Tolerance
      {
        if i < |t| - 1 {
          assert r[i] == t[i] && r[i + 1] == t[i + 1];
        }
      }
    }
  }

  /**
   * With every projection inside [0, length], the terminal breakpoints keep
   * the list spaced: gaps stay above `Tolerance`.
   */
  lemma WithTerminalsSpaced(start: Coord, end: Coord, length: real, t: seq<Breakpoint>)
    requires t != [] && Spaced(t)
    requires forall b :: b in t ==> 0.0 <= b.dist <= length
    ensures Spaced(WithTerminals(start, end, length, t))
  {
    assert t[0] in t && Last(t) in t;
    WithStartSpaced(start, t);
    WithEndSpaced(end, length, WithStart(start, t));
  }

  /** The terminal-breakpoint step, as the in-place insert and append of the builder. */
  method EnsureTerminalBreakpoints(line: LineGeom, trimmed: seq<Breakpoint>) returns (r: seq<Breakpoint>)
    requires line.coords != [] && trimmed != []
    ensures r == WithTerminals(line.coords[0], Last(line.coords), line.length, trimmed)
  {
    r := trimmed;
    if Abs(r[0].dist) > Tolerance {
      r := [Breakpoint(0.0, line.coords[0])] + r;
    }
    if Abs(Last(r).dist - line.length) > Tolerance {
      r := r + [Breakpoint(line.length, Last(line.coords))];
    }
  }

  // ---------------------------------------------------------------------
  // Cutting
  // ---------------------------------------------------------------------

  /**
   * The cut loop over consecutive breakpoint pairs: a pair within
   * `Tolerance` is skipped, and so is a substring with fewer than 2 vertices;
   * every segment comes from one pair, carries that pair's coordinates as its
   * ends and the line's substring between the pair's distances.
   */
  function Cut(sub: (real, real) -> seq<Coord>, ps: seq<(Breakpoint, Breakpoint)>): (segs: seq<Segment>)
    ensures |segs| <= |ps|
    ensures forall s :: s in segs ==>
      (|s.coords| >= 2 &&
       exists i :: 0 <= i < |ps| && ps[i].1.dist - ps[i].0.dist > Tolerance &&
         s == Segment(ps[i].0.at, ps[i].1.at, sub(ps[i].0.dist, ps[i].1.dist)))
    decreases |ps|
  {
    if ps == [] then []
    else
      var init := ps[..|ps| - 1];
      var segs := Cut(sub, init);
      assert forall i :: 0 <= i < |init| ==> init[i] == ps[i];
      var (a, b) := Last(ps);
      if b.dist - a.dist <= Tolerance then segs
      else
        var piece := sub(a.dist, b.dist);
        if piece == [] then segs
        else if |piece| >= 2 then segs + [Segment(a.at, b.at, piece)]
        else segs
  }

  /** The whole of `_segments_from_line`, as a function of the line and its breakpoint set order. */
  function Segments(line: LineGeom, cs: seq<Coord>): (segs: seq<Segment>)
    requires line.coords != []
    ensures forall s :: s in segs ==> |s.coords| >= 2
  {
    var trimmed := Trimmed(SortByDist(Projected(line, cs)));
    if trimmed == [] then []
    else Cut(line.substring, Pairs(WithTerminals(line.coords[0], Last(line.coords), line.length, trimmed)))
  }

  /**
   * No breakpoints, no segments; otherwise there are fewer segments than
   * breakpoints once the terminals are in.
   */
  lemma SegmentsShape(line: LineGeom, cs: seq<Coord>)
    requires line.coords != []
    ensures cs == [] ==> Segments(line, cs) == []
    ensures cs != [] ==>
      |Segments(line, cs)| < |WithTerminals(line.coords[0], Last(line.coords), line.length,
                                             Trimmed(SortByDist(Projected(line, cs))))|
  {
    if cs != [] {
      var p := Projected(line, cs);
      var sorted := SortByDist(p);
      assert |sorted| == |cs| by {
        assert |multiset(sorted)| == |multiset(p)|;
      }
    }
  }

  /**
   * For a valid line the kept breakpoints with their terminals are spaced, so
   * no consecutive pair is ever skipped for being too close.
   */
  lemma TerminalsSpacedForValidLine(line: LineGeom, cs: seq<Coord>)
    requires ValidLine(line) && cs != []
    ensures Spaced(WithTerminals(line.coords[0], Last(line.coords), line.length,
                                 Trimmed(SortByDist(Projected(line, cs)))))
  {
    var p := Projected(line, cs);
    var sorted := SortByDist(p);
    assert |sorted| == |cs| by {
      assert |multiset(sorted)| == |multiset(p)|;
    }
    TrimmedSpaced(sorted);
    var t := Trimmed(sorted);
    forall b | b in t
      ensures 0.0 <= b.dist <= line.length
    {
      assert b in sorted;
      assert b in multiset(p);
      var i :| 0 <= i < |p| && p[i] == b;
    }
    WithTerminalsSpaced(line.coords[0], Last(line.coords), line.length, t);
  }

  /**
   * `_segments_from_line`: project the breakpoints (in set iteration order,
   * `cs`), sort them by distance, trim near-duplicates, add the terminals and
   * cut at each consecutive pair.
   */
  method SegmentsFromLine(line: LineGeom, cs: seq<Coord>) returns (segs: seq<Segment>)
    requires line.coords != []
    ensures segs == Segments(line, cs)
  {
    var ordered := ProjectAll(line, cs);
    ordered := SortByDist(ordered);
    var trimmed := Trim(ordered);
    if trimmed == [] {
      return [];
    }
    trimmed := EnsureTerminalBreakpoints(line, trimmed);
    segs := CutAll(line.substring, trimmed);
  }

  /** The comprehension that projects each breakpoint onto the line. */
  method ProjectAll(line: LineGeom, cs: seq<Coord>) returns (ordered: seq<Breakpoint>)
    ensures ordered == Projected(line, cs)
  {
    ordered := [];
    for i := 0 to |cs|
      invariant ordered == Projected(line, cs[..i])
    {
      ordered := ordered + [Breakpoint(line.project(cs[i]), cs[i])];
    }
    assert cs[..|cs|] == cs;
  }

  /** The trimming loop: a breakpoint is kept when it is clear of the last one kept. */
  method Trim(ordered: seq<Breakpoint>) returns (trimmed: seq<Breakpoint>)
    ensures trimmed == Trimmed(ordered)
  {
    trimmed := [];
    for i := 0 to |ordered|
      invariant trimmed == Trimmed(ordered[..i])
    {
      TrimmedSnoc(ordered, i);
      if trimmed == [] || Abs(ordered[i].dist - Last(trimmed).dist) > Tolerance {
        trimmed := trimmed + [ordered[i]];
      }
    }
    assert ordered[..|ordered|] == ordered;
  }

  /** The cutting loop over consecutive breakpoint pairs. */
  method CutAll(sub: (real, real) -> seq<Coord>, breakpoints: seq<Breakpoint>) returns (segs: seq<Segment>)
    ensures segs == Cut(sub, Pairs(breakpoints))
  {
    segs := [];
    var pairs := Pairs(breakpoints);
    for i := 0 to |pairs|
      invariant segs == Cut(sub, pairs[..i])
    {
      CutSnoc(sub, pairs, i);
      var (a, b) := pairs[i];
      if b.dist - a.dist > Tolerance {
        var piece := sub(a.dist, b.dist);
        if piece != [] && |piece| >= 2 {
          segs := segs + [Segment(a.at, b.at, piece)];
        }
      }
    }
    assert pairs[..|pairs|] == pairs;
  }

  /** One more breakpoint is kept exactly when it is clear of the last one kept. */
  lemma TrimmedSnoc(s: seq<Breakpoint>, i: nat)
    requires i < |s|
    ensures var t := Trimmed(s[..i]);
      Trimmed(s[..i + 1]) == if t == [] || Abs(s[i].dist - Last(t).dist) > Tolerance then t + [s[i]] else t
  {
    assert s[..i + 1][..i] == s[..i];
  }

  /** One more pair adds its piece exactly when it is long enough to cut and gives two or more points. */
  lemma CutSnoc(sub: (real, real) -> seq<Coord>, ps: seq<(Breakpoint, Breakpoint)>, i: nat)
    requires i < |ps|
    ensures var (a, b) := ps[i];
      var piece := sub(a.dist, b.dist);
      Cut(sub, ps[..i + 1]) ==
        Cut(sub, ps[..i]) + (if b.dist - a.dist > Tolerance && piece != [] && |piece| >= 2
                             then [Segment(a.at, b.at, piece)] else [])
  {
    assert ps[..i + 1][..i] == ps[..i];
  }
}
