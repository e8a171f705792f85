/**
 * The standalone planner: snap the start and the destinations onto the
 * graph under the default distance guard, run the greedy leg loop from the
 * start's node through the destinations' nodes, and stitch the node path
 * into a polyline of (lon, lat) coordinates.
 */
module Tour {
  import opened Wrappers
  import opened Geo
  import opened MultiGraph
  import Snap
  import Search
  import Stitch

  datatype TourError =
    | NoDestinations                   // the ValueError raised before snapping
    | SnapFailed(error: Snap.SnapError)  // whatever snapping raised
    | NoRoute                          // the RuntimeError of a leg that found nothing

  /** The nodes of the snapped targets: every snapped node after the first. */
  function TargetNodes(snapped: seq<Snap.SnapResult>): (ts: seq<NodeId>)
    requires snapped != []
    ensures |ts| == |snapped| - 1
    ensures forall i :: 0 <= i < |ts| ==> ts[i] == snapped[i + 1].node
  {
    seq(|snapped| - 1, i requires 0 <= i < |snapped| - 1 => snapped[i + 1].node)
  }

  /**
   * `path` is the stitched path of a greedy tour (`legs`) from the first
   * snapped node that reaches each distinct node of the others once.
   */
  ghost predicate TourOf(gs: GraphState, gc: Metric, snapped: seq<Snap.SnapResult>, path: seq<Coord>,
                         legs: seq<Search.UcsResult>)
    requires WellFormed(gs) && |snapped| >= 2
  {
    var start := snapped[0].node;
    var targets := set t | t in TargetNodes(snapped);
    targets != {} &&
    Search.Reached(legs) == targets && |legs| == |targets| &&
    Search.Greedy(gs, gc, start, targets, legs) &&
    Stitch.NodePositions(gs, Search.Joined(start, legs)) &&
    path == Stitch.Stitched(gs, Search.Joined(start, legs))
  }

  /**
   * The leg loop and the stitching after snapping: the start node is the
   * first snapped node and the pending targets the others; None when a
   * leg finds no pending target, and then the tour is stuck.
   */
  method TourThrough(gs: GraphState, gc: Metric, snapped: seq<Snap.SnapResult>)
    returns (r: Option<seq<Coord>>, ghost legs: seq<Search.UcsResult>)
    requires WellFormed(gs) && NonNegativeLengths(gs) && |snapped| >= 2 && snapped[0].node in gs.nodes
    ensures r.Some? ==> TourOf(gs, gc, snapped, r.value, legs)
    ensures r.None? ==> Search.Stuck(gs, gc, snapped[0].node, (set t | t in TargetNodes(snapped)), legs)
  {
    var startNode := snapped[0].node;
    var targetNodes := TargetNodes(snapped);
    ghost var targets := set t | t in targetNodes;
    assert targetNodes[0] in targets;
    var planned;
    planned, legs := Search.Plan(gs, gc, startNode, targetNodes);
    if planned.Err? {
      return None, legs;
    }
    Search.TourInGraph(gs, gc, startNode, targets, legs);
    var stitched := Stitch.StitchPath(gs, planned.value);
    r := Some(stitched);
    assert targets != {};
  }

  /** Every snapped destination's node lies on a tour's node path. */
  lemma TourVisitsTargets(gs: GraphState, gc: Metric, snapped: seq<Snap.SnapResult>, path: seq<Coord>,
                          legs: seq<Search.UcsResult>)
    requires WellFormed(gs) && |snapped| >= 2 && TourOf(gs, gc, snapped, path, legs)
    ensures forall i :: 1 <= i < |snapped| ==> snapped[i].node in Search.Joined(snapped[0].node, legs)
  {
    var targets := set t | t in TargetNodes(snapped);
    Search.TourVisits(gs, gc, snapped[0].node, targets, legs);
    forall i | 1 <= i < |snapped|
      ensures snapped[i].node in Search.Joined(snapped[0].node, legs)
    {
      assert TargetNodes(snapped)[i - 1] == snapped[i].node;
    }
  }

  /** Snapping the start and the destinations, in that order, under the default guard. */
  function SnapRun(gs: GraphState, o: Snap.Oracles, start: Coord, destinations: seq<Coord>): (out: Snap.Outcome)
    requires WellFormed(gs)
    ensures WellFormed(out.state)
  {
    Snap.Snapped(gs, o, [start] + destinations, Some(Snap.SnapMaxDistance), false)
  }

  /**
   * How the planner ends after snapping: a snapping error is passed on; a
   * snapped run ends in a tour, or in `NoRoute` when the tour is stuck.
   */
  ghost predicate Toured(out: Snap.Outcome, gc: Metric, r: Result<seq<Coord>, TourError>, legs: seq<Search.UcsResult>)
    requires WellFormed(out.state)
  {
    (out.result.Err? ==> r == Err(SnapFailed(out.result.error))) &&
    (out.result.Ok? ==> |out.result.value| >= 2) &&
    (out.result.Ok? && r.Ok? ==> TourOf(out.state, gc, out.result.value, r.value, legs)) &&
    (out.result.Ok? && r.Err? ==>
      (r == Err(NoRoute) &&
       Search.Stuck(out.state, gc, out.result.value[0].node, (set t | t in TargetNodes(out.result.value)), legs)))
  }

  /**
   * `plan`: no destinations is refused before the graph is touched;
   * otherwise the start and the destinations are snapped in that order with
   * the default guard, and a snapped run is toured as `TourThrough` says.
   */
  method Plan(g: Graph, o: Snap.Oracles, start: Coord, destinations: seq<Coord>)
    returns (r: Result<seq<Coord>, TourError>, ghost legs: seq<Search.UcsResult>)
    requires WellFormed(g.State()) && NonNegativeLengths(g.State())
    modifies g
    ensures destinations == [] ==> r == Err(NoDestinations) && g.State() == old(g.State())
    ensures destinations != [] ==> g.State() == SnapRun(old(g.State()), o, start, destinations).state
    ensures destinations != [] ==> Toured(SnapRun(old(g.State()), o, start, destinations), o.greatCircle, r, legs)
  {
    legs := [];
    if destinations == [] {
      return Err(NoDestinations), legs;
    }
    ghost var initial := g.State();
    var coords := [start] + destinations;
    Snap.SnappedResults(initial, o, coords, Some(Snap.SnapMaxDistance), false);
    Snap.SnappedNonNegative(initial, o, coords, Some(Snap.SnapMaxDistance), false);
    var snapped := Snap.SnapCoords(g, o, coords, Some(Snap.SnapMaxDistance));
    if snapped.Err? {
      return Err(SnapFailed(snapped.error)), legs;
    }
    var toured;
    toured, legs := TourThrough(g.State(), o.greatCircle, snapped.value);
    if toured.None? {
      return Err(NoRoute), legs;
    }
    r := Ok(toured.value);
  }
}
