/**
 * Multi-destination uniform-cost search. A leg is a Dijkstra search from the
 * current node to the cheapest pending target, with a frontier of
 * (cost, node, path) entries and a best-cost table that lets stale entries be
 * skipped; the planner reruns legs from the last reached target until no
 * target is pending. The cost of a step is the `length` of the preferred
 * parallel edge, or the great-circle distance between the two nodes when
 * that edge has no `length`.
 */
module Search {
  import opened Wrappers
  import opened Geo
  import opened MultiGraph
  import opened Stitch

  /** Both ends of a step are nodes. */
  lemma AdjacentInGraph(gs: GraphState, u: NodeId, v: NodeId)
    requires WellFormed(gs) && Adjacent(gs, u, v)
    ensures u in gs.nodes && v in gs.nodes
  {
    var e :| e in gs.edges && Joins(e, u, v);
  }

  /**
   * `_edge_travel_cost`: infinite exactly when no edge joins `u` and `v`;
   * otherwise the preferred edge's `length`, or the great-circle distance
   * between the two node positions when it has none.
   */
  function EdgeTravelCost(gs: GraphState, gc: Metric, u: NodeId, v: NodeId): (r: ExtReal)
    requires WellFormed(gs)
    ensures r.PosInf? <==> !Adjacent(gs, u, v)
    ensures r.Fin? && PreferredEdge(gs, u, v).value.length.Some? ==>
      r.r == PreferredEdge(gs, u, v).value.length.value
    ensures r.Fin? && PreferredEdge(gs, u, v).value.length.None? ==>
      u in gs.nodes && v in gs.nodes && r.r == gc(Position(gs, u), Position(gs, v))
  {
    var candidate := PreferredEdge(gs, u, v);
    if candidate.None? then PosInf
    else if candidate.value.length.Some? then Fin(candidate.value.length.value)
    else
      AdjacentInGraph(gs, u, v);
      Fin(gc(Position(gs, u), Position(gs, v)))
  }

  /** With non-negative lengths every finite step cost is non-negative. */
  lemma StepNonNegative(gs: GraphState, gc: Metric, u: NodeId, v: NodeId)
    requires WellFormed(gs) && NonNegativeLengths(gs)
    ensures EdgeTravelCost(gs, gc, u, v).Fin? ==> EdgeTravelCost(gs, gc, u, v).r >= 0.0
  {
    var candidate := PreferredEdge(gs, u, v);
    if candidate.Some? && candidate.value.length.Some? {
      var e :| e in gs.edges && Joins(e, u, v) && e.attrs == candidate.value;
    }
  }

  /** The cost of a walk: the sum of its step costs, infinite if some step has no edge. */
  function Cost(gs: GraphState, gc: Metric, w: seq<NodeId>): ExtReal
    requires WellFormed(gs)
    decreases |w|
  {
    if |w| <= 1 then Fin(0.0)
    else Cost(gs, gc, w[..|w| - 1]).Add(EdgeTravelCost(gs, gc, w[|w| - 2], w[|w| - 1]))
  }

  /** A walk of finite cost moves between adjacent nodes only. */
  lemma {:induction false} FiniteCostAdjacent(gs: GraphState, gc: Metric, w: seq<NodeId>)
    requires WellFormed(gs) && Cost(gs, gc, w).Fin?
    ensures forall i :: 0 <= i < |w| - 1 ==> Adjacent(gs, w[i], w[i + 1])
    decreases |w|
  {
    if |w| > 1 {
      var init := w[..|w| - 1];
      LastStepFinite(gs, gc, w);
      FiniteCostAdjacent(gs, gc, init);
      forall i | 0 <= i < |w| - 2
        ensures Adjacent(gs, w[i], w[i + 1])
      {
        assert init[i] == w[i] && init[i + 1] == w[i + 1];
      }
    }
  }

  /** A walk of finite cost has a prefix of finite cost and a last step along an edge. */
  lemma LastStepFinite(gs: GraphState, gc: Metric, w: seq<NodeId>)
    requires WellFormed(gs) && |w| > 1 && Cost(gs, gc, w).Fin?
    ensures Cost(gs, gc, w[..|w| - 1]).Fin? && Adjacent(gs, w[|w| - 2], w[|w| - 1])
  {
    assert EdgeTravelCost(gs, gc, w[|w| - 2], w[|w| - 1]).Fin?;
  }

  /** With non-negative lengths a prefix of a finite walk costs no more than the walk. */
  lemma {:induction false} PrefixCost(gs: GraphState, gc: Metric, w: seq<NodeId>, k: nat)
    requires WellFormed(gs) && NonNegativeLengths(gs)
    requires k < |w| && Cost(gs, gc, w).Fin?
    ensures Cost(gs, gc, w[..k + 1]).Fin? && Cost(gs, gc, w[..k + 1]).r <= Cost(gs, gc, w).r
    decreases |w|
  {
    if k + 1 < |w| {
      var init := w[..|w| - 1];
      assert Cost(gs, gc, init).Fin? && Cost(gs, gc, init).r <= Cost(gs, gc, w).r by {
        LastStepBound(gs, gc, w);
      }
      assert init[..k + 1] == w[..k + 1];
      PrefixCost(gs, gc, init, k);
    } else {
      assert w[..k + 1] == w;
    }
  }

  /** Dropping the last step of a finite walk cannot raise its cost. */
  lemma LastStepBound(gs: GraphState, gc: Metric, w: seq<NodeId>)
    requires WellFormed(gs) && NonNegativeLengths(gs) && |w| > 1 && Cost(gs, gc, w).Fin?
    ensures Cost(gs, gc, w[..|w| - 1]).Fin? && Cost(gs, gc, w[..|w| - 1]).r <= Cost(gs, gc, w).r
  {
    LastStepFinite(gs, gc, w);
    StepNonNegative(gs, gc, w[|w| - 2], w[|w| - 1]);
  }

  /** A walk leading from `source` into `targets`. */
  predicate Leads(w: seq<NodeId>, source: NodeId, targets: set<NodeId>) {
    w != [] && w[0] == source && Last(w) in targets
  }

  /** A frontier entry: its cost, its node and the path that reached it. */
  datatype Entry = Entry(cost: real, node: NodeId, path: seq<NodeId>)

  datatype UcsResult = UcsResult(target: NodeId, path: seq<NodeId>, cost: real)

  /** `path` leads from `source` to `node` and costs `cost`. */
  ghost predicate Reaches(gs: GraphState, gc: Metric, source: NodeId, e: Entry)
    requires WellFormed(gs)
  {
    e.path != [] && e.path[0] == source && Last(e.path) == e.node && Cost(gs, gc, e.path) == Fin(e.cost)
  }

  /** The best-known cost of `m` is within one step of the best-known cost of `s`. */
  ghost predicate Relaxed(gs: GraphState, gc: Metric, best: map<NodeId, real>, s: NodeId, m: NodeId)
    requires WellFormed(gs) && s in best
  {
    var step := EdgeTravelCost(gs, gc, s, m);
    step.Fin? ==> m in best && best[m] <= best[s] + step.r
  }

  /** The source is known at cost at most 0; known nodes are graph nodes; settled nodes are known non-targets. */
  ghost predicate Known(gs: GraphState, source: NodeId, targets: set<NodeId>,
                        best: map<NodeId, real>, settled: set<NodeId>)
  {
    source in best && best[source] <= 0.0 && best.Keys <= gs.nodes.Keys &&
    settled <= best.Keys && settled !! targets
  }

  /** Every frontier entry is a walk from the source to its known node, at no less than its best cost. */
  ghost predicate EntriesReach(gs: GraphState, gc: Metric, source: NodeId, frontier: set<Entry>,
                               best: map<NodeId, real>)
    requires WellFormed(gs)
  {
    forall e :: e in frontier ==> e.node in best && best[e.node] <= e.cost && Reaches(gs, gc, source, e)
  }

  /** Every known node that is not settled has a frontier entry at its best cost. */
  ghost predicate Witnessed(frontier: set<Entry>, best: map<NodeId, real>, settled: set<NodeId>) {
    forall m :: m in best && m !in settled ==> exists e :: e in frontier && e.node == m && e.cost == best[m]
  }

  /** Settled nodes are relaxed towards every neighbour, except the neighbours of `n` still in `todo`. */
  ghost predicate AllRelaxed(gs: GraphState, gc: Metric, best: map<NodeId, real>, settled: set<NodeId>,
                             n: NodeId, todo: set<NodeId>)
    requires WellFormed(gs) && settled <= best.Keys
  {
    forall s, m :: s in settled && (s == n ==> m !in todo) ==> Relaxed(gs, gc, best, s, m)
  }

  /** Settled costs never exceed a frontier cost, and strictly undercut the entries of their own node. */
  ghost predicate SettledFirst(frontier: set<Entry>, best: map<NodeId, real>, settled: set<NodeId>)
    requires settled <= best.Keys
  {
    (forall s, e :: s in settled && e in frontier ==> best[s] <= e.cost) &&
    (forall s, e :: s in settled && e in frontier && e.node == s ==> best[s] < e.cost)
  }

  /** No two frontier entries share both node and cost. */
  ghost predicate DistinctEntries(frontier: set<Entry>) {
    forall e1, e2 :: e1 in frontier && e2 in frontier && e1.node == e2.node && e1.cost == e2.cost ==> e1 == e2
  }

  /**
   * The search invariant: the conjunction above, for a state where `n` is
   * being expanded with its neighbours in `todo` still to relax (`todo` is
   * empty between expansions).
   */
  ghost predicate Inv(gs: GraphState, gc: Metric, source: NodeId, targets: set<NodeId>,
                      frontier: set<Entry>, best: map<NodeId, real>, settled: set<NodeId>,
                      n: NodeId, todo: set<NodeId>)
  {
    WellFormed(gs) && NonNegativeLengths(gs) && Known(gs, source, targets, best, settled) &&
    EntriesReach(gs, gc, source, frontier, best) && Witnessed(frontier, best, settled) &&
    AllRelaxed(gs, gc, best, settled, n, todo) && SettledFirst(frontier, best, settled) &&
    DistinctEntries(frontier)
  }

  /** While `cur` is expanded: its node is settled at its entry's cost, the largest settled cost. */
  ghost predicate Expanding(gs: GraphState, gc: Metric, source: NodeId, best: map<NodeId, real>,
                            settled: set<NodeId>, cur: Entry)
    requires WellFormed(gs)
  {
    cur.node in settled && cur.node in best && best[cur.node] == cur.cost &&
    Reaches(gs, gc, source, cur) &&
    forall s :: s in settled && s in best ==> best[s] <= cur.cost
  }

  /** The best-known cost of each node along a walk through settled nodes bounds the walk's cost. */
  lemma {:induction false} SettledPrefix(gs: GraphState, gc: Metric, source: NodeId, best: map<NodeId, real>,
                                         w: seq<NodeId>, k: nat)
    requires WellFormed(gs) && source in best && best[source] <= 0.0
    requires k < |w| && w[0] == source
    requires forall j :: 0 <= j < k ==> w[j] in best && Relaxed(gs, gc, best, w[j], w[j + 1])
    requires Cost(gs, gc, w[..k + 1]).Fin?
    ensures w[k] in best && best[w[k]] <= Cost(gs, gc, w[..k + 1]).r
  {
    if k > 0 {
      PrefixStep(gs, gc, w, k);
      SettledPrefix(gs, gc, source, best, w, k - 1);
    }
  }

  /** The prefix of a walk up to node `k` is the prefix up to node `k - 1` and one more step. */
  lemma PrefixStep(gs: GraphState, gc: Metric, w: seq<NodeId>, k: nat)
    requires WellFormed(gs) && 0 < k < |w|
    ensures Cost(gs, gc, w[..k + 1]) == Cost(gs, gc, w[..k]).Add(EdgeTravelCost(gs, gc, w[k - 1], w[k]))
  {
    var pre := w[..k + 1];
    assert pre[..|pre| - 1] == w[..k];
    assert pre[|pre| - 2] == w[k - 1] && pre[|pre| - 1] == w[k];
  }

  /**
   * Any walk from the source to a node that is not settled, of finite cost
   * C, meets the frontier: some entry costs at most C.
   */
  lemma FrontierMeetsWalk(gs: GraphState, gc: Metric, source: NodeId, targets: set<NodeId>,
                          frontier: set<Entry>, best: map<NodeId, real>, settled: set<NodeId>,
                          n: NodeId, w: seq<NodeId>)
    requires Inv(gs, gc, source, targets, frontier, best, settled, n, {})
    requires w != [] && w[0] == source && Last(w) !in settled && Cost(gs, gc, w).Fin?
    ensures exists e :: e in frontier && e.cost <= Cost(gs, gc, w).r
  {
    var i := FirstUnsettled(w, settled);
    PrefixCost(gs, gc, w, i);
    assert forall j :: 0 <= j < i ==> w[j] in best && Relaxed(gs, gc, best, w[j], w[j + 1]);
    SettledPrefix(gs, gc, source, best, w, i);
    var e :| e in frontier && e.node == w[i] && e.cost == best[w[i]];
  }

  function FirstUnsettled(w: seq<NodeId>, settled: set<NodeId>): (i: nat)
    requires w != [] && Last(w) !in settled
    ensures i < |w| && w[i] !in settled
    ensures forall j :: 0 <= j < i ==> w[j] in settled
    decreases |w|
  {
    if w[0] !in settled then 0 else 1 + FirstUnsettled(w[1..], settled)
  }

  /** A finite non-empty frontier has an entry of least cost. */
  lemma {:induction false} LeastEntry(frontier: set<Entry>)
    requires frontier != {}
    ensures exists e :: e in frontier && forall o :: o in frontier ==> e.cost <= o.cost
    decreases |frontier|
  {
    var x :| x in frontier;
    if frontier != {x} {
      LeastEntry(frontier - {x});
      var y :| y in frontier - {x} && forall o :: o in frontier - {x} ==> y.cost <= o.cost;
      if x.cost < y.cost {
        assert forall o :: o in frontier ==> x.cost <= o.cost;
      } else {
        assert forall o :: o in frontier ==> y.cost <= o.cost;
      }
    }
  }

  /**
   * The answer of a leg: the target reached, a walk to it from the source
   * and its cost.
   */
  ghost predicate Found(gs: GraphState, gc: Metric, source: NodeId, targets: set<NodeId>, r: UcsResult)
    requires WellFormed(gs)
  {
    r.target in targets && r.target in gs.nodes &&
    r.path != [] && r.path[0] == source && Last(r.path) == r.target &&
    Cost(gs, gc, r.path) == Fin(r.cost)
  }

  /** The answer of a leg is a cheapest walk from the source to any target. */
  ghost predicate Closest(gs: GraphState, gc: Metric, source: NodeId, targets: set<NodeId>, r: UcsResult)
    requires WellFormed(gs)
  {
    Found(gs, gc, source, targets, r) &&
    forall w :: Leads(w, source, targets) && Cost(gs, gc, w).Fin? ==> r.cost <= Cost(gs, gc, w).r
  }

  /**
   * `_ucs`: the first popped entry whose node is a target is returned, and
   * with non-negative lengths it is a cheapest walk to any target; None
   * means no target is reachable at finite cost. A source that is itself a
   * target is returned at once with cost 0.
   */
  method Ucs(gs: GraphState, gc: Metric, source: NodeId, targets: set<NodeId>)
    returns (r: Option<UcsResult>)
    requires WellFormed(gs) && NonNegativeLengths(gs) && source in gs.nodes
    ensures source in targets ==> r == Some(UcsResult(source, [source], 0.0))
    ensures r.Some? ==> Closest(gs, gc, source, targets, r.value)
    ensures r.None? ==> forall w :: Leads(w, source, targets) ==> Cost(gs, gc, w).PosInf?
  {
    var start := Entry(0.0, source, [source]);
    var frontier := {start};
    var best := map[source := 0.0];
    ghost var settled: set<NodeId> := {};
    StartInv(gs, gc, source, targets);
    while frontier != {}
      invariant Inv(gs, gc, source, targets, frontier, best, settled, source, {})
      invariant source in targets ==> frontier == {start}
      decreases gs.nodes.Keys - settled, |frontier|
    {
      LeastEntry(frontier);
      var e :| e in frontier && forall o :: o in frontier ==> e.cost <= o.cost;
      if e.node in targets {
        PoppedTargetClosest(gs, gc, source, targets, frontier, best, settled, e);
        return Some(UcsResult(e.node, e.path, e.cost));
      }
      frontier, best, settled := Pop(gs, gc, source, targets, frontier, best, settled, e);
    }
    ExhaustedUnreachable(gs, gc, source, targets, best, settled);
    r := None;
  }

  /**
   * One pass of the `_ucs` loop after a least-cost entry `e` that is not a
   * target is popped: a stale entry is dropped, otherwise its node is
   * settled and its neighbours are relaxed. Either fewer nodes are left
   * unsettled, or as many with a smaller frontier.
   */
  method Pop(gs: GraphState, gc: Metric, source: NodeId, targets: set<NodeId>,
             frontier0: set<Entry>, best0: map<NodeId, real>, ghost settled0: set<NodeId>, e: Entry)
    returns (frontier: set<Entry>, best: map<NodeId, real>, ghost settled: set<NodeId>)
    requires Inv(gs, gc, source, targets, frontier0, best0, settled0, source, {})
    requires e in frontier0 && e.node !in targets
    requires forall o :: o in frontier0 ==> e.cost <= o.cost
    ensures Inv(gs, gc, source, targets, frontier, best, settled, source, {})
    ensures (settled == settled0 && |frontier| < |frontier0|) ||
            gs.nodes.Keys - settled < gs.nodes.Keys - settled0
  {
    if e.node in best0 && e.cost > best0[e.node] {
      SkipStale(gs, gc, source, targets, frontier0, best0, settled0, e);
      frontier, best, settled := frontier0 - {e}, best0, settled0;
    } else {
      Settle(gs, gc, source, targets, frontier0, best0, settled0, e);
      settled := settled0 + {e.node};
      frontier, best := Expand(gs, gc, source, targets, frontier0 - {e}, best0, settled, e);
    }
  }

  /** The search starts from the source alone, at cost 0, with nothing settled. */
  lemma StartInv(gs: GraphState, gc: Metric, source: NodeId, targets: set<NodeId>)
    requires WellFormed(gs) && NonNegativeLengths(gs) && source in gs.nodes
    ensures Inv(gs, gc, source, targets, {Entry(0.0, source, [source])}, map[source := 0.0], {}, source, {})
  {
    assert Reaches(gs, gc, source, Entry(0.0, source, [source]));
  }

  /** A least-cost frontier entry at a target is a cheapest walk to any target. */
  lemma PoppedTargetClosest(gs: GraphState, gc: Metric, source: NodeId, targets: set<NodeId>,
                            frontier: set<Entry>, best: map<NodeId, real>, settled: set<NodeId>, e: Entry)
    requires Inv(gs, gc, source, targets, frontier, best, settled, source, {})
    requires e in frontier && e.node in targets
    requires forall o :: o in frontier ==> e.cost <= o.cost
    ensures Closest(gs, gc, source, targets, UcsResult(e.node, e.path, e.cost))
  {
    forall w | Leads(w, source, targets) && Cost(gs, gc, w).Fin?
      ensures e.cost <= Cost(gs, gc, w).r
    {
      FrontierMeetsWalk(gs, gc, source, targets, frontier, best, settled, source, w);
    }
  }

  /** Once the frontier is empty, no target is reachable at finite cost. */
  lemma ExhaustedUnreachable(gs: GraphState, gc: Metric, source: NodeId, targets: set<NodeId>,
                             best: map<NodeId, real>, settled: set<NodeId>)
    requires Inv(gs, gc, source, targets, {}, best, settled, source, {})
    ensures forall w :: Leads(w, source, targets) ==> Cost(gs, gc, w).PosInf?
  {
    forall w | Leads(w, source, targets)
      ensures Cost(gs, gc, w).PosInf?
    {
      if Cost(gs, gc, w).Fin? {
        FrontierMeetsWalk(gs, gc, source, targets, {}, best, settled, source, w);
      }
    }
  }

  /** Dropping an entry that costs more than its node's best cost keeps the invariant. */
  lemma SkipStale(gs: GraphState, gc: Metric, source: NodeId, targets: set<NodeId>,
                  frontier: set<Entry>, best: map<NodeId, real>, settled: set<NodeId>, e: Entry)
    requires Inv(gs, gc, source, targets, frontier, best, settled, source, {})
    requires e in frontier && e.node in best && e.cost > best[e.node]
    ensures Inv(gs, gc, source, targets, frontier - {e}, best, settled, source, {})
  {
    var rest := frontier - {e};
    forall m | m in best && m !in settled
      ensures exists f :: f in rest && f.node == m && f.cost == best[m]
    {
      var f :| f in frontier && f.node == m && f.cost == best[m];
      assert f != e;
    }
  }

  /** Popping a least entry at its node's best cost settles that node, leaving its neighbours to relax. */
  lemma Settle(gs: GraphState, gc: Metric, source: NodeId, targets: set<NodeId>,
               frontier: set<Entry>, best: map<NodeId, real>, settled: set<NodeId>, e: Entry)
    requires Inv(gs, gc, source, targets, frontier, best, settled, source, {})
    requires e in frontier && forall o :: o in frontier ==> e.cost <= o.cost
    requires e.node !in targets && !(e.node in best && e.cost > best[e.node])
    ensures e.node !in settled && e.node in gs.nodes
    ensures Inv(gs, gc, source, targets, frontier - {e}, best, settled + {e.node}, e.node,
                Neighbors(gs, e.node))
    ensures Expanding(gs, gc, source, best, settled + {e.node}, e)
  {
    SettleWitnessed(frontier, best, settled, e);
    SettleRelaxed(gs, gc, best, settled, e.node);
    SettleFirst(frontier, best, settled, e);
  }

  /** Settling `e.node` and dropping `e` leaves every other unsettled known node witnessed. */
  lemma SettleWitnessed(frontier: set<Entry>, best: map<NodeId, real>, settled: set<NodeId>, e: Entry)
    requires Witnessed(frontier, best, settled)
    ensures Witnessed(frontier - {e}, best, settled + {e.node})
  {
    forall m | m in best && m !in settled + {e.node}
      ensures exists f :: f in frontier - {e} && f.node == m && f.cost == best[m]
    {
      var f :| f in frontier && f.node == m && f.cost == best[m];
    }
  }

  /** A newly settled node is relaxed towards every node but its neighbours, which it has yet to expand. */
  lemma SettleRelaxed(gs: GraphState, gc: Metric, best: map<NodeId, real>, settled: set<NodeId>, n: NodeId)
    requires WellFormed(gs) && settled <= best.Keys && n in best
    requires forall s, m :: s in settled ==> Relaxed(gs, gc, best, s, m)
    ensures AllRelaxed(gs, gc, best, settled + {n}, n, Neighbors(gs, n))
  {
    forall s, m | s in settled + {n} && (s == n ==> m !in Neighbors(gs, n))
      ensures Relaxed(gs, gc, best, s, m)
    {
    }
  }

  /** Settling the cheapest entry's node at that entry's cost keeps settled costs first. */
  lemma SettleFirst(frontier: set<Entry>, best: map<NodeId, real>, settled: set<NodeId>, e: Entry)
    requires settled <= best.Keys && SettledFirst(frontier, best, settled) && DistinctEntries(frontier)
    requires e in frontier && forall o :: o in frontier ==> e.cost <= o.cost
    requires e.node in best && best[e.node] == e.cost
    ensures SettledFirst(frontier - {e}, best, settled + {e.node})
  {
    forall f | f in frontier - {e} && f.node == e.node
      ensures best[e.node] < f.cost
    {
    }
  }

  /** The neighbour loop of one expansion. */
  method Expand(gs: GraphState, gc: Metric, source: NodeId, targets: set<NodeId>,
                frontier0: set<Entry>, best0: map<NodeId, real>, ghost settled: set<NodeId>, cur: Entry)
    returns (frontier: set<Entry>, best: map<NodeId, real>)
    requires WellFormed(gs)
    requires Inv(gs, gc, source, targets, frontier0, best0, settled, cur.node, Neighbors(gs, cur.node))
    requires Expanding(gs, gc, source, best0, settled, cur)
    ensures Inv(gs, gc, source, targets, frontier, best, settled, source, {})
  {
    frontier, best := frontier0, best0;
    var todo := Neighbors(gs, cur.node);
    while todo != {}
      invariant Inv(gs, gc, source, targets, frontier, best, settled, cur.node, todo)
      invariant Expanding(gs, gc, source, best, settled, cur)
      decreases todo
    {
      var m :| m in todo;
      frontier, best := RelaxNeighbour(gs, gc, source, targets, frontier, best, settled, cur, todo, m);
      todo := todo - {m};
    }
    assert settled !! targets;
  }

  /**
   * The body of the neighbour loop: a neighbour reached more cheaply
   * through `cur` gets the new best cost and a frontier entry for the
   * extended path; otherwise nothing changes.
   */
  method RelaxNeighbour(gs: GraphState, gc: Metric, source: NodeId, targets: set<NodeId>,
                        frontier0: set<Entry>, best0: map<NodeId, real>, ghost settled: set<NodeId>,
                        cur: Entry, ghost todo: set<NodeId>, m: NodeId)
    returns (frontier: set<Entry>, best: map<NodeId, real>)
    requires Inv(gs, gc, source, targets, frontier0, best0, settled, cur.node, todo)
    requires Expanding(gs, gc, source, best0, settled, cur) && m in todo
    ensures Inv(gs, gc, source, targets, frontier, best, settled, cur.node, todo - {m})
    ensures Expanding(gs, gc, source, best, settled, cur)
  {
    var step := EdgeTravelCost(gs, gc, cur.node, m);
    if step.Fin? && (m !in best0 || cur.cost + step.r < best0[m]) {
      var nc := cur.cost + step.r;
      Relax(gs, gc, source, targets, frontier0, best0, settled, cur, todo, m, nc);
      best := best0[m := nc];
      frontier := frontier0 + {Entry(nc, m, cur.path + [m])};
    } else {
      KeepBest(gs, gc, source, targets, frontier0, best0, settled, cur, todo, m);
      frontier, best := frontier0, best0;
    }
  }

  /** A neighbour whose best cost is not improved is already relaxed. */
  lemma KeepBest(gs: GraphState, gc: Metric, source: NodeId, targets: set<NodeId>,
                 frontier: set<Entry>, best: map<NodeId, real>, settled: set<NodeId>,
                 cur: Entry, todo: set<NodeId>, m: NodeId)
    requires Inv(gs, gc, source, targets, frontier, best, settled, cur.node, todo)
    requires Expanding(gs, gc, source, best, settled, cur)
    requires m in todo
    requires var step := EdgeTravelCost(gs, gc, cur.node, m);
      !(step.Fin? && (m !in best || cur.cost + step.r < best[m]))
    ensures Inv(gs, gc, source, targets, frontier, best, settled, cur.node, todo - {m})
  {
    assert Relaxed(gs, gc, best, cur.node, m);
  }

  /** Improving a neighbour's best cost and pushing its entry keeps the invariant. */
  lemma Relax(gs: GraphState, gc: Metric, source: NodeId, targets: set<NodeId>,
              frontier: set<Entry>, best: map<NodeId, real>, settled: set<NodeId>,
              cur: Entry, todo: set<NodeId>, m: NodeId, nc: real)
    requires Inv(gs, gc, source, targets, frontier, best, settled, cur.node, todo)
    requires Expanding(gs, gc, source, best, settled, cur)
    requires m in todo
    requires EdgeTravelCost(gs, gc, cur.node, m).Fin? && nc == cur.cost + EdgeTravelCost(gs, gc, cur.node, m).r
    requires m !in best || nc < best[m]
    ensures Inv(gs, gc, source, targets, frontier + {Entry(nc, m, cur.path + [m])}, best[m := nc],
                settled, cur.node, todo - {m})
    ensures Expanding(gs, gc, source, best[m := nc], settled, cur)
  {
    StepNonNegative(gs, gc, cur.node, m);
    AdjacentInGraph(gs, cur.node, m);
    var pushed := Entry(nc, m, cur.path + [m]);
    ExtendReaches(gs, gc, source, cur, m, nc);
    RelaxFrame(gs, gc, source, targets, frontier, best, settled, cur, todo, m, pushed);
  }

  /** A walk to `cur` extended by one finite step reaches the neighbour at the summed cost. */
  lemma ExtendReaches(gs: GraphState, gc: Metric, source: NodeId, cur: Entry, m: NodeId, nc: real)
    requires WellFormed(gs) && Reaches(gs, gc, source, cur)
    requires EdgeTravelCost(gs, gc, cur.node, m).Fin? && nc == cur.cost + EdgeTravelCost(gs, gc, cur.node, m).r
    ensures Reaches(gs, gc, source, Entry(nc, m, cur.path + [m]))
  {
    CostSnoc(gs, gc, cur.path, m);
  }

  /** Extending a walk by one node adds that step's cost. */
  lemma CostSnoc(gs: GraphState, gc: Metric, w: seq<NodeId>, m: NodeId)
    requires WellFormed(gs) && w != []
    ensures Cost(gs, gc, w + [m]) == Cost(gs, gc, w).Add(EdgeTravelCost(gs, gc, Last(w), m))
  {
    var p := w + [m];
    assert p[..|p| - 1] == w;
    assert p[|p| - 2] == Last(w) && p[|p| - 1] == m;
  }

  lemma RelaxFrame(gs: GraphState, gc: Metric, source: NodeId, targets: set<NodeId>,
                   frontier: set<Entry>, best: map<NodeId, real>, settled: set<NodeId>,
                   cur: Entry, todo: set<NodeId>, m: NodeId, pushed: Entry)
    requires Inv(gs, gc, source, targets, frontier, best, settled, cur.node, todo)
    requires Expanding(gs, gc, source, best, settled, cur)
    requires m in todo && m !in settled && m in gs.nodes
    requires EdgeTravelCost(gs, gc, cur.node, m).Fin?
    requires pushed.node == m && pushed.cost == cur.cost + EdgeTravelCost(gs, gc, cur.node, m).r
    requires pushed.cost >= cur.cost
    requires m !in best || pushed.cost < best[m]
    requires Reaches(gs, gc, source, pushed)
    ensures Inv(gs, gc, source, targets, frontier + {pushed}, best[m := pushed.cost],
                settled, cur.node, todo - {m})
    ensures Expanding(gs, gc, source, best[m := pushed.cost], settled, cur)
  {
    var best' := best[m := pushed.cost];
    var frontier' := frontier + {pushed};
    assert Known(gs, source, targets, best', settled);
    RelaxEntries(gs, gc, source, frontier, best, pushed);
    RelaxWitnessed(frontier, best, settled, pushed);
    RelaxRelaxed(gs, gc, best, settled, cur, todo, m, pushed.cost);
    RelaxSettled(frontier, best, settled, cur.cost, pushed);
    RelaxDistinct(frontier, best, pushed);
    ExpandingFrame(gs, gc, source, best, settled, cur, m, pushed.cost);
  }

  /** Lowering the cost of an unsettled node leaves the expansion of `cur` as it was. */
  lemma ExpandingFrame(gs: GraphState, gc: Metric, source: NodeId, best: map<NodeId, real>,
                       settled: set<NodeId>, cur: Entry, m: NodeId, c: real)
    requires WellFormed(gs) && Expanding(gs, gc, source, best, settled, cur) && m !in settled
    ensures Expanding(gs, gc, source, best[m := c], settled, cur)
  {
    assert m != cur.node;
  }

  lemma RelaxEntries(gs: GraphState, gc: Metric, source: NodeId, frontier: set<Entry>,
                     best: map<NodeId, real>, pushed: Entry)
    requires WellFormed(gs) && EntriesReach(gs, gc, source, frontier, best)
    requires pushed.node !in best || pushed.cost < best[pushed.node]
    requires Reaches(gs, gc, source, pushed)
    ensures EntriesReach(gs, gc, source, frontier + {pushed}, best[pushed.node := pushed.cost])
  {
  }

  lemma RelaxWitnessed(frontier: set<Entry>, best: map<NodeId, real>, settled: set<NodeId>, pushed: Entry)
    requires Witnessed(frontier, best, settled)
    ensures Witnessed(frontier + {pushed}, best[pushed.node := pushed.cost], settled)
  {
    var best' := best[pushed.node := pushed.cost];
    var frontier' := frontier + {pushed};
    forall k | k in best' && k !in settled
      ensures exists f :: f in frontier' && f.node == k && f.cost == best'[k]
    {
      if k != pushed.node {
        var f :| f in frontier && f.node == k && f.cost == best[k];
        assert f in frontier';
      } else {
        assert pushed in frontier';
      }
    }
  }

  lemma RelaxRelaxed(gs: GraphState, gc: Metric, best: map<NodeId, real>, settled: set<NodeId>,
                     cur: Entry, todo: set<NodeId>, m: NodeId, nc: real)
    requires WellFormed(gs) && settled <= best.Keys && AllRelaxed(gs, gc, best, settled, cur.node, todo)
    requires cur.node in settled && best[cur.node] == cur.cost && m !in settled
    requires EdgeTravelCost(gs, gc, cur.node, m).Fin? && nc == cur.cost + EdgeTravelCost(gs, gc, cur.node, m).r
    requires m !in best || nc < best[m]
    ensures AllRelaxed(gs, gc, best[m := nc], settled, cur.node, todo - {m})
  {
    var best' := best[m := nc];
    forall s, m' | s in settled && (s == cur.node ==> m' !in todo - {m})
      ensures Relaxed(gs, gc, best', s, m')
    {
      if s == cur.node && m' == m {
      } else {
        assert Relaxed(gs, gc, best, s, m');
      }
    }
  }

  lemma RelaxSettled(frontier: set<Entry>, best: map<NodeId, real>, settled: set<NodeId>,
                     c: real, pushed: Entry)
    requires settled <= best.Keys && SettledFirst(frontier, best, settled)
    requires forall s :: s in settled ==> best[s] <= c
    requires pushed.node !in settled && pushed.cost >= c
    ensures SettledFirst(frontier + {pushed}, best[pushed.node := pushed.cost], settled)
  {
  }

  lemma RelaxDistinct(frontier: set<Entry>, best: map<NodeId, real>, pushed: Entry)
    requires DistinctEntries(frontier)
    requires forall e :: e in frontier && e.node == pushed.node ==> e.node in best && best[e.node] <= e.cost
    requires pushed.node !in best || pushed.cost < best[pushed.node]
    ensures DistinctEntries(frontier + {pushed})
  {
  }

  /** The legs' paths joined at their shared end nodes, after the start node. */
  function Joined(start: NodeId, legs: seq<UcsResult>): (p: seq<NodeId>)
    ensures p != [] && p[0] == start
    decreases |legs|
  {
    if legs == [] then [start]
    else
      var leg := Last(legs);
      Joined(start, legs[..|legs| - 1]) + (if leg.path == [] then [] else leg.path[1..])
  }

  /** Where the `k`-th leg starts: the start node, then each reached target in turn. */
  function LegSource(start: NodeId, legs: seq<UcsResult>, k: nat): NodeId
    requires k <= |legs|
  {
    if k == 0 then start else legs[k - 1].target
  }

  /** The targets the legs reached, in a set. */
  function Reached(legs: seq<UcsResult>): set<NodeId>
    decreases |legs|
  {
    if legs == [] then {} else Reached(legs[..|legs| - 1]) + {Last(legs).target}
  }

  /** A node was reached exactly when some leg ends at it. */
  lemma {:induction false} ReachedTargets(legs: seq<UcsResult>, t: NodeId)
    ensures t in Reached(legs) <==> exists k :: 0 <= k < |legs| && legs[k].target == t
    decreases |legs|
  {
    if legs != [] {
      var init := legs[..|legs| - 1];
      ReachedTargets(init, t);
      if exists k :: 0 <= k < |init| && init[k].target == t {
        var k :| 0 <= k < |init| && init[k].target == t;
        assert legs[k] == init[k];
      }
      if exists k :: 0 <= k < |legs| && legs[k].target == t {
        var k :| 0 <= k < |legs| && legs[k].target == t;
        if k < |init| {
          assert init[k] == legs[k];
        }
      }
    }
  }

  /** The targets still pending when the `k`-th leg starts. */
  function PendingAt(distinct: set<NodeId>, legs: seq<UcsResult>, k: nat): set<NodeId>
    requires k <= |legs|
  {
    distinct - Reached(legs[..k])
  }

  /**
   * Each leg reached a cheapest pending target from where the previous leg
   * ended: the greedy nearest-target tour.
   */
  ghost predicate Greedy(gs: GraphState, gc: Metric, start: NodeId, distinct: set<NodeId>,
                         legs: seq<UcsResult>)
    requires WellFormed(gs)
  {
    forall k :: 0 <= k < |legs| ==>
      Closest(gs, gc, LegSource(start, legs, k), PendingAt(distinct, legs, k), legs[k])
  }

  datatype PlanError = NoDestinations | RouteNotFound

  /**
   * `plan`: an empty target list is refused before any search; otherwise
   * one leg per distinct target, each from the last reached target to the
   * cheapest pending one, joined into one node path from the start. When a
   * leg finds no target the plan fails.
   */
  method Plan(gs: GraphState, gc: Metric, startNode: NodeId, targetNodes: seq<NodeId>)
    returns (r: Result<seq<NodeId>, PlanError>, ghost legs: seq<UcsResult>)
    requires WellFormed(gs) && NonNegativeLengths(gs) && startNode in gs.nodes
    ensures targetNodes == [] <==> r == Err(NoDestinations)
    ensures r.Err? && targetNodes != [] ==> r.error == RouteNotFound
    ensures r.Ok? ==> r.value == Joined(startNode, legs)
    ensures r.Ok? ==> |legs| == |(set t | t in targetNodes)| && Reached(legs) == (set t | t in targetNodes)
    ensures r.Ok? ==> Greedy(gs, gc, startNode, (set t | t in targetNodes), legs)
    ensures r == Err(RouteNotFound) ==> Stuck(gs, gc, startNode, (set t | t in targetNodes), legs)
  {
    legs := [];
    if targetNodes == [] {
      return Err(NoDestinations), legs;
    }
    ghost var distinct := (set t | t in targetNodes);
    var pending := (set t | t in targetNodes);
    var fullPath := [startNode];
    var current := startNode;
    while pending != {}
      invariant Touring(gs, gc, startNode, distinct, legs, pending, current, fullPath)
      decreases |pending|
    {
      var result := Ucs(gs, gc, current, pending);
      if result.None? {
        return Err(RouteNotFound), legs;
      }
      var leg := result.value;
      TourStep(gs, gc, startNode, distinct, legs, pending, current, fullPath, leg);
      fullPath := fullPath + leg.path[1..];
      legs := legs + [leg];
      pending := pending - {leg.target};
      current := leg.target;
    }
    assert Reached(legs) == distinct;
    r := Ok(fullPath);
  }

  /**
   * A greedy tour that stopped short: some target is still pending, and no
   * walk of finite cost leads from where the last leg ended to any of them.
   */
  ghost predicate Stuck(gs: GraphState, gc: Metric, start: NodeId, distinct: set<NodeId>, legs: seq<UcsResult>)
    requires WellFormed(gs)
  {
    Greedy(gs, gc, start, distinct, legs) && Reached(legs) < distinct &&
    forall w :: Leads(w, LegSource(start, legs, |legs|), distinct - Reached(legs)) ==> Cost(gs, gc, w).PosInf?
  }

  /**
   * The state of the leg loop: `current` is where the next leg starts,
   * `pending` the distinct targets not yet reached, one leg per reached
   * target, and `fullPath` the legs joined so far.
   */
  ghost predicate Touring(gs: GraphState, gc: Metric, start: NodeId, distinct: set<NodeId>,
                          legs: seq<UcsResult>, pending: set<NodeId>, current: NodeId, fullPath: seq<NodeId>)
    requires WellFormed(gs)
  {
    current in gs.nodes && current == LegSource(start, legs, |legs|) &&
    pending == distinct - Reached(legs) && Reached(legs) <= distinct &&
    |legs| + |pending| == |distinct| &&
    fullPath == Joined(start, legs) && Greedy(gs, gc, start, distinct, legs)
  }

  /** A leg to the closest pending target advances the loop state by that target. */
  lemma TourStep(gs: GraphState, gc: Metric, start: NodeId, distinct: set<NodeId>,
                 legs: seq<UcsResult>, pending: set<NodeId>, current: NodeId, fullPath: seq<NodeId>,
                 leg: UcsResult)
    requires WellFormed(gs) && Touring(gs, gc, start, distinct, legs, pending, current, fullPath)
    requires Closest(gs, gc, current, pending, leg)
    ensures leg.target in pending
    ensures Touring(gs, gc, start, distinct, legs + [leg], pending - {leg.target}, leg.target,
                    fullPath + leg.path[1..])
  {
    GreedyStep(gs, gc, start, distinct, legs, leg);
    assert LegSource(start, legs + [leg], |legs| + 1) == leg.target;
  }

  /** Appending the leg found from the current node to the pending targets extends the greedy tour. */
  lemma GreedyStep(gs: GraphState, gc: Metric, start: NodeId, distinct: set<NodeId>,
                   legs: seq<UcsResult>, leg: UcsResult)
    requires WellFormed(gs) && Greedy(gs, gc, start, distinct, legs)
    requires Closest(gs, gc, LegSource(start, legs, |legs|), distinct - Reached(legs), leg)
    ensures Greedy(gs, gc, start, distinct, legs + [leg])
    ensures Reached(legs + [leg]) == Reached(legs) + {leg.target}
    ensures Joined(start, legs + [leg]) == Joined(start, legs) + leg.path[1..]
  {
    var legs' := legs + [leg];
    assert legs'[..|legs|] == legs;
    GreedyExtend(gs, gc, start, distinct, legs, leg);
    assert legs[..|legs|] == legs;
  }

  /** The greedy choice of each earlier leg is unaffected by appending one more leg. */
  lemma GreedyExtend(gs: GraphState, gc: Metric, start: NodeId, distinct: set<NodeId>,
                     legs: seq<UcsResult>, leg: UcsResult)
    requires WellFormed(gs) && Greedy(gs, gc, start, distinct, legs)
    requires Closest(gs, gc, LegSource(start, legs, |legs|), distinct - Reached(legs), leg)
    ensures Greedy(gs, gc, start, distinct, legs + [leg])
  {
    var legs' := legs + [leg];
    forall k | 0 <= k < |legs'|
      ensures Closest(gs, gc, LegSource(start, legs', k), PendingAt(distinct, legs', k), legs'[k])
    {
      assert legs'[..k] == legs[..k];
      assert LegSource(start, legs', k) == LegSource(start, legs, k);
      if k < |legs| {
        assert legs'[k] == legs[k];
        assert Closest(gs, gc, LegSource(start, legs, k), PendingAt(distinct, legs, k), legs[k]);
      } else {
        assert legs[..k] == legs;
      }
    }
  }

  /** A walk of finite cost that ends at a graph node stays on graph nodes. */
  lemma WalkInGraph(gs: GraphState, gc: Metric, w: seq<NodeId>)
    requires WellFormed(gs) && w != [] && Last(w) in gs.nodes && Cost(gs, gc, w).Fin?
    ensures forall n :: n in w ==> n in gs.nodes
  {
    FiniteCostAdjacent(gs, gc, w);
    forall n | n in w
      ensures n in gs.nodes
    {
      var i :| 0 <= i < |w| && w[i] == n;
      if i < |w| - 1 {
        assert Adjacent(gs, w[i], w[i + 1]);
        var e :| e in gs.edges && Joins(e, w[i], w[i + 1]);
      }
    }
  }

  /** Joining legs that stay on graph nodes, from a graph node, stays on graph nodes. */
  lemma {:induction false} JoinedInGraph(gs: GraphState, start: NodeId, legs: seq<UcsResult>)
    requires start in gs.nodes
    requires forall k :: 0 <= k < |legs| ==> forall n :: n in legs[k].path ==> n in gs.nodes
    ensures forall n :: n in Joined(start, legs) ==> n in gs.nodes
    decreases |legs|
  {
    if legs != [] {
      var init := legs[..|legs| - 1];
      assert forall k :: 0 <= k < |init| ==> init[k] == legs[k];
      JoinedInGraph(gs, start, init);
      var leg := Last(legs);
      assert leg == legs[|legs| - 1];
      if leg.path != [] {
        assert forall n :: n in leg.path[1..] ==> n in leg.path;
      }
    }
  }

  /** Every node of a greedy tour's joined path is a graph node. */
  lemma TourInGraph(gs: GraphState, gc: Metric, start: NodeId, distinct: set<NodeId>, legs: seq<UcsResult>)
    requires WellFormed(gs) && start in gs.nodes && Greedy(gs, gc, start, distinct, legs)
    ensures forall n :: n in Joined(start, legs) ==> n in gs.nodes
  {
    forall k | 0 <= k < |legs|
      ensures forall n :: n in legs[k].path ==> n in gs.nodes
    {
      WalkInGraph(gs, gc, legs[k].path);
    }
    JoinedInGraph(gs, start, legs);
  }

  /** Legs that each lead from where the previous one ended to their target. */
  ghost predicate Chained(start: NodeId, legs: seq<UcsResult>) {
    forall k :: 0 <= k < |legs| ==>
      legs[k].path != [] && legs[k].path[0] == LegSource(start, legs, k) && Last(legs[k].path) == legs[k].target
  }

  /** Every target a chain of legs reached lies on the joined path. */
  lemma {:induction false} ChainedVisits(start: NodeId, legs: seq<UcsResult>)
    requires Chained(start, legs)
    ensures forall t :: t in Reached(legs) ==> t in Joined(start, legs)
    decreases |legs|
  {
    if legs != [] {
      var init := legs[..|legs| - 1];
      var leg := Last(legs);
      ChainedInit(start, legs);
      ChainedVisits(start, init);
      var joined := Joined(start, init);
      assert Joined(start, legs) == joined + leg.path[1..];
      assert leg.target in Joined(start, legs) by {
        if |leg.path| >= 2 {
          assert Last(leg.path) == leg.path[1..][|leg.path| - 2];
        } else if |init| > 0 {
          assert leg.target == Last(init).target;
          assert Last(init).target in Reached(init);
        } else {
          assert leg.target == start == joined[0];
        }
      }
      forall t | t in Reached(legs)
        ensures t in Joined(start, legs)
      {
        if t != leg.target {
          assert t in Reached(init);
        }
      }
    }
  }

  /** Dropping the last leg of a chain leaves a chain. */
  lemma ChainedInit(start: NodeId, legs: seq<UcsResult>)
    requires Chained(start, legs) && legs != []
    ensures Chained(start, legs[..|legs| - 1])
  {
    var init := legs[..|legs| - 1];
    forall k | 0 <= k < |init|
      ensures init[k].path != [] && init[k].path[0] == LegSource(start, init, k) &&
              Last(init[k].path) == init[k].target
    {
      assert init[k] == legs[k];
      assert LegSource(start, init, k) == LegSource(start, legs, k);
    }
  }

  /** Every target a greedy tour reached lies on its joined path. */
  lemma TourVisits(gs: GraphState, gc: Metric, start: NodeId, distinct: set<NodeId>, legs: seq<UcsResult>)
    requires WellFormed(gs) && Greedy(gs, gc, start, distinct, legs)
    ensures forall t :: t in Reached(legs) ==> t in Joined(start, legs)
  {
    ChainedVisits(start, legs);
  }
}
