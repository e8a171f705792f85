/**
 * The undirected networkx MultiGraph the server routes on, as far as the
 * core uses it: node attributes `x`/`y` (and the `synthetic` flag snapping
 * sets), parallel edges distinguished by a key, and the edge attributes
 * `geometry` and `length`. Edges are kept in insertion order, which is the
 * order networkx yields the parallel edges of a node pair in.
 */
module MultiGraph {
  import opened Wrappers
  import opened Geo
  import Json

  /** OSM node ids, plus the ids snapping invents for synthetic nodes. */
  datatype NodeId = Osm(osmid: int) | Synthetic(tag: nat)

  datatype NodeData = NodeData(x: real, y: real, synthetic: bool)

  /** A value stored under the `geometry` attribute: a shapely geometry, a plain coordinate list, or anything else. */
  datatype GeometryValue = Shape(shape: Geometry) | CoordList(items: seq<Coord>) | Other

  /** Edge attributes; `extra` holds the attributes the core copies without reading. */
  datatype EdgeAttrs = EdgeAttrs(geometry: Option<GeometryValue>, length: Option<real>,
                                 extra: map<string, Json.Value>)

  datatype Edge = Edge(u: NodeId, v: NodeId, key: nat, attrs: EdgeAttrs)

  /** The `(u, v, key)` triple that names one edge. */
  datatype EdgeRef = EdgeRef(u: NodeId, v: NodeId, key: nat)

  datatype GraphState = GraphState(nodes: map<NodeId, NodeData>, edges: seq<Edge>)

  /** In an undirected multigraph an edge joins its two ends in either order. */
  predicate Joins(e: Edge, a: NodeId, b: NodeId) {
    (e.u == a && e.v == b) || (e.u == b && e.v == a)
  }

  predicate Names(e: Edge, r: EdgeRef) {
    Joins(e, r.u, r.v) && e.key == r.key
  }

  /** Every edge joins two nodes, and no two edges of one node pair share a key. */
  ghost predicate WellFormed(gs: GraphState) {
    (forall e :: e in gs.edges ==> e.u in gs.nodes && e.v in gs.nodes) &&
    (forall i, j :: 0 <= i < j < |gs.edges| ==>
      !(Joins(gs.edges[j], gs.edges[i].u, gs.edges[i].v) && gs.edges[i].key == gs.edges[j].key))
  }

  /** Every stored `length` is non-negative. */
  ghost predicate NonNegativeLengths(gs: GraphState) {
    forall e :: e in gs.edges ==> e.attrs.length.Some? ==> e.attrs.length.value >= 0.0
  }

  function Position(gs: GraphState, n: NodeId): Coord
    requires n in gs.nodes
  {
    Coord(gs.nodes[n].x, gs.nodes[n].y)
  }

  /** The parallel edges between `a` and `b`, in insertion order (`get_edge_data(a, b).values()`). */
  function Between(edges: seq<Edge>, a: NodeId, b: NodeId): (r: seq<Edge>)
    ensures |r| <= |edges|
    ensures forall e :: e in r <==> e in edges && Joins(e, a, b)
    decreases |edges|
  {
    if edges == [] then []
    else if Joins(edges[0], a, b) then [edges[0]] + Between(edges[1..], a, b)
    else Between(edges[1..], a, b)
  }

  predicate Adjacent(gs: GraphState, a: NodeId, b: NodeId) {
    exists e :: e in gs.edges && Joins(e, a, b)
  }

  /** `graph.neighbors(n)`: the nodes sharing an edge with `n`. */
  function Neighbors(gs: GraphState, n: NodeId): (r: set<NodeId>)
    ensures forall m :: m in r <==> Adjacent(gs, n, m)
  {
    set e | e in gs.edges && (e.u == n || e.v == n) :: if e.u == n then e.v else e.u
  }

  lemma NeighborsInGraph(gs: GraphState, n: NodeId)
    requires WellFormed(gs)
    ensures Neighbors(gs, n) <= gs.nodes.Keys
  {
  }

  function Keys(edges: seq<Edge>, a: NodeId, b: NodeId): (r: set<nat>)
    ensures forall k :: k in r <==> exists e :: e in edges && Joins(e, a, b) && e.key == k
  {
    set e | e in edges && Joins(e, a, b) :: e.key
  }

  /** The smallest key at or above `k` that is not taken. */
  function NextFree(keys: set<nat>, k: nat): (r: nat)
    ensures k <= r && r !in keys
    ensures forall j :: k <= j < r ==> j in keys
    decreases keys
  {
    if k in keys then NextFree(keys - {k}, k + 1) else k
  }

  /**
   * networkx `new_edge_key`: the number of edges already joining the pair,
   * moved up past keys that are taken.
   */
  function NewKey(edges: seq<Edge>, a: NodeId, b: NodeId): (k: nat)
    ensures forall e :: e in edges && Joins(e, a, b) ==> e.key != k
    ensures |Between(edges, a, b)| <= k
  {
    NextFree(Keys(edges, a, b), |Between(edges, a, b)|)
  }

  /** The edge list without the edge named `r`. */
  function Without(edges: seq<Edge>, r: EdgeRef): (s: seq<Edge>)
    ensures forall e :: e in s <==> e in edges && !Names(e, r)
    ensures |s| <= |edges|
    decreases |edges|
  {
    if edges == [] then []
    else if Names(edges[0], r) then Without(edges[1..], r)
    else [edges[0]] + Without(edges[1..], r)
  }

  predicate HasEdge(gs: GraphState, r: EdgeRef) {
    exists e :: e in gs.edges && Names(e, r)
  }

  /** The attributes of edge `r` (`graph[u][v][key]`), if it exists. */
  function EdgeData(gs: GraphState, r: EdgeRef): (a: Option<EdgeAttrs>)
    ensures a.Some? <==> HasEdge(gs, r)
    ensures a.Some? ==> exists e :: e in gs.edges && Names(e, r) && e.attrs == a.value
  {
    var named := Between(gs.edges, r.u, r.v);
    FirstWithKey(named, r.key)
  }

  function FirstWithKey(edges: seq<Edge>, key: nat): (a: Option<EdgeAttrs>)
    ensures a.Some? <==> exists e :: e in edges && e.key == key
    ensures a.Some? ==> exists e :: e in edges && e.key == key && e.attrs == a.value
    decreases |edges|
  {
    if edges == [] then None
    else if edges[0].key == key then Some(edges[0].attrs)
    else FirstWithKey(edges[1..], key)
  }

  /** Finitely many synthetic tags are taken, so some tag is always free. */
  function FreeTag(nodes: map<NodeId, NodeData>): (t: nat)
    ensures Synthetic(t) !in nodes
  {
    var tags := set n | n in nodes.Keys && n.Synthetic? :: n.tag;
    NextFree(tags, 0)
  }

  /**
   * The graph as a mutable object: `add_node`, `remove_edge` and `add_edge`
   * update it in place.
   */
  class Graph {
    var nodes: map<NodeId, NodeData>
    var edges: seq<Edge>

    function State(): GraphState
      reads this
    {
      GraphState(nodes, edges)
    }

    constructor(nodes0: map<NodeId, NodeData>, edges0: seq<Edge>)
      ensures nodes == nodes0 && edges == edges0
    {
      nodes := nodes0;
      edges := edges0;
    }

    /** `add_node(id, **data)`: sets the attributes of `id`; edges are untouched. */
    method AddNode(id: NodeId, data: NodeData)
      modifies this
      ensures nodes == old(nodes)[id := data]
      ensures edges == old(edges)
    {
      nodes := nodes[id := data];
    }

    /** `remove_edge(u, v, key)` on an edge that exists. */
    method RemoveEdge(r: EdgeRef)
      modifies this
      ensures edges == Without(old(edges), r)
      ensures nodes == old(nodes)
    {
      edges := Without(edges, r);
    }

    /** `add_edge(u, v, **attrs)` between two existing nodes: a new parallel edge under a fresh key. */
    method AddEdge(u: NodeId, v: NodeId, attrs: EdgeAttrs) returns (key: nat)
      requires u in nodes && v in nodes
      modifies this
      ensures key == NewKey(old(edges), u, v)
      ensures edges == old(edges) + [Edge(u, v, key, attrs)]
      ensures nodes == old(nodes)
    {
      key := NewKey(edges, u, v);
      edges := edges + [Edge(u, v, key, attrs)];
    }
  }

  /** Appending an edge under `NewKey` keeps a graph well formed. */
  lemma AddEdgeWellFormed(gs: GraphState, u: NodeId, v: NodeId, attrs: EdgeAttrs)
    requires WellFormed(gs) && u in gs.nodes && v in gs.nodes
    ensures WellFormed(GraphState(gs.nodes, gs.edges + [Edge(u, v, NewKey(gs.edges, u, v), attrs)]))
  {
    var e := Edge(u, v, NewKey(gs.edges, u, v), attrs);
    var edges := gs.edges + [e];
    forall i, j | 0 <= i < j < |edges|
      ensures !(Joins(edges[j], edges[i].u, edges[i].v) && edges[i].key == edges[j].key)
    {
      if j == |gs.edges| {
        assert edges[i] in gs.edges;
        if Joins(e, edges[i].u, edges[i].v) {
          assert Joins(edges[i], u, v);
        }
      }
    }
  }

  /** Removing an edge keeps a graph well formed. */
  lemma WithoutWellFormed(gs: GraphState, r: EdgeRef)
    requires WellFormed(gs)
    ensures WellFormed(GraphState(gs.nodes, Without(gs.edges, r)))
  {
    WithoutKeysDistinct(gs.edges, r);
  }

  /** No two edges of the list, in either order, join the same node pair under one key. */
  ghost predicate KeysDistinct(es: seq<Edge>) {
    forall i, j :: 0 <= i < j < |es| ==>
      !(Joins(es[j], es[i].u, es[i].v) && es[i].key == es[j].key)
  }

  lemma {:induction false} WithoutKeysDistinct(es: seq<Edge>, r: EdgeRef)
    requires KeysDistinct(es)
    ensures KeysDistinct(Without(es, r))
    decreases |es|
  {
    if es != [] {
      var tail := es[1..];
      assert KeysDistinct(tail) by {
        forall i, j | 0 <= i < j < |tail|
          ensures !(Joins(tail[j], tail[i].u, tail[i].v) && tail[i].key == tail[j].key)
        {
          assert tail[i] == es[i + 1] && tail[j] == es[j + 1];
        }
      }
      WithoutKeysDistinct(tail, r);
      if !Names(es[0], r) {
        var rest := Without(tail, r);
        var s := [es[0]] + rest;
        forall i, j | 0 <= i < j < |s|
          ensures !(Joins(s[j], s[i].u, s[i].v) && s[i].key == s[j].key)
        {
          if i == 0 {
            assert s[j] == rest[j - 1];
            assert s[j] in tail;
            var k :| 0 <= k < |tail| && tail[k] == s[j];
            assert es[k + 1] == s[j];
          } else {
            assert s[i] == rest[i - 1] && s[j] == rest[j - 1];
          }
        }
      }
    }
  }

  /** Adding a node with a fresh id keeps a graph well formed. */
  lemma AddNodeWellFormed(gs: GraphState, id: NodeId, data: NodeData)
    requires WellFormed(gs)
    ensures WellFormed(GraphState(gs.nodes[id := data], gs.edges))
  {
  }
}
