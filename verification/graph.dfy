/** The skeleton graph as the writers and the evaluation see it: the node
    identifiers in the order `getAllNodes` lists them, the edges in the order
    `getAllEdges` lists them (each as its pair of extremities), and the
    geometry `getNode` returns for every node. */
module SkeletonGraph {
  import opened Output

  /** Node identifiers are `unsigned int` in every graph class. */
  type NodeId = u32

  datatype Edge = Edge(first: NodeId, second: NodeId)

  /** A node of a 2D skeleton: centre and radius of its disk. */
  datatype Disk = Disk(cx: real, cy: real, r: real)

  /** A node of a 3D skeleton: centre and radius of its ball. */
  datatype Ball = Ball(x: real, y: real, z: real, r: real)

  datatype Graph<G> = Graph(nodes: seq<NodeId>, edges: seq<Edge>, geom: map<NodeId, G>)

  predicate Distinct(ids: seq<NodeId>)
  {
    forall i, j :: 0 <= i < j < |ids| ==> ids[i] != ids[j]
  }

  /** Every enumerated node has its geometry. */
  predicate Located<G>(g: Graph<G>)
  {
    forall x :: x in g.nodes ==> x in g.geom
  }

  predicate EndpointsAreNodes(nodes: seq<NodeId>, edges: seq<Edge>)
  {
    forall e :: e in edges ==> e.first in nodes && e.second in nodes
  }

  /** A graph as the graph classes maintain it: each node listed once, with
      its geometry, and every edge joining two listed nodes. */
  predicate Valid<G>(g: Graph<G>)
  {
    Distinct(g.nodes) && Located(g) && EndpointsAreNodes(g.nodes, g.edges)
  }

  /** Every node has a neighbour, so its neighbour list has a first element. */
  predicate NoIsolatedNode<G>(g: Graph<G>)
  {
    forall x :: x in g.nodes ==> Degree(g.edges, x) > 0
  }

  /** Number of edge ends at `e` that are `x`. */
  function Ends(e: Edge, x: NodeId): nat
  {
    (if e.first == x then 1 else 0) + (if e.second == x then 1 else 0)
  }

  /** Degree of `x`: the number of edge ends at it (a loop counts twice). */
  function Degree(edges: seq<Edge>, x: NodeId): nat
  {
    if |edges| == 0 then 0
    else Degree(edges[..|edges| - 1], x) + Ends(edges[|edges| - 1], x)
  }

  /** Sum of the degrees of the listed nodes. */
  function DegreeSum(nodes: seq<NodeId>, edges: seq<Edge>): nat
  {
    if |nodes| == 0 then 0
    else DegreeSum(nodes[..|nodes| - 1], edges) + Degree(edges, nodes[|nodes| - 1])
  }

  /** Number of positions of `x` in `nodes`. */
  function Hits(nodes: seq<NodeId>, x: NodeId): nat
  {
    if |nodes| == 0 then 0
    else Hits(nodes[..|nodes| - 1], x) + (if nodes[|nodes| - 1] == x then 1 else 0)
  }

  lemma {:induction false} HitsOfDistinct(nodes: seq<NodeId>, x: NodeId)
    requires Distinct(nodes)
    ensures Hits(nodes, x) == if x in nodes then 1 else 0
  {
    if |nodes| > 0 {
      var init := nodes[..|nodes| - 1];
      assert nodes == init + [nodes[|nodes| - 1]];
      HitsOfDistinct(init, x);
    }
  }

  lemma {:induction false} DegreeSumNoEdges(nodes: seq<NodeId>)
    ensures DegreeSum(nodes, []) == 0
  {
    if |nodes| > 0 {
      DegreeSumNoEdges(nodes[..|nodes| - 1]);
    }
  }

  /** Adding an edge adds, to the degree sum, its ends that land on listed nodes. */
  lemma {:induction false} DegreeSumAddEdge(nodes: seq<NodeId>, edges: seq<Edge>, e: Edge)
    ensures DegreeSum(nodes, edges + [e])
         == DegreeSum(nodes, edges) + Hits(nodes, e.first) + Hits(nodes, e.second)
  {
    if |nodes| > 0 {
      var x := nodes[|nodes| - 1];
      DegreeSumAddEdge(nodes[..|nodes| - 1], edges, e);
      assert (edges + [e])[..|edges + [e]| - 1] == edges;
      assert Degree(edges + [e], x) == Degree(edges, x) + Ends(e, x);
    }
  }

  /** The handshake lemma: over a graph whose nodes are listed once and
      whose edges join listed nodes, the degrees add up to twice the number
      of edges. */
  lemma {:induction false} Handshake(nodes: seq<NodeId>, edges: seq<Edge>)
    requires Distinct(nodes)
    requires EndpointsAreNodes(nodes, edges)
    ensures DegreeSum(nodes, edges) == 2 * |edges|
  {
    if |edges| == 0 {
      DegreeSumNoEdges(nodes);
    } else {
      var init := edges[..|edges| - 1];
      var e := edges[|edges| - 1];
      assert edges == init + [e];
      assert e in edges;
      Handshake(nodes, init);
      DegreeSumAddEdge(nodes, init, e);
      HitsOfDistinct(nodes, e.first);
      HitsOfDistinct(nodes, e.second);
    }
  }
}

/** The index maps the writers build while walking the node list:
    `mind[vpts[i]] = i` in the skeleton-file writer and
    `m_nod[*it] = nb_nod++` (from 1) in the OCaml exporter. */
module Numbering {
  import opened SkeletonGraph

  /** The map left by assigning `base + k` to `ids[k]` for k = 0, 1, ...
      in turn; a repeated identifier keeps its last number. */
  function Enumerate(ids: seq<NodeId>, base: nat): (m: map<NodeId, nat>)
    ensures forall x :: x in m <==> x in ids
    ensures forall x :: x in m ==> base <= m[x] < base + |ids| && ids[m[x] - base] == x
  {
    if |ids| == 0 then map[]
    else
      var init := ids[..|ids| - 1];
      assert ids == init + [ids[|ids| - 1]];
      Enumerate(init, base)[ids[|ids| - 1] := base + |ids| - 1]
  }

  /** A listed identifier is numbered, and its number leads back to it. */
  lemma EnumeratePosition(ids: seq<NodeId>, base: nat, x: NodeId)
    requires x in ids
    ensures var m := Enumerate(ids, base);
            x in m && base <= m[x] < base + |ids| && ids[m[x] - base] == x
  {
  }

  /** Different identifiers never share a number. */
  lemma EnumerateInjective(ids: seq<NodeId>, base: nat, x: NodeId, y: NodeId)
    requires x in ids && y in ids && x != y
    ensures Enumerate(ids, base)[x] != Enumerate(ids, base)[y]
  {
    var m := Enumerate(ids, base);
    assert ids[m[x] - base] == x && ids[m[y] - base] == y;
  }

  /** Over distinct identifiers the k-th one is numbered `base + k`. */
  lemma {:induction false} EnumerateDistinct(ids: seq<NodeId>, base: nat, k: nat)
    requires Distinct(ids)
    requires k < |ids|
    ensures Enumerate(ids, base)[ids[k]] == base + k
  {
    var m := Enumerate(ids, base);
    assert ids[k] in ids;
    var p := m[ids[k]] - base;
    assert ids[p] == ids[k];
  }

  /** `m[x]` on a `std::map`: a missing key reads (and is inserted as) 0. */
  function At(m: map<NodeId, nat>, x: NodeId): nat
  {
    if x in m then m[x] else 0
  }
}
