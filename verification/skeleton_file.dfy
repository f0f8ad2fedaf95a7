/** The skeleton file writers: the three-file 2D format (points, edges,
    boundary associations) and the Wavefront OBJ writer for 3D skeletons. */
module SkeletonFile {
  import opened Output
  import opened SkeletonGraph
  import opened Numbering

  const PointsPrefix: string := "skelpoints_"
  const EdgesPrefix: string := "skeledges_"
  const BoundsPrefix: string := "skelbounds_"

  /** One entry of the association map: a skeleton node and the boundary
      vertex indices that generated it, in list order. */
  datatype Entry = Entry(key: NodeId, indices: seq<u32>)

  predicate AscendingKeys(entries: seq<Entry>)
  {
    forall i, j :: 0 <= i < j < |entries| ==> entries[i].key < entries[j].key
  }

  /** The association map `std::map<unsigned int, std::list<unsigned int>>`,
      as its iteration visits it: one entry per key, keys ascending. */
  type Assoc = a: seq<Entry> | AscendingKeys(a) witness []

  function Keys(a: seq<Entry>): (keys: seq<NodeId>)
    ensures |keys| == |a|
    ensures forall k :: 0 <= k < |a| ==> keys[k] == a[k].key
  {
    if |a| == 0 then [] else [a[0].key] + Keys(a[1..])
  }

  /** The stream is written only if it could be opened. */
  function Emit(path: string, doc: Doc, opens: string -> bool): Written
  {
    Written(path, if opens(path) then Some(doc) else None, [])
  }

  // ---------------------------------------------------------------- points

  function PointLine(d: Disk): Line
  {
    [Real(d.cx), Text(" "), Real(d.cy)]
  }

  function PointLines(geom: map<NodeId, Disk>, ids: seq<NodeId>): (doc: Doc)
    requires forall x :: x in ids ==> x in geom
    ensures |doc| == |ids|
    ensures forall k :: 0 <= k < |ids| ==> doc[k] == PointLine(geom[ids[k]])
  {
    if |ids| == 0 then []
    else
      var init := ids[..|ids| - 1];
      assert forall x :: x in init ==> x in ids;
      PointLines(geom, init) + [PointLine(geom[ids[|ids| - 1]])]
  }

  /** The points file: line k holds the centre of the k-th enumerated node,
      x then y; the radius is not written. */
  function PointsDoc(g: Graph<Disk>): (doc: Doc)
    requires Located(g)
    ensures |doc| == |g.nodes|
    ensures forall k :: 0 <= k < |g.nodes| ==>
              doc[k] == [Real(g.geom[g.nodes[k]].cx), Text(" "), Real(g.geom[g.nodes[k]].cy)]
  {
    PointLines(g.geom, g.nodes)
  }

  // ----------------------------------------------------------------- edges

  function IndexPairLine(i: int, j: int): Line
  {
    [Int(i), Text(" "), Int(j)]
  }

  function IndexPairLines(mind: map<NodeId, nat>, edges: seq<Edge>): (doc: Doc)
    ensures |doc| == |edges|
    ensures forall k :: 0 <= k < |edges| ==>
              doc[k] == IndexPairLine(At(mind, edges[k].first), At(mind, edges[k].second))
  {
    if |edges| == 0 then []
    else
      var e := edges[|edges| - 1];
      IndexPairLines(mind, edges[..|edges| - 1]) + [IndexPairLine(At(mind, e.first), At(mind, e.second))]
  }

  /** The edges file: one `i j` line per edge, where i and j are the
      positions `mind` gives its extremities in the node enumeration (0 for
      an extremity that is not enumerated), then one blank line. */
  function EdgesDoc(g: Graph<Disk>): (doc: Doc)
    ensures |doc| == |g.edges| + 1
    ensures doc[|g.edges|] == []
    ensures forall k :: 0 <= k < |g.edges| ==>
              var e := g.edges[k];
              doc[k] == IndexPairLine(At(Enumerate(g.nodes, 0), e.first), At(Enumerate(g.nodes, 0), e.second))
  {
    IndexPairLines(Enumerate(g.nodes, 0), g.edges) + [[]]
  }

  /** Edge line k names, by their positions in the points file, exactly the
      two extremities of edge k: each index is below N and denotes the node
      whose centre is on that line of the points file. */
  lemma EdgeIndicesDenotePoints(g: Graph<Disk>)
    requires Valid(g)
    ensures var mind, pts, edg := Enumerate(g.nodes, 0), PointsDoc(g), EdgesDoc(g);
            forall k :: 0 <= k < |g.edges| ==>
              var i, j := At(mind, g.edges[k].first), At(mind, g.edges[k].second);
              && i < |g.nodes| && j < |g.nodes|
              && edg[k] == IndexPairLine(i, j)
              && g.nodes[i] == g.edges[k].first && g.nodes[j] == g.edges[k].second
              && pts[i] == PointLine(g.geom[g.edges[k].first])
              && pts[j] == PointLine(g.geom[g.edges[k].second])
  {
    var mind, pts, edg := Enumerate(g.nodes, 0), PointsDoc(g), EdgesDoc(g);
    forall k | 0 <= k < |g.edges|
      ensures var i, j := At(mind, g.edges[k].first), At(mind, g.edges[k].second);
              && i < |g.nodes| && j < |g.nodes|
              && g.nodes[i] == g.edges[k].first && g.nodes[j] == g.edges[k].second
              && pts[i] == PointLine(g.geom[g.edges[k].first])
              && pts[j] == PointLine(g.geom[g.edges[k].second])
    {
      var e := g.edges[k];
      assert e in g.edges;
    }
  }

  /** With distinct node identifiers, `mind` numbers the nodes 0..N-1 in
      enumeration order and no two nodes share a number. */
  lemma IndexMapIsBijection(g: Graph<Disk>)
    requires Distinct(g.nodes)
    ensures forall k :: 0 <= k < |g.nodes| ==> At(Enumerate(g.nodes, 0), g.nodes[k]) == k
    ensures forall x, y :: x in g.nodes && y in g.nodes && x != y ==>
              At(Enumerate(g.nodes, 0), x) != At(Enumerate(g.nodes, 0), y)
    ensures forall x :: x in g.nodes ==> At(Enumerate(g.nodes, 0), x) < |g.nodes|
  {
    forall k | 0 <= k < |g.nodes|
      ensures At(Enumerate(g.nodes, 0), g.nodes[k]) == k
    {
      EnumerateDistinct(g.nodes, 0, k);
    }
    forall x, y | x in g.nodes && y in g.nodes && x != y
      ensures At(Enumerate(g.nodes, 0), x) != At(Enumerate(g.nodes, 0), y)
    {
      EnumerateInjective(g.nodes, 0, x, y);
    }
  }

  // ---------------------------------------------------------------- bounds

  /** Each boundary index followed by a space. */
  function IndicesLine(indices: seq<u32>): (line: Line)
    ensures |line| == 2 * |indices|
    ensures forall k :: 0 <= k < |indices| ==> line[2 * k] == Int(indices[k]) && line[2 * k + 1] == Text(" ")
  {
    if |indices| == 0 then []
    else [Int(indices[0]), Text(" ")] + IndicesLine(indices[1..])
  }

  function IndicesLines(entries: seq<Entry>): (doc: Doc)
    ensures |doc| == |entries|
    ensures forall k :: 0 <= k < |entries| ==> doc[k] == IndicesLine(entries[k].indices)
  {
    if |entries| == 0 then []
    else [IndicesLine(entries[0].indices)] + IndicesLines(entries[1..])
  }

  /** The bounds file: one line per association-map entry (not per node),
      in ascending key order, listing the entry's boundary indices. */
  function BoundsDoc(assoc: Assoc): (doc: Doc)
    ensures |doc| == |assoc|
    ensures forall k :: 0 <= k < |assoc| ==>
              |doc[k]| == 2 * |assoc[k].indices|
              && forall n :: 0 <= n < |assoc[k].indices| ==>
                   doc[k][2 * n] == Int(assoc[k].indices[n]) && doc[k][2 * n + 1] == Text(" ")
    ensures forall i, j :: 0 <= i < j < |assoc| ==> assoc[i].key < assoc[j].key
  {
    IndicesLines(assoc)
  }

  predicate Increasing(s: seq<NodeId>)
  {
    forall i, j :: 0 <= i < j < |s| ==> s[i] < s[j]
  }

  /** Two increasing sequences of the same length and the same elements are equal. */
  lemma {:induction false} IncreasingSameElements(s: seq<NodeId>, t: seq<NodeId>)
    requires Increasing(s) && Increasing(t)
    requires |s| == |t|
    requires forall x :: x in s <==> x in t
    ensures s == t
    decreases |s|
  {
    if |s| > 0 {
      assert s[0] in t;
      assert t[0] in s;
      assert s[0] == t[0];
      var s', t' := s[1..], t[1..];
      forall x
        ensures x in s' <==> x in t'
      {
        if x in s' {
          assert x in s && x != s[0];
        }
        if x in t' {
          assert x in t && x != t[0];
        }
      }
      IncreasingSameElements(s', t');
      assert s == [s[0]] + s' && t == [t[0]] + t';
    }
  }

  /** The points file follows `getAllNodes` order while the bounds file
      follows key order. When the nodes are enumerated in increasing
      identifier order and the map has exactly one entry per node, line k of
      both files describes the same node. */
  lemma BoundsAlignWithPoints(g: Graph<Disk>, assoc: Assoc)
    requires Increasing(g.nodes)
    requires |assoc| == |g.nodes|
    requires forall x :: x in Keys(assoc) <==> x in g.nodes
    ensures forall k :: 0 <= k < |assoc| ==> assoc[k].key == g.nodes[k]
  {
    IncreasingSameElements(Keys(assoc), g.nodes);
  }

  /** Without increasing enumeration the two files disagree: nodes listed
      as 1, 0 put node 1 on points line 0 but node 0 on bounds line 0. */
  lemma BoundsMisalignExample()
    ensures var g := Graph([1, 0], [Edge(0, 1)], map[0 := Disk(0.0, 0.0, 1.0), 1 := Disk(5.0, 0.0, 1.0)]);
            var assoc: Assoc := [Entry(0, [7]), Entry(1, [3])];
            && Valid(g)
            && PointsDoc(g)[0] == PointLine(g.geom[1])
            && BoundsDoc(assoc)[0] == IndicesLine(assoc[0].indices)
            && assoc[0].key == 0
  {
    var g := Graph([1, 0], [Edge(0, 1)], map[0 := Disk(0.0, 0.0, 1.0), 1 := Disk(5.0, 0.0, 1.0)]);
    assert g.nodes[0] == 1;
  }

  // ----------------------------------------------------------- three files

  /** `WriteSkeleton2D`: the points, edges and bounds files, in that order,
      each named by its prefix followed by `filename`; a file that cannot be
      opened is left unwritten and nothing is reported. */
  function WriteSkeleton2D(g: Graph<Disk>, assoc: Assoc, filename: string, opens: string -> bool): (files: seq<Written>)
    requires Located(g)
    ensures |files| == 3
    ensures files[0].path == PointsPrefix + filename
    ensures files[1].path == EdgesPrefix + filename
    ensures files[2].path == BoundsPrefix + filename
    ensures files[0].lines == if opens(PointsPrefix + filename) then Some(PointsDoc(g)) else None
    ensures files[1].lines == if opens(EdgesPrefix + filename) then Some(EdgesDoc(g)) else None
    ensures files[2].lines == if opens(BoundsPrefix + filename) then Some(BoundsDoc(assoc)) else None
    ensures files[0].console == [] && files[1].console == [] && files[2].console == []
  {
    [ Emit(PointsPrefix + filename, PointsDoc(g), opens),
      Emit(EdgesPrefix + filename, EdgesDoc(g), opens),
      Emit(BoundsPrefix + filename, BoundsDoc(assoc), opens) ]
  }

  // ------------------------------------------------------------------- OBJ

  function ObjVertexLine(b: Ball): Line
  {
    [Text("v"), Text(" "), Real(b.x), Text(" "), Real(b.y), Text(" "), Real(b.z)]
  }

  function ObjSegmentLine(a: int, b: int): Line
  {
    [Text("l "), Int(a), Text(" "), Int(b)]
  }

  function ObjVertexLines(geom: map<NodeId, Ball>, ids: seq<NodeId>): (doc: Doc)
    requires forall x :: x in ids ==> x in geom
    ensures |doc| == |ids|
    ensures forall k :: 0 <= k < |ids| ==> doc[k] == ObjVertexLine(geom[ids[k]])
  {
    if |ids| == 0 then []
    else
      var init := ids[..|ids| - 1];
      assert forall x :: x in init ==> x in ids;
      ObjVertexLines(geom, init) + [ObjVertexLine(geom[ids[|ids| - 1]])]
  }

  /** The number an `l` line gives a node: its raw identifier, or its
      number in `num` when one is given. */
  function Ref(num: Option<map<NodeId, nat>>, x: NodeId): int
  {
    match num
    case None => x
    case Some(m) => At(m, x)
  }

  /** One `l a b` line per edge. */
  function ObjSegmentLines(edges: seq<Edge>, num: Option<map<NodeId, nat>>): (doc: Doc)
    ensures |doc| == |edges|
    ensures forall k :: 0 <= k < |edges| ==> doc[k] == ObjSegmentLine(Ref(num, edges[k].first), Ref(num, edges[k].second))
  {
    if |edges| == 0 then []
    else
      var e := edges[|edges| - 1];
      ObjSegmentLines(edges[..|edges| - 1], num) + [ObjSegmentLine(Ref(num, e.first), Ref(num, e.second))]
  }

  /** The layout of an OBJ file: a `v` line per node in enumeration order,
      two blank lines, an `l` line per edge naming its extremities as `num`
      numbers them (raw identifiers when `num` is `None`), one blank line. */
  predicate ObjLayout(g: Graph<Ball>, num: Option<map<NodeId, nat>>, doc: Doc)
    requires Located(g)
  {
    && |doc| == |g.nodes| + |g.edges| + 3
    && (forall k :: 0 <= k < |g.nodes| ==> doc[k] == ObjVertexLine(g.geom[g.nodes[k]]))
    && doc[|g.nodes|] == [] && doc[|g.nodes| + 1] == [] && doc[|doc| - 1] == []
    && (forall k :: 0 <= k < |g.edges| ==>
          doc[|g.nodes| + 2 + k] == ObjSegmentLine(Ref(num, g.edges[k].first), Ref(num, g.edges[k].second)))
  }

  function ObjLines(g: Graph<Ball>, num: Option<map<NodeId, nat>>): (doc: Doc)
    requires Located(g)
    ensures ObjLayout(g, num, doc)
  {
    var vs := ObjVertexLines(g.geom, g.nodes);
    var ls := ObjSegmentLines(g.edges, num);
    assert forall k :: 0 <= k < |g.edges| ==> (vs + [[], []] + ls + [[]])[|g.nodes| + 2 + k] == ls[k];
    vs + [[], []] + ls + [[]]
  }

  /** The OBJ file as written: the `l` lines carry the raw node identifiers. */
  function ObjDoc(g: Graph<Ball>): (doc: Doc)
    requires Located(g)
    ensures ObjLayout(g, None, doc)
    ensures forall k :: 0 <= k < |g.edges| ==>
              doc[|g.nodes| + 2 + k] == ObjSegmentLine(g.edges[k].first, g.edges[k].second)
  {
    ObjLines(g, None)
  }

  /** In Wavefront OBJ an `l` record refers to vertices by their 1-based
      position among the `v` records: every reference lies in 1..n. */
  predicate ObjReferencesValid(doc: Doc, n: nat)
  {
    forall k :: 0 <= k < |doc| && Opens(doc[k], "l ") ==> SegmentRefersTo(doc[k], n)
  }

  /** An `l a b` line whose references a and b both lie in 1..n. */
  predicate SegmentRefersTo(line: Line, n: nat)
  {
    |line| == 4 && line[1].Int? && line[3].Int? && 1 <= line[1].n <= n && 1 <= line[3].n <= n
  }

  /** `WriteSkeletonOBJ`: the OBJ document under `filename` itself, or
      nothing when it cannot be opened. */
  function WriteSkeletonObj(g: Graph<Ball>, filename: string, opens: string -> bool): (w: Written)
    requires Located(g)
    ensures w.path == filename && w.console == []
    ensures w.lines.Some? <==> opens(filename)
    ensures w.lines.Some? ==> ObjLayout(g, None, w.lines.value)
  {
    Emit(filename, ObjDoc(g), opens)
  }

  /** The OBJ writer as written produces invalid references: a two-node
      graph with identifiers 0 and 1 and one edge yields `l 0 1`, and 0 is
      no OBJ vertex. */
  lemma ObjRawReferencesInvalid()
    ensures var g := Graph([0, 1], [Edge(0, 1)], map[0 := Ball(0.0, 0.0, 0.0, 1.0), 1 := Ball(1.0, 0.0, 0.0, 1.0)]);
            && Valid(g)
            && ObjDoc(g)[4] == ObjSegmentLine(0, 1)
            && !ObjReferencesValid(ObjDoc(g), |g.nodes|)
  {
    var g := Graph([0, 1], [Edge(0, 1)], map[0 := Ball(0.0, 0.0, 0.0, 1.0), 1 := Ball(1.0, 0.0, 0.0, 1.0)]);
    var doc := ObjDoc(g);
    assert doc[4] == ObjSegmentLine(0, 1);
    assert Opens(doc[4], "l ");
  }

  /** The OBJ file with the edges renumbered as intended: each node is
      referred to by its 1-based position among the `v` lines. */
  function ObjDocOneBased(g: Graph<Ball>): (doc: Doc)
    requires Located(g)
    ensures ObjLayout(g, Some(Enumerate(g.nodes, 1)), doc)
  {
    ObjLines(g, Some(Enumerate(g.nodes, 1)))
  }

  /** On a valid graph the renumbered OBJ file is well formed: every `l`
      record refers to one of the `v` records. */
  lemma ObjOneBasedReferencesValid(g: Graph<Ball>)
    requires Located(g) && EndpointsAreNodes(g.nodes, g.edges)
    ensures ObjReferencesValid(ObjDocOneBased(g), |g.nodes|)
  {
    OneBasedLayoutValid(g, ObjDocOneBased(g));
  }

  lemma OneBasedLayoutValid(g: Graph<Ball>, doc: Doc)
    requires Located(g) && EndpointsAreNodes(g.nodes, g.edges)
    requires ObjLayout(g, Some(Enumerate(g.nodes, 1)), doc)
    ensures ObjReferencesValid(doc, |g.nodes|)
  {
    var n, m := |g.nodes|, |g.edges|;
    forall k | 0 <= k < |doc|
      ensures Opens(doc[k], "l ") ==> SegmentRefersTo(doc[k], n)
    {
      if k < n {
        VertexLineOpensNoSegment(g.geom[g.nodes[k]]);
      } else if n + 2 <= k < n + 2 + m {
        OneBasedSegmentValid(g, doc, k - n - 2);
      }
    }
  }

  lemma VertexLineOpensNoSegment(b: Ball)
    ensures !Opens(ObjVertexLine(b), "l ")
  {
    assert ObjVertexLine(b)[0] == Text("v");
  }

  /** The renumbered `l` record of edge k refers to vertices 1..N. */
  lemma OneBasedSegmentValid(g: Graph<Ball>, doc: Doc, k: nat)
    requires Located(g) && EndpointsAreNodes(g.nodes, g.edges)
    requires ObjLayout(g, Some(Enumerate(g.nodes, 1)), doc)
    requires k < |g.edges|
    ensures SegmentRefersTo(doc[|g.nodes| + 2 + k], |g.nodes|)
  {
    ObjOneBasedNamesEnds(g, doc, k);
  }

  /** The renumbered `l` record of edge k names, through the `v` lines,
      exactly the two ends of that edge. */
  lemma ObjOneBasedNamesEnds(g: Graph<Ball>, doc: Doc, k: nat)
    requires Located(g) && EndpointsAreNodes(g.nodes, g.edges)
    requires ObjLayout(g, Some(Enumerate(g.nodes, 1)), doc)
    requires k < |g.edges|
    ensures var num := Enumerate(g.nodes, 1); var n := |g.nodes|; var e := g.edges[k];
            && e.first in num && 1 <= num[e.first] <= n
            && e.second in num && 1 <= num[e.second] <= n
            && doc[n + 2 + k] == ObjSegmentLine(num[e.first], num[e.second])
            && doc[num[e.first] - 1] == ObjVertexLine(g.geom[e.first])
            && doc[num[e.second] - 1] == ObjVertexLine(g.geom[e.second])
  {
    var e := g.edges[k];
    assert e in g.edges;
    ObjOneBasedNamesNode(g, doc, e.first);
    ObjOneBasedNamesNode(g, doc, e.second);
  }

  /** The `v` line a node's 1-based number points at is that node's. */
  lemma ObjOneBasedNamesNode(g: Graph<Ball>, doc: Doc, x: NodeId)
    requires Located(g)
    requires ObjLayout(g, Some(Enumerate(g.nodes, 1)), doc)
    requires x in g.nodes
    ensures var num := Enumerate(g.nodes, 1);
            x in num && 1 <= num[x] <= |g.nodes| && doc[num[x] - 1] == ObjVertexLine(g.geom[x])
  {
    EnumeratePosition(g.nodes, 1, x);
  }
}
