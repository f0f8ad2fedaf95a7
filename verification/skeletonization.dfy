/** The `soft_2dskeletonization` program: extract the boundary of a shape,
    compute its skeleton by sphere propagation, evaluate it with `EvalSkel`,
    refuse it when it is not faithful enough, and write the requested
    files. The image processing and the algorithms themselves are given as
    parameters (`Env`): only what the program does with their results is
    modelled here. */
module Skeletonization2D {
  import opened Output
  import opened SkeletonGraph
  import opened SkeletonFile

  /** 2^31: the range of C++ `int` is -2^31 .. 2^31 - 1. */
  const I32: nat := 0x8000_0000

  /** A binary image of the shape; its pixels are only handed to the
      algorithms. */
  datatype Shape = Shape(width: nat, height: nat, pixels: seq<bool>)

  /** A discrete boundary: `prev[i]` is `getPrev(i)`, the vertex before
      vertex i along the contour. */
  datatype Boundary = Boundary(prev: seq<NodeId>)

  /** A skeleton graph as `GraphSkel2d` maintains it. */
  type Skeleton = g: Graph<Disk> | Valid(g) witness Graph([], [], map[])

  /** The skeleton computed by sphere propagation and the boundary vertices
      each of its nodes was generated from. */
  datatype Propagation = Propagation(skel: Skeleton, assoc: Assoc)

  /** The algorithms the program calls and whose source is not part of this
      model: boundary extraction, sphere propagation with precision alpha,
      the area of the symmetric difference between the shape and the one
      filled from the skeleton, and the Hausdorff distance between the
      skeleton's reconstruction and the boundary. */
  datatype Env = Env(
    naiveBoundary: Shape -> Boundary,
    sphereProp: (Boundary, real) -> Propagation,
    symDiffArea: (Shape, Skeleton) -> real,
    hausDist: (Skeleton, Boundary, Shape) -> real)

  // ---------------------------------------------------------- the boundary

  /** The test `getPrev(0) == getNbVertices() - 1`: the contour read
      backwards from vertex 0 starts at the last vertex, so the vertices
      form one loop in order. An empty boundary has no vertex 0 and fails. */
  predicate Closed(b: Boundary)
  {
    |b.prev| > 0 && b.prev[0] == |b.prev| - 1
  }

  // ---------------------------------------------------- the branch count

  /** `getNodeDegree`, an `unsigned int`. */
  function NodeDegree(edges: seq<Edge>, x: NodeId): u32
  {
    Degree(edges, x) % U32
  }

  /** What a node adds to the branch ends: its degree, unless it is 2. */
  function BranchShare(edges: seq<Edge>, x: NodeId): nat
  {
    var d := NodeDegree(edges, x);
    if d != 2 then d else 0
  }

  /** The exact sum of the shares of the listed nodes. */
  function NonTwoSum(nodes: seq<NodeId>, edges: seq<Edge>): nat
  {
    if |nodes| == 0 then 0
    else NonTwoSum(nodes[..|nodes| - 1], edges) + BranchShare(edges, nodes[|nodes| - 1])
  }

  /** Number of listed nodes of degree 2. */
  function DegreeTwoCount(nodes: seq<NodeId>, edges: seq<Edge>): nat
  {
    if |nodes| == 0 then 0
    else DegreeTwoCount(nodes[..|nodes| - 1], edges) + (if Degree(edges, nodes[|nodes| - 1]) == 2 then 1 else 0)
  }

  /** The loop `nbbr += deg` over the nodes in list order, `nbbr` being an
      `unsigned int`: the exact sum, wrapped modulo 2^32. */
  function BranchEnds(nodes: seq<NodeId>, edges: seq<Edge>): (s: u32)
    ensures s == NonTwoSum(nodes, edges) % U32
  {
    if |nodes| == 0 then 0
    else (BranchEnds(nodes[..|nodes| - 1], edges) + BranchShare(edges, nodes[|nodes| - 1])) % U32
  }

  /** `nbbr /= 2`: the number of branches, always small enough to be
      stored in the `int` of the result tuple. */
  function BranchCount(g: Graph<Disk>): (b: u32)
    ensures 2 * b <= BranchEnds(g.nodes, g.edges) <= 2 * b + 1
    ensures b < I32
  {
    BranchEnds(g.nodes, g.edges) / 2
  }

  /** A count converted to `int`: values from 2^31 on wrap to negative ones. */
  function Int32Of(v: u32): (r: int)
    ensures -(I32 as int) <= r < I32
    ensures (r - v) % U32 == 0
    ensures v < I32 ==> r == v
  {
    if v < I32 then v else v - U32
  }

  /** The evaluation of a skeleton, as `EvalSkel` returns it. */
  datatype Evaluation = Evaluation(area: real, hausdorff: real, nbNodes: int, nbBranches: int)

  /** `EvalSkel`: the area of the symmetric difference in percent, the
      Hausdorff distance, the number of nodes and the number of branches. */
  function EvalSkel(shape: Shape, bnd: Boundary, skel: Skeleton, env: Env): (e: Evaluation)
    ensures e.area == 100.0 * env.symDiffArea(shape, skel)
    ensures e.hausdorff == env.hausDist(skel, bnd, shape)
    ensures e.nbNodes == Int32Of(|skel.nodes| % U32)
    ensures 0 <= e.nbBranches < I32 && e.nbBranches == BranchCount(skel)
  {
    Evaluation(env.symDiffArea(shape, skel) * 100.0, env.hausDist(skel, bnd, shape),
               Int32Of(|skel.nodes| % U32), BranchCount(skel))
  }

  lemma {:induction false} DegreeAtMostEnds(edges: seq<Edge>, x: NodeId)
    ensures Degree(edges, x) <= 2 * |edges|
  {
    if |edges| > 0 {
      DegreeAtMostEnds(edges[..|edges| - 1], x);
    }
  }

  /** Without wrap-around, the shares are the degree sum less 2 for every
      node of degree 2. */
  lemma {:induction false} NonTwoSumSplit(nodes: seq<NodeId>, edges: seq<Edge>)
    requires 2 * |edges| < U32
    ensures NonTwoSum(nodes, edges) + 2 * DegreeTwoCount(nodes, edges) == DegreeSum(nodes, edges)
  {
    if |nodes| > 0 {
      var x := nodes[|nodes| - 1];
      NonTwoSumSplit(nodes[..|nodes| - 1], edges);
      DegreeAtMostEnds(edges, x);
      assert NodeDegree(edges, x) == Degree(edges, x);
    }
  }

  /** The division by 2 is exact on a skeleton with fewer than 2^31 edges:
      by the handshake lemma each edge that does not pass through a node of
      degree 2 is counted from both ends, so the branch count is the number
      of edges less the number of degree-2 nodes. */
  lemma BranchCountExact(g: Skeleton)
    requires 2 * |g.edges| < U32
    ensures 2 * BranchCount(g) == NonTwoSum(g.nodes, g.edges)
    ensures BranchCount(g) == |g.edges| - DegreeTwoCount(g.nodes, g.edges)
  {
    Handshake(g.nodes, g.edges);
    NonTwoSumSplit(g.nodes, g.edges);
  }

  /** Nodes of degree 2 add nothing, so a skeleton made of closed chains
      only has no branch. */
  lemma {:induction false} DegreeTwoAddsNothing(nodes: seq<NodeId>, edges: seq<Edge>)
    requires forall i :: 0 <= i < |nodes| ==> Degree(edges, nodes[i]) == 2
    ensures NonTwoSum(nodes, edges) == 0
    ensures BranchEnds(nodes, edges) == 0
  {
    if |nodes| > 0 {
      DegreeTwoAddsNothing(nodes[..|nodes| - 1], edges);
    }
  }

  lemma AllDegreeTwoNoBranch(g: Skeleton)
    requires forall x :: x in g.nodes ==> Degree(g.edges, x) == 2
    ensures BranchCount(g) == 0
  {
    DegreeTwoAddsNothing(g.nodes, g.edges);
  }

  // ------------------------------------------------------------- the run

  /** The options the run depends on: `--help`, the precision `alpha`
      (default 2.1) and the skeleton and boundary file names (default
      empty). */
  datatype Options = Options(help: bool, alpha: real, fileskl: string, filebnd: string)

  /** What a run did: its exit status, what it printed, the files of the
      skeleton it wrote and the name the boundary was written under. */
  datatype Run = Run(status: int, console: Doc, skeletonFiles: seq<Written>, boundaryFile: Option<string>)

  const HelpText: Line := [Text("OPTIONS")]
  const FidelityError: Line := [Text("erreur...")]

  /** `main` after option parsing. */
  function Main(opts: Options, shape: Shape, env: Env, opens: string -> bool): (run: Run)
    ensures run.status == 0 || run.status == -1
    ensures opts.help ==> run == Run(0, [HelpText], [], None)
    ensures !opts.help ==>
              var bnd := env.naiveBoundary(shape);
              && (!Closed(bnd) ==> run == Run(-1, [], [], None))
              && (Closed(bnd) ==>
                    var prop := env.sphereProp(bnd, opts.alpha);
                    && (run.status == -1 <==> env.hausDist(prop.skel, bnd, shape) > opts.alpha)
                    && (run.status == -1 ==> run == Run(-1, [FidelityError], [], None))
                    && (run.status == 0 ==>
                          && run.console == []
                          && run.skeletonFiles == (if |opts.fileskl| != 0 then WriteSkeleton2D(prop.skel, prop.assoc, opts.fileskl, opens) else [])
                          && run.boundaryFile == (if |opts.filebnd| != 0 then Some(opts.filebnd) else None)))
  {
    if opts.help then Run(0, [HelpText], [], None)
    else
      var bnd := env.naiveBoundary(shape);
      if !Closed(bnd) then Run(-1, [], [], None)
      else
        var prop := env.sphereProp(bnd, opts.alpha);
        var eval := EvalSkel(shape, bnd, prop.skel, env);
        if eval.hausdorff > opts.alpha then Run(-1, [FidelityError], [], None)
        else
          var files := if |opts.fileskl| != 0 then WriteSkeleton2D(prop.skel, prop.assoc, opts.fileskl, opens) else [];
          var bndFile := if |opts.filebnd| != 0 then Some(opts.filebnd) else None;
          Run(0, [], files, bndFile)
  }

  /** Files are written only by a successful run, and only those whose name
      was given. */
  lemma WritesOnlyOnSuccess(opts: Options, shape: Shape, env: Env, opens: string -> bool)
    ensures var run := Main(opts, shape, env, opens);
            && (|run.skeletonFiles| > 0 <==> run.status == 0 && !opts.help && |opts.fileskl| != 0)
            && (run.boundaryFile.Some? <==> run.status == 0 && !opts.help && |opts.filebnd| != 0)
  {
  }

  /** A Hausdorff distance equal to alpha passes the fidelity test. */
  lemma FidelityBoundIsInclusive(opts: Options, shape: Shape, env: Env, opens: string -> bool)
    requires !opts.help && Closed(env.naiveBoundary(shape))
    requires var bnd := env.naiveBoundary(shape);
             env.hausDist(env.sphereProp(bnd, opts.alpha).skel, bnd, shape) == opts.alpha
    ensures Main(opts, shape, env, opens).status == 0
  {
  }

  /** The area of the symmetric difference plays no part in the outcome:
      two runs whose area measures differ end alike. */
  lemma OutcomeIgnoresArea(opts: Options, shape: Shape, env: Env, area: (Shape, Skeleton) -> real, opens: string -> bool)
    ensures Main(opts, shape, env, opens) == Main(opts, shape, env.(symDiffArea := area), opens)
  {
  }
}
