# evalshape skeleton files and 2D skeletonization, in Dafny

This project models the file output of the evalshape skeleton library and the
`soft_2dskeletonization` program that uses it:

- the skeleton writers of `SkeletonFile.cpp`: the three-file 2D format and the
  Wavefront OBJ writer for 3D skeletons. The three files are the points, the
  edges as pairs of point indices, and the boundary vertices of each node;
- the OCaml script exporter (`ExportOCaml.cpp`) and the SVG drawing exporter
  (`ExportSVG.cpp`);
- the B-spline branch file (`BranchFile.cpp`), written and read back;
- `EvalSkel` and the gates of `main` in `soft_2dskeletonization/main.cpp`.
  The branch count is computed in `unsigned int`. The run stops when the
  boundary is not closed or when the Hausdorff distance exceeds alpha, and it
  writes the requested files only when it succeeds.

Every line a writer ends with `std::endl` is modelled as the sequence of
values inserted before it. A value is literal text, an integer or a
floating-point number, so a document is a sequence of such lines
(`Output.Doc`). Whether a stream opens is a parameter `opens: string -> bool`.
What a writer did to a path is a `Written` value: the lines it wrote, or none,
and what it printed.

A skeleton is a `Graph` made of:

- its node identifiers in enumeration order (`getAllNodes`);
- its edges in `getAllEdges` order;
- the geometry of each node: a disk in 2D, a ball in 3D.

C++ `unsigned int` arithmetic is written out modulo 2^32 wherever the source
relies on it:

- `FAC*height`;
- the SVG label `id+1`;
- the branch-count accumulator.

`std::map::operator[]` on a missing key gives 0 (`Numbering.At`).

Files:

- `output.dfy`: lines, documents, file results, and the base name before the first '.'.
- `graph.dfy`: skeleton graphs, degrees, the handshake lemma, and the `mind`/`m_nod` numbering maps.
- `skeleton_file.dfy`: the 2D and OBJ skeleton writers.
- `export_ocaml.dfy` and `export_svg.dfy`: the two exporters.
- `branch_file.dfy`: the B-spline branch writer and reader, and their round trip.
- `skeletonization.dfy`: `EvalSkel` and `main`.

Three behaviours of the code worth knowing:

- the fidelity test compares the Hausdorff distance (`std::get<1>`) with
  alpha; the area of the symmetric difference plays no part in it
  (main.cpp:171);
- the bounds file has one line per entry of the association map, in
  ascending key order, while the points file has one line per node in
  enumeration order, so the two need not line up
  (SkeletonFile.cpp:250-258 against 138-143);
- the OBJ `l` records carry raw node identifiers (SkeletonFile.cpp:61); see Findings.

## Model

| member | source | states |
|---|---|---|
| Output.Stem | src/utils/fileio/ExportOCaml.cpp:40 | the script and image name is a prefix of the file name without any '.', followed in the file name by a '.' unless it is the whole name; a name without '.' is kept whole |
| SkeletonGraph.Handshake | src/soft/soft_2dskeletonization/main.cpp:69-77 | on a graph whose nodes are listed once and whose edges join listed nodes, the sum of the node degrees is twice the number of edges |
| Numbering.Enumerate | src/utils/fileio/SkeletonFile.cpp:185-190 | every enumerated identifier is mapped to base plus one of its positions, and the map holds no other key |
| SkeletonFile.PointsDoc | src/utils/fileio/SkeletonFile.cpp:138-143 | the points file has one line per node, in enumeration order, holding that node's centre x then y |
| SkeletonFile.EdgesDoc | src/utils/fileio/SkeletonFile.cpp:185-199 | the edges file has one line per edge, with the `mind` indices of its two ends (0 for an end that is not enumerated), then one blank line |
| SkeletonFile.IndexMapIsBijection | src/utils/fileio/SkeletonFile.cpp:185-190 | with distinct identifiers, `mind` numbers the k-th node k, and maps distinct nodes to distinct indices below N |
| SkeletonFile.EdgeIndicesDenotePoints | src/utils/fileio/SkeletonFile.cpp:195-198 | on a valid graph, both indices of edge line k are below N, and the points-file lines they select hold exactly the centres of edge k's two ends |
| SkeletonFile.BoundsDoc | src/utils/fileio/SkeletonFile.cpp:250-258 | the bounds file has one line per map entry, in ascending key order; each line lists the entry's boundary indices in list order, each followed by a space |
| SkeletonFile.BoundsAlignWithPoints | src/utils/fileio/SkeletonFile.cpp:250-258 | when the nodes are enumerated in increasing order and the map has exactly one entry per node, bounds line k belongs to the node on points line k |
| SkeletonFile.BoundsMisalignExample | src/utils/fileio/SkeletonFile.cpp:138-143 | for nodes enumerated as 1, 0, points line 0 is node 1 while bounds line 0 is node 0 |
| SkeletonFile.WriteSkeleton2D | src/utils/fileio/SkeletonFile.cpp:70-74 | the points, edges and bounds files are named `skelpoints_`, `skeledges_` and `skelbounds_` followed by the file name; each is written only if it opens, and nothing is printed |
| SkeletonFile.ObjDoc | src/utils/fileio/SkeletonFile.cpp:51-64 | one `v x y z` line per node in enumeration order, two blank lines, one `l` line per edge naming the raw identifiers of its ends, one blank line |
| SkeletonFile.WriteSkeletonObj | src/utils/fileio/SkeletonFile.cpp:38-68 | the OBJ layout is written under the file name itself only if it opens, and nothing is printed |
| SkeletonFile.ObjRawReferencesInvalid | src/utils/fileio/SkeletonFile.cpp:59-62 | the two-node graph with ids 0 and 1 and one edge gets the line `l 0 1`, which refers to no OBJ vertex |
| SkeletonFile.ObjDocOneBased | src/utils/fileio/SkeletonFile.cpp:51-64 | the corrected OBJ file has the same layout, with each `l` end numbered by its 1-based position among the `v` lines |
| SkeletonFile.ObjOneBasedReferencesValid | src/utils/fileio/SkeletonFile.cpp:59-62 | when every edge end is a node, every `l` record of the corrected file refers to vertices 1..N |
| SkeletonFile.ObjOneBasedNamesEnds | src/utils/fileio/SkeletonFile.cpp:51-62 | the corrected `l` record of edge k points at the `v` lines of exactly that edge's two ends |
| ExportOCaml.Script | src/utils/fileio/ExportOCaml.cpp:47-76 | the script has 2N + M + 5 lines: the `create` line, then blank lines closing each of the four passes |
| ExportOCaml.Export | src/utils/fileio/ExportOCaml.cpp:34-84 | when the file opens, the script is written with its values named after the base name; otherwise nothing is written and `Opening file error <filename>` is printed |
| ExportOCaml.DeclarationsInOrder | src/utils/fileio/ExportOCaml.cpp:50-66 | node k is declared as value k + 1 with its own disk, and `add_vertex` adds v1 .. vN in increasing order |
| ExportOCaml.NumberingIsBijection | src/utils/fileio/ExportOCaml.cpp:45-58 | with distinct identifiers, `m_nod` numbers the k-th node k + 1, and maps the nodes one-to-one onto 1..N |
| ExportOCaml.DeclaresNode | src/utils/fileio/ExportOCaml.cpp:55-57 | the declaration a node's `m_nod` number selects carries that node's disk |
| ExportOCaml.EdgeNamesDeclaredVertices | src/utils/fileio/ExportOCaml.cpp:68-76 | edge k gets an `add_edge` line whose two vertex numbers lie in 1..N and select the declarations of its two ends |
| ExportOCaml.LineCounts | src/utils/fileio/ExportOCaml.cpp:47-75 | the script binds N + 1 values with `let`, and holds N `add_vertex` lines and M `add_edge` lines |
| ExportSvg.Scaled | src/utils/fileio/ExportSVG.cpp:49 | `FAC*v` for an unsigned v is 4v whenever it fits in 32 bits |
| ExportSvg.CanvasWrapExample | src/utils/fileio/ExportSVG.cpp:49 | a height of 2^30 is scaled to 0 |
| ExportSvg.Label | src/utils/fileio/ExportSVG.cpp:77 | a node is labelled id + 1; the largest identifier wraps to 0 |
| ExportSvg.LabelsDistinct | src/utils/fileio/ExportSVG.cpp:77 | distinct nodes get distinct labels |
| ExportSvg.NodeMarks | src/utils/fileio/ExportSVG.cpp:64-78 | in enumeration order, each node gets its circle line followed by its label line |
| ExportSvg.Drawing | src/utils/fileio/ExportSVG.cpp:48-83 | the drawing has 2N + M + 9 lines: the XML declaration, the `<svg>` element sized by the scaled height and width, `<g>`, and the `<image>` element for the named picture; a blank line after the paths; and at the end two blank lines, `</g>` and `</svg>` |
| ExportSvg.Export | src/utils/fileio/ExportSVG.cpp:36-91 | when the file opens, the drawing is written over the image named after the base name; otherwise nothing is written and the error naming the file is printed |
| ExportSvg.CanvasIsScaled | src/utils/fileio/ExportSVG.cpp:49-52 | for sizes below 2^30, the canvas and the image are 4 times the given height and width, and the image reference is `./` then the name then `.png` |
| ExportSvg.PathJoinsEndpoints | src/utils/fileio/ExportSVG.cpp:54-61 | edge k is a path `M x1 y1 L x2 y2` between the scaled centres of its first and second end |
| ExportSvg.NodeIsMarked | src/utils/fileio/ExportSVG.cpp:64-78 | node i is a circle at its scaled centre, followed by a text element holding its label |
| ExportSvg.ElementCounts | src/utils/fileio/ExportSVG.cpp:54-78 | the drawing holds exactly M paths, N circles and N text elements |
| BranchFile.KnotLine | src/utils/fileio/BranchFile.cpp:48-50 | the knot line lists the knots in order, each followed by a space |
| BranchFile.BranchDoc | src/utils/fileio/BranchFile.cpp:45-60 | the file holds the degree, the knot count, the knot line (each knot followed by a space), the control-point count, and then one line per control point with its 4 rows |
| BranchFile.WriteBranch | src/utils/fileio/BranchFile.cpp:34-64 | when the file opens, a null function writes an empty file and a B-spline writes its layout; otherwise nothing is written; nothing is printed |
| BranchFile.Count | src/utils/fileio/BranchFile.cpp:73-77 | an unsigned count is read only from an integer token in 0 .. 2^32 - 1 |
| BranchFile.ReadValues | src/utils/fileio/BranchFile.cpp:79-83 | k doubles are read exactly when k numeric tokens follow, and the i-th value read is the i-th token's value |
| BranchFile.ReadColumns | src/utils/fileio/BranchFile.cpp:88-95 | c control points are read exactly when 4c numeric tokens follow; point i takes tokens 4i .. 4i + 3 as its rows 0 to 3 |
| BranchFile.ReadBranch | src/utils/fileio/BranchFile.cpp:66-106 | a file that cannot be opened gives a null function; a loaded B-spline matches the degree, the counts, the knots and all 4 rows of every control point in the tokens at their places |
| BranchFile.WrittenTokens | src/utils/fileio/BranchFile.cpp:45-60 | the numbers of the written file, read in order, are the degree, the knot count, the knots, the point count and the control points column by column |
| BranchFile.WrittenSeparated | src/utils/fileio/BranchFile.cpp:47-58 | no two numbers of a written file touch, so each one reads back as a token of its own |
| BranchFile.ReadWritten | src/utils/fileio/BranchFile.cpp:73-97 | reading back the file written for a B-spline whose counts fit an unsigned int gives that B-spline |
| BranchFile.WriteThenRead | src/utils/fileio/BranchFile.cpp:34-106 | writing a branch with a function and reading the file back gives the same branch |
| BranchFile.NullBranchNotRestored | src/utils/fileio/BranchFile.cpp:41-43 | the empty file written for a null function reads back as malformed; only a file that cannot be opened reads as a null function |
| Skeletonization2D.BranchEnds | src/soft/soft_2dskeletonization/main.cpp:69-77 | the accumulator is the sum of the degrees of the nodes of degree other than 2, modulo 2^32 |
| Skeletonization2D.BranchCount | src/soft/soft_2dskeletonization/main.cpp:78 | the count is half the accumulator rounded down, so it is always below 2^31 |
| Skeletonization2D.Int32Of | src/soft/soft_2dskeletonization/main.cpp:79 | converting an unsigned to int keeps it modulo 2^32, in -2^31 .. 2^31 - 1, and unchanged below 2^31 |
| Skeletonization2D.EvalSkel | src/soft/soft_2dskeletonization/main.cpp:59-82 | the evaluation is the symmetric-difference area in percent, the Hausdorff distance, the node count as int and the branch count, which is never negative |
| Skeletonization2D.BranchCountExact | src/soft/soft_2dskeletonization/main.cpp:69-78 | on a skeleton with fewer than 2^31 edges, the halving is exact, and the count is the number of edges less the number of degree-2 nodes |
| Skeletonization2D.AllDegreeTwoNoBranch | src/soft/soft_2dskeletonization/main.cpp:75-76 | a skeleton whose nodes all have degree 2 has no branch |
| Skeletonization2D.Main | src/soft/soft_2dskeletonization/main.cpp:108-175 | `--help` prints the options and returns 0; an unclosed boundary returns -1; once closed, the run fails exactly when the Hausdorff distance exceeds alpha, printing `erreur...`; on success it writes the skeleton files and the boundary when their names are given |
| Skeletonization2D.WritesOnlyOnSuccess | src/soft/soft_2dskeletonization/main.cpp:434-439 | skeleton files and the boundary file are written exactly when the run succeeds, it is not a help run, and their name is not empty |
| Skeletonization2D.FidelityBoundIsInclusive | src/soft/soft_2dskeletonization/main.cpp:171-175 | a Hausdorff distance equal to alpha passes |
| Skeletonization2D.OutcomeIgnoresArea | src/soft/soft_2dskeletonization/main.cpp:169-175 | the area of the symmetric difference has no effect on the run's outcome |

## Left out

- Streams, files and the console are not modelled as effects. Whether a file opens is the parameter `opens`. How a `double` is formatted is not modelled: numbers stay values.
- The algorithms `main` calls are the four parameters of `Skeletonization2D.Env`. These are boundary extraction, sphere propagation, the area of the symmetric difference and the Hausdorff distance. Their source is not part of this model.
- Image loading and thresholding are not modelled: `Main` receives the resulting shape as its `shape` argument.
- The filling of a shape from the skeleton that `EvalSkel` performs before measuring the area (main.cpp:63-64) is folded into the area parameter `symDiffArea`.
- Option parsing with boost is not modelled. Nor are the text of the options description, the `imgfile`, `output`, `fileimg` and `eval` options, the timers, and the OpenCV drawing and PNG output (main.cpp:441-457).
- The parameter sweep that is commented out in main.cpp (lines 177-432) is not modelled.
- `WriteBoundary2D` is not part of this model: `Main` records only the name the boundary is written under.
- The `soft_evalshape` program is not modelled.
- The exporters read each node's disk as node 0 of its branch towards its first neighbour. The model reads the node's own disk from the graph. When the file opens, it requires every node to have a neighbour, as the source does when it dereferences the first one. No neighbour is needed on the error path.
- The SVG path of an edge is drawn from the end nodes of the branch. The model takes these to be the disks of the edge's two ends.
- Counters that could pass 2^32 are not modelled. These are the `unsigned int` loop counters over nodes, knots and control points, and the OCaml counter `nb_nod`. The model uses unbounded positions.
- BranchFile.ReadBranch: a file whose tokens do not follow the layout reads as `Malformed`. The source instead builds a B-spline from whatever values the failed extractions left. A negative count, which `>>` into an `unsigned int` would wrap, is also read as malformed.
- BranchFile.ReadWritten: stated for counts below 2^32, because the writer's counts are the `unsigned` sizes of the knot vector and of the control matrix.
- Skeletonization2D.BranchCountExact: stated for fewer than 2^31 edges. Beyond that the `unsigned` accumulator wraps, and only the bounds of `BranchCount` hold.
- The B-spline itself is not modelled beyond its degree, knots and control points: neither its evaluation nor its validity. Nor is the `Classic<3>` model that `ReadBranch` attaches to the branch it returns.
- The boundary test on an empty boundary is modelled as failed: `getPrev(0)` has no vertex to read there.

## Findings

| source | as written | input that shows it | evidently intended | confidence | as-written member | corrected member |
|---|---|---|---|---|---|---|
| src/utils/fileio/SkeletonFile.cpp:59-62 | each `l` record carries the raw node identifiers of the edge's ends | a skeleton with nodes 0 and 1 and the edge (0, 1) gives `l 0 1`; OBJ vertex references are 1-based, so 0 denotes no vertex | each end is numbered by its 1-based position among the `v` lines | not executed | SkeletonFile.ObjRawReferencesInvalid | SkeletonFile.ObjOneBasedReferencesValid |
