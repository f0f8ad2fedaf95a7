/** `ExportSVG`: a 2D skeleton drawn over its source image, scaled by
    `FAC` = 4: one path per edge, then a circle and a label per node. */
module ExportSvg {
  import opened Output
  import opened SkeletonGraph

  const OpenError: string := "Opening file error "

  /** `FAC*height`, FAC being 4 and `height` an `unsigned int`: the
      product wraps modulo 2^32. */
  function Scaled(v: u32): (s: u32)
    ensures v < U32 / 4 ==> s == 4 * v
  {
    (4 * v) % 0x1_0000_0000
  }

  /** The label `(*it)+1` of a node, computed in `unsigned int`. */
  function Label(x: NodeId): (l: u32)
    ensures x < U32 - 1 ==> l == x + 1
    ensures x == U32 - 1 ==> l == 0
  {
    (x + 1) % 0x1_0000_0000
  }

  /** A coordinate `FAC*c` of a double, FAC being 4. */
  function Coord(c: real): real
  {
    4.0 * c
  }

  // The literal text of the drawing.
  const XmlDecl: string := "<?xml version=\"1.0\" encoding=\"UTF-8\" standalone=\"no\"?>"
  const SvgOpen: string := "<svg height=\""
  const PxWidth: string := "px\" width=\""
  const PxClose: string := "px\">"
  const GroupOpen: string := "<g>"
  const GroupClose: string := "</g>"
  const SvgClose: string := "</svg>"
  const ImageOpen: string := "<image xlink:href=\"./"
  const ImageAttrs: string := ".png\" x=\"0\" y=\"0\" height=\""
  const WidthAttr: string := "\" width=\""
  const ImageClose: string := "\"/>"
  const PathOpen: string := "<path d=\"M "
  const Space: string := " "
  const LineTo: string := " L "
  const PathStyle: string := "\" style=\"stroke:#000000;stroke-width:4\" />"
  const CircleOpen: string := "<circle"
  const Radius: string := "  r=\"20px\""
  const CyAttr: string := " cy=\""
  const CxAttr: string := " cx=\""
  const Quote: string := "\""
  const CircleStyle: string := " style=\"color:#000000;fill:#ffffff;stroke:#000000;stroke-width:4\" />"
  const TextOpen: string := "<text y=\""
  const XAttr: string := " x=\""
  const FontStyle: string := " style=\"font-size:15px\">"
  const TextClose: string := "</text>"

  function SvgOpenLine(width: u32, height: u32): Line
  {
    [Text(SvgOpen), Int(Scaled(height)), Text(PxWidth), Int(Scaled(width)), Text(PxClose)]
  }

  function ImageLine(name: string, width: u32, height: u32): Line
  {
    [Text(ImageOpen), Text(name), Text(ImageAttrs), Int(Scaled(height)), Text(WidthAttr), Int(Scaled(width)), Text(ImageClose)]
  }

  /** `<path d="M x1 y1 L x2 y2 " .../>` from one disk centre to the other. */
  function PathLine(a: Disk, b: Disk): Line
  {
    [ Text(PathOpen), Real(Coord(a.cx)), Text(Space), Real(Coord(a.cy)),
      Text(LineTo), Real(Coord(b.cx)), Text(Space), Real(Coord(b.cy)), Text(Space),
      Text(PathStyle) ]
  }

  /** A circle of fixed radius 20px at the disk centre. */
  function CircleLine(d: Disk): Line
  {
    [ Text(CircleOpen), Text(Radius), Text(CyAttr), Real(Coord(d.cy)), Text(Quote),
      Text(CxAttr), Real(Coord(d.cx)), Text(Quote), Text(CircleStyle) ]
  }

  /** The node's label, shifted 3 units left of its centre. */
  function LabelLine(x: NodeId, d: Disk): Line
  {
    [ Text(TextOpen), Real(Coord(d.cy)), Text(Quote), Text(XAttr), Real(Coord(d.cx - 3.0)), Text(Quote),
      Text(FontStyle), Int(Label(x)), Text(TextClose) ]
  }

  /** Graphs the exporter can draw: every node and every edge end has its disk. */
  predicate Drawable(g: Graph<Disk>)
  {
    Located(g) && EndpointsAreNodes(g.nodes, g.edges)
  }

  /** The node marks, in enumeration order: the circle of each node
      followed by its label. */
  function NodeMarks(geom: map<NodeId, Disk>, ids: seq<NodeId>): (doc: Doc)
    requires forall x :: x in ids ==> x in geom
    ensures |doc| == 2 * |ids|
    ensures forall i :: 0 <= i < |ids| ==>
              doc[2 * i] == CircleLine(geom[ids[i]]) && doc[2 * i + 1] == LabelLine(ids[i], geom[ids[i]])
  {
    if |ids| == 0 then []
    else
      var init, x := ids[..|ids| - 1], ids[|ids| - 1];
      assert forall y :: y in init ==> y in ids;
      NodeMarks(geom, init) + [CircleLine(geom[x]), LabelLine(x, geom[x])]
  }

  /** Line j of the opening of the drawing: the XML declaration, `<svg>`,
      `<g>` and the image, a path per edge and a blank line. */
  function HeaderLine(g: Graph<Disk>, name: string, width: u32, height: u32, j: nat): Line
    requires Drawable(g)
  {
    if j == 0 then [Text(XmlDecl)]
    else if j == 1 then SvgOpenLine(width, height)
    else if j == 2 then [Text(GroupOpen)]
    else if j == 3 then ImageLine(name, width, height)
    else if 4 <= j < |g.edges| + 4 then
      var e := g.edges[j - 4];
      assert e in g.edges;
      PathLine(g.geom[e.first], g.geom[e.second])
    else []
  }

  function Header(g: Graph<Disk>, name: string, width: u32, height: u32): (doc: Doc)
    requires Drawable(g)
    ensures |doc| == |g.edges| + 5
  {
    seq(|g.edges| + 5, j requires 0 <= j => HeaderLine(g, name, width, height, j))
  }

  /** Two blank lines, then `</g>` and `</svg>`. */
  const Closing: Doc := [[], [], [Text(GroupClose)], [Text(SvgClose)]]

  /** The drawing written for `name` (the image `./<name>.png` underlies it):
      the header, the node marks and the closing lines. Each node's disk is
      read from the branch towards its first neighbour, which is why every
      node needs one. */
  function Drawing(g: Graph<Disk>, name: string, width: u32, height: u32): (doc: Doc)
    requires Drawable(g) && NoIsolatedNode(g)
    ensures |doc| == 2 * |g.nodes| + |g.edges| + 9
    ensures doc[0] == [Text(XmlDecl)] && doc[2] == [Text(GroupOpen)]
    ensures doc[1] == SvgOpenLine(width, height)
    ensures doc[3] == ImageLine(name, width, height)
    ensures doc[|g.edges| + 4] == [] && doc[|doc| - 4] == [] && doc[|doc| - 3] == []
    ensures doc[|doc| - 2] == [Text(GroupClose)] && doc[|doc| - 1] == [Text(SvgClose)]
  {
    var head := Header(g, name, width, height);
    assert head[0] == HeaderLine(g, name, width, height, 0);
    assert head[1] == HeaderLine(g, name, width, height, 1);
    assert head[2] == HeaderLine(g, name, width, height, 2);
    assert head[3] == HeaderLine(g, name, width, height, 3);
    assert head[|g.edges| + 4] == HeaderLine(g, name, width, height, |g.edges| + 4);
    head + NodeMarks(g.geom, g.nodes) + Closing
  }

  /** `ExportSVG`: the drawing under `filename`, the image named after the
      part of `filename` before the first '.'; when the file cannot be
      opened, nothing is written and an error naming it is printed. Only
      the drawing reads the nodes' neighbours, so only then must every node
      have one. */
  function Export(g: Graph<Disk>, filename: string, width: u32, height: u32, opens: string -> bool): (w: Written)
    requires Drawable(g) && (opens(filename) ==> NoIsolatedNode(g))
    ensures w.path == filename
    ensures w.lines.Some? <==> opens(filename)
    ensures w.lines.Some? ==> w.lines.value == Drawing(g, Stem(filename), width, height)
    ensures w.console == if opens(filename) then [] else [[Text(OpenError), Text(filename)]]
  {
    if opens(filename) then Written(filename, Some(Drawing(g, Stem(filename), width, height)), [])
    else Written(filename, None, [[Text(OpenError), Text(filename)]])
  }

  /** The canvas and the embedded image are FAC times the given size, and
      the image is `./<name>.png`. */
  lemma CanvasIsScaled(g: Graph<Disk>, name: string, width: u32, height: u32)
    requires Drawable(g) && NoIsolatedNode(g)
    requires width < U32 / 4 && height < U32 / 4
    ensures var doc := Drawing(g, name, width, height);
            && doc[1][1] == Int(4 * height) && doc[1][3] == Int(4 * width)
            && doc[3][0] == Text(ImageOpen) && doc[3][1] == Text(name) && doc[3][2] == Text(ImageAttrs)
            && doc[3][3] == Int(4 * height) && doc[3][5] == Int(4 * width)
  {
    var head := Header(g, name, width, height);
    assert head[1] == HeaderLine(g, name, width, height, 1);
    assert head[3] == HeaderLine(g, name, width, height, 3);
  }

  /** Without the bound the unsigned product wraps: a height of 2^30 is
      drawn as 0 pixels. */
  lemma CanvasWrapExample()
    ensures Scaled(0x4000_0000) == 0
  {
  }

  /** Edge k is drawn as the SVG path data `M x1 y1 L x2 y2` (a moveto then
      a lineto, section 8.3 of the SVG 1.1 Recommendation) from the scaled
      centre of its first extremity's disk to that of its second. */
  lemma PathJoinsEndpoints(g: Graph<Disk>, name: string, width: u32, height: u32, k: nat)
    requires Drawable(g) && NoIsolatedNode(g)
    requires k < |g.edges|
    ensures g.edges[k].first in g.geom && g.edges[k].second in g.geom
    ensures var line, a, b := Drawing(g, name, width, height)[k + 4], g.geom[g.edges[k].first], g.geom[g.edges[k].second];
            && |line| == 10
            && line[0] == Text(PathOpen) && line[4] == Text(LineTo)
            && line[1] == Real(4.0 * a.cx) && line[3] == Real(4.0 * a.cy)
            && line[5] == Real(4.0 * b.cx) && line[7] == Real(4.0 * b.cy)
  {
    var e := g.edges[k];
    assert e in g.edges;
    var head := Header(g, name, width, height);
    assert head[k + 4] == HeaderLine(g, name, width, height, k + 4);
  }

  /** Node i is drawn as a circle at its scaled centre followed by its
      label `id + 1`. */
  lemma NodeIsMarked(g: Graph<Disk>, name: string, width: u32, height: u32, i: nat)
    requires Drawable(g) && NoIsolatedNode(g)
    requires i < |g.nodes|
    ensures g.nodes[i] in g.geom
    ensures var doc, m, d := Drawing(g, name, width, height), |g.edges|, g.geom[g.nodes[i]];
            && doc[m + 5 + 2 * i] == CircleLine(d)
            && doc[m + 5 + 2 * i][3] == Real(4.0 * d.cy) && doc[m + 5 + 2 * i][6] == Real(4.0 * d.cx)
            && doc[m + 6 + 2 * i] == LabelLine(g.nodes[i], d)
            && doc[m + 6 + 2 * i][7] == Int(Label(g.nodes[i]))
  {
  }

  /** Distinct nodes carry distinct labels, also across the wrap of the
      largest identifier to 0. */
  lemma LabelsDistinct(x: NodeId, y: NodeId)
    requires x != y
    ensures Label(x) != Label(y)
  {
  }

  /** The element tags differ in their second character. */
  lemma TagsDiffer()
    ensures CircleOpen != TextOpen && CircleOpen != PathOpen && TextOpen != PathOpen
    ensures CircleOpen[1] != '/' && TextOpen[1] != '/' && PathOpen[1] != '/'
  {
    assert CircleOpen[1] == 'c' && TextOpen[1] == 't' && PathOpen[1] == 'p';
  }

  /** The closing lines open no element. */
  lemma ClosingCounts(tag: string)
    requires |tag| > 1 && tag[1] != '/'
    ensures CountOpening(Closing, tag) == 0
  {
    assert GroupClose[1] == '/' && SvgClose[1] == '/';
    forall k | 0 <= k < |Closing|
      ensures !Opens(Closing[k], tag)
    {
    }
    CountOpeningNone(Closing, tag);
  }

  /** The node marks hold one circle and one label per node, and no path. */
  lemma {:induction false} NodeMarksCounts(geom: map<NodeId, Disk>, ids: seq<NodeId>)
    requires forall x :: x in ids ==> x in geom
    ensures CountOpening(NodeMarks(geom, ids), CircleOpen) == |ids|
    ensures CountOpening(NodeMarks(geom, ids), TextOpen) == |ids|
    ensures CountOpening(NodeMarks(geom, ids), PathOpen) == 0
  {
    if |ids| > 0 {
      var init, x := ids[..|ids| - 1], ids[|ids| - 1];
      assert forall y :: y in init ==> y in ids;
      NodeMarksCounts(geom, init);
      var pair := [CircleLine(geom[x]), LabelLine(x, geom[x])];
      assert NodeMarks(geom, ids) == NodeMarks(geom, init) + pair;
      CountOpeningAppend(NodeMarks(geom, init), pair, CircleOpen);
      CountOpeningAppend(NodeMarks(geom, init), pair, TextOpen);
      CountOpeningAppend(NodeMarks(geom, init), pair, PathOpen);
      TagsDiffer();
      CountOpeningPair(pair[0], pair[1], CircleOpen);
      CountOpeningPair(pair[0], pair[1], TextOpen);
      CountOpeningPair(pair[0], pair[1], PathOpen);
    }
  }

  /** The header holds one path per edge and no circle or label. */
  lemma HeaderCounts(g: Graph<Disk>, name: string, width: u32, height: u32)
    requires Drawable(g)
    ensures CountOpening(Header(g, name, width, height), PathOpen) == |g.edges|
    ensures CountOpening(Header(g, name, width, height), CircleOpen) == 0
    ensures CountOpening(Header(g, name, width, height), TextOpen) == 0
  {
    var head, m := Header(g, name, width, height), |g.edges|;
    TagsDiffer();
    forall k | 0 <= k < |head|
      ensures Opens(head[k], PathOpen) <==> 4 <= k < m + 4
      ensures !Opens(head[k], CircleOpen) && !Opens(head[k], TextOpen)
    {
      assert head[k] == HeaderLine(g, name, width, height, k);
    }
    CountOpeningRange(head, PathOpen, 4, m + 4);
    CountOpeningNone(head, CircleOpen);
    CountOpeningNone(head, TextOpen);
  }

  /** One path per edge, one circle and one label per node. */
  lemma ElementCounts(g: Graph<Disk>, name: string, width: u32, height: u32)
    requires Drawable(g) && NoIsolatedNode(g)
    ensures CountOpening(Drawing(g, name, width, height), PathOpen) == |g.edges|
    ensures CountOpening(Drawing(g, name, width, height), CircleOpen) == |g.nodes|
    ensures CountOpening(Drawing(g, name, width, height), TextOpen) == |g.nodes|
  {
    var head, marks := Header(g, name, width, height), NodeMarks(g.geom, g.nodes);
    HeaderCounts(g, name, width, height);
    NodeMarksCounts(g.geom, g.nodes);
    TagsDiffer();
    ClosingCounts(PathOpen);
    ClosingCounts(CircleOpen);
    ClosingCounts(TextOpen);
    CountOpeningAppend(head, marks, PathOpen);
    CountOpeningAppend(head, marks, CircleOpen);
    CountOpeningAppend(head, marks, TextOpen);
    CountOpeningAppend(head + marks, Closing, PathOpen);
    CountOpeningAppend(head + marks, Closing, CircleOpen);
    CountOpeningAppend(head + marks, Closing, TextOpen);
  }
}
