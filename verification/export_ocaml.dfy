/** `ExportOCaml`: a 2D skeleton as an OCaml script that builds the graph
    with `create`, `createv`, `add_vertex` and `add_edge`. Nodes are
    renumbered 1..N in enumeration order through the map `m_nod`. */
module ExportOCaml {
  import opened Output
  import opened SkeletonGraph
  import opened Numbering

  const OpenError: string := "Opening file error "

  /** `let <name> = create ();;` */
  function CreateLine(name: string): Line
  {
    [Text("let "), Text(name), Text(" = create ();;")]
  }

  /** `let <name>v<k> = createv (<k>, (<cx>, <cy>), <r>);;` */
  function VertexDeclLine(name: string, k: int, d: Disk): Line
  {
    [ Text("let "), Text(name), Text("v"), Int(k), Text(" = "),
      Text("createv ("), Int(k), Text(", ("), Real(d.cx), Text(", "), Real(d.cy),
      Text("), "), Real(d.r), Text(");;") ]
  }

  /** `add_vertex <name> <name>v<i>;;` */
  function AddVertexLine(name: string, i: int): Line
  {
    [Text("add_vertex "), Text(name), Text(" "), Text(name), Text("v"), Int(i), Text(";;")]
  }

  /** `add_edge <name> <name>v<a> <name>v<b>;;` */
  function AddEdgeLine(name: string, a: int, b: int): Line
  {
    [ Text("add_edge "), Text(name), Text(" "), Text(name), Text("v"), Int(a),
      Text(" "), Text(name), Text("v"), Int(b), Text(";;") ]
  }

  /** Line j of the script, following the writer's four passes: the
      `create` line and a blank line; one declaration per node (the counter
      `nb_nod` runs from 1) and a blank line; `add_vertex` for v1 .. vN and a
      blank line; one `add_edge` per edge, its extremities numbered through
      `m_nod` (0 for one that is not enumerated), and a blank line. */
  function ScriptLine(g: Graph<Disk>, name: string, j: nat): Line
    requires Located(g)
  {
    var n, m := |g.nodes|, |g.edges|;
    if j == 0 then CreateLine(name)
    else if 2 <= j < n + 2 then VertexDeclLine(name, j - 1, g.geom[g.nodes[j - 2]])
    else if n + 3 <= j < 2 * n + 3 then AddVertexLine(name, j - n - 2)
    else if 2 * n + 4 <= j < 2 * n + 4 + m then
      var e, num := g.edges[j - 2 * n - 4], Enumerate(g.nodes, 1);
      AddEdgeLine(name, At(num, e.first), At(num, e.second))
    else []
  }

  /** The text written for `name`. Each node's disk is read from the branch
      towards its first neighbour, which is why every node needs one. */
  function Script(g: Graph<Disk>, name: string): (doc: Doc)
    requires Located(g) && NoIsolatedNode(g)
    ensures |doc| == 2 * |g.nodes| + |g.edges| + 5
    ensures doc[0] == CreateLine(name)
    ensures doc[1] == [] && doc[|g.nodes| + 2] == [] && doc[2 * |g.nodes| + 3] == [] && doc[|doc| - 1] == []
  {
    seq(2 * |g.nodes| + |g.edges| + 5, j requires 0 <= j => ScriptLine(g, name, j))
  }

  /** `ExportOCaml`: the script under `filename`, its values named after
      the part of `filename` before the first '.'; when the file cannot be
      opened, nothing is written and an error naming it is printed. Only
      the script reads the nodes' neighbours, so only then must every node
      have one. */
  function Export(g: Graph<Disk>, filename: string, opens: string -> bool): (w: Written)
    requires Located(g) && (opens(filename) ==> NoIsolatedNode(g))
    ensures w.path == filename
    ensures w.lines.Some? <==> opens(filename)
    ensures w.lines.Some? ==> w.lines.value == Script(g, Stem(filename))
    ensures w.console == if opens(filename) then [] else [[Text(OpenError), Text(filename)]]
  {
    if opens(filename) then Written(filename, Some(Script(g, Stem(filename))), [])
    else Written(filename, None, [[Text(OpenError), Text(filename)]])
  }

  /** The k-th enumerated node is declared as value k + 1 with its own disk,
      and the `add_vertex` lines add v1 .. vN in increasing order. */
  lemma DeclarationsInOrder(g: Graph<Disk>, name: string)
    requires Located(g) && NoIsolatedNode(g)
    ensures var doc, n := Script(g, name), |g.nodes|;
            forall k :: 0 <= k < n ==> doc[k + 2] == VertexDeclLine(name, k + 1, g.geom[g.nodes[k]])
    ensures var doc, n := Script(g, name), |g.nodes|;
            forall i :: 1 <= i <= n ==> doc[n + 2 + i] == AddVertexLine(name, i)
  {
    var doc, n := Script(g, name), |g.nodes|;
    forall k | 0 <= k < n
      ensures doc[k + 2] == VertexDeclLine(name, k + 1, g.geom[g.nodes[k]])
    {
      assert doc[k + 2] == ScriptLine(g, name, k + 2);
    }
    forall i | 1 <= i <= n
      ensures doc[n + 2 + i] == AddVertexLine(name, i)
    {
      assert doc[n + 2 + i] == ScriptLine(g, name, n + 2 + i);
    }
  }

  /** With distinct identifiers `m_nod` is a bijection from the nodes onto
      1..N that numbers the k-th node k + 1. */
  lemma NumberingIsBijection(g: Graph<Disk>)
    requires Distinct(g.nodes)
    ensures var num := Enumerate(g.nodes, 1);
            forall k :: 0 <= k < |g.nodes| ==> At(num, g.nodes[k]) == k + 1
    ensures var num := Enumerate(g.nodes, 1);
            forall x, y :: x in g.nodes && y in g.nodes && x != y ==> At(num, x) != At(num, y)
    ensures var num := Enumerate(g.nodes, 1);
            forall x :: x in g.nodes ==> 1 <= At(num, x) <= |g.nodes|
  {
    var num := Enumerate(g.nodes, 1);
    forall k | 0 <= k < |g.nodes|
      ensures At(num, g.nodes[k]) == k + 1
    {
      EnumerateDistinct(g.nodes, 1, k);
    }
    forall x, y | x in g.nodes && y in g.nodes && x != y
      ensures At(num, x) != At(num, y)
    {
      EnumerateInjective(g.nodes, 1, x, y);
    }
  }

  /** The declaration a node's `m_nod` number points at carries that node's disk. */
  lemma DeclaresNode(g: Graph<Disk>, name: string, x: NodeId)
    requires Located(g) && NoIsolatedNode(g)
    requires x in g.nodes
    ensures var a := At(Enumerate(g.nodes, 1), x);
            1 <= a <= |g.nodes| && Script(g, name)[a + 1] == VertexDeclLine(name, a, g.geom[x])
  {
    EnumeratePosition(g.nodes, 1, x);
    var a := At(Enumerate(g.nodes, 1), x);
    assert Script(g, name)[a + 1] == ScriptLine(g, name, a + 1);
  }

  /** Edge k gets one `add_edge` line, whose two vertex numbers lie in 1..N
      and name the values declared with the disks of the edge's extremities. */
  lemma EdgeNamesDeclaredVertices(g: Graph<Disk>, name: string, k: nat)
    requires Located(g) && NoIsolatedNode(g) && EndpointsAreNodes(g.nodes, g.edges)
    requires k < |g.edges|
    ensures var doc, num, n, e := Script(g, name), Enumerate(g.nodes, 1), |g.nodes|, g.edges[k];
            var a, b := At(num, e.first), At(num, e.second);
            && 1 <= a <= n && 1 <= b <= n
            && doc[2 * n + 4 + k] == AddEdgeLine(name, a, b)
            && doc[a + 1] == VertexDeclLine(name, a, g.geom[e.first])
            && doc[b + 1] == VertexDeclLine(name, b, g.geom[e.second])
  {
    var e, n := g.edges[k], |g.nodes|;
    assert e in g.edges;
    DeclaresNode(g, name, e.first);
    DeclaresNode(g, name, e.second);
    EdgeLine(g, name, k);
  }

  lemma EdgeLine(g: Graph<Disk>, name: string, k: nat)
    requires Located(g) && NoIsolatedNode(g)
    requires k < |g.edges|
    ensures var num, e := Enumerate(g.nodes, 1), g.edges[k];
            Script(g, name)[2 * |g.nodes| + 4 + k] == AddEdgeLine(name, At(num, e.first), At(num, e.second))
  {
    var j := 2 * |g.nodes| + 4 + k;
    assert Script(g, name)[j] == ScriptLine(g, name, j);
  }

  /** The script binds N + 1 values with `let`, adds N vertices and M edges. */
  lemma LineCounts(g: Graph<Disk>, name: string)
    requires Located(g) && NoIsolatedNode(g)
    ensures CountOpening(Script(g, name), "add_vertex ") == |g.nodes|
    ensures CountOpening(Script(g, name), "add_edge ") == |g.edges|
    ensures CountOpening(Script(g, name), "let ") == |g.nodes| + 1
  {
    var doc := Script(g, name);
    var n, m := |g.nodes|, |g.edges|;
    forall k | 0 <= k < |doc|
      ensures Opens(doc[k], "add_vertex ") <==> n + 3 <= k < 2 * n + 3
      ensures Opens(doc[k], "add_edge ") <==> 2 * n + 4 <= k < 2 * n + 4 + m
      ensures Opens(doc[k], "let ") <==> k == 0 || 2 <= k < n + 2
    {
      assert doc[k] == ScriptLine(g, name, k);
    }
    CountOpeningRange(doc, "add_vertex ", n + 3, 2 * n + 3);
    CountOpeningRange(doc, "add_edge ", 2 * n + 4, 2 * n + 4 + m);
    var rest := doc[1..];
    assert forall k :: 0 <= k < |rest| ==> rest[k] == doc[k + 1];
    CountOpeningRange(rest, "let ", 1, n + 1);
    CountOpeningAppend([doc[0]], rest, "let ");
    assert [doc[0]] + rest == doc;
  }
}
