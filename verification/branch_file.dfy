/** The branch file: a B-spline branch of a continuous 3D skeleton as a
    whitespace-separated text, written by `WriteBranch` and read back by
    `ReadBranch`. */
module BranchFile {
  import opened Output

  /** One column of the 4 x C control matrix, rows 0 to 3. */
  datatype Column = Column(v0: real, v1: real, v2: real, v3: real)

  /** A `Bspline<4>`: its degree, its knot vector (the "node vector") and
      its control points. */
  datatype Bspline = Bspline(degree: u32, knots: seq<real>, ctrl: seq<Column>)

  /** A `BranchContSkel3d`, reduced to its node function, which may be null. */
  datatype Branch = Branch(fun: Option<Bspline>)

  /** What reading a file gives: a branch, or, for a file whose tokens do
      not follow the layout, no defined B-spline. */
  datatype ReadResult = Loaded(branch: Branch) | Malformed

  const Sep: string := " "

  // ---------------------------------------------------------------- writer

  /** The knots, each followed by a space. */
  function KnotLine(ks: seq<real>): (line: Line)
    ensures |line| == 2 * |ks|
    ensures forall i :: 0 <= i < |line| ==> line[i] == if i % 2 == 0 then Real(ks[i / 2]) else Text(Sep)
  {
    if |ks| == 0 then [] else [Real(ks[0]), Text(Sep)] + KnotLine(ks[1..])
  }

  /** A control point: its 4 rows, each followed by a space. */
  function ColumnLine(c: Column): Line
  {
    [Real(c.v0), Text(Sep), Real(c.v1), Text(Sep), Real(c.v2), Text(Sep), Real(c.v3), Text(Sep)]
  }

  function ColumnLines(cs: seq<Column>): (doc: Doc)
    ensures |doc| == |cs|
  {
    seq(|cs|, i requires 0 <= i < |cs| => ColumnLine(cs[i]))
  }

  /** The file for a B-spline: the degree, the knot count, the knots, the
      control point count, then one line per control point. */
  function BranchDoc(b: Bspline): (doc: Doc)
    ensures |doc| == 4 + |b.ctrl|
    ensures doc[0] == [Int(b.degree)] && doc[1] == [Int(|b.knots|)] && doc[3] == [Int(|b.ctrl|)]
    ensures doc[2] == KnotLine(b.knots)
    ensures forall i :: 0 <= i < |b.ctrl| ==> doc[4 + i] == ColumnLine(b.ctrl[i])
  {
    [[Int(b.degree)], [Int(|b.knots|)], KnotLine(b.knots), [Int(|b.ctrl|)]] + ColumnLines(b.ctrl)
  }

  /** `WriteBranch`: when the file opens, the B-spline's layout, or nothing
      at all for a branch whose function is null; nothing is printed. */
  function WriteBranch(br: Branch, filename: string, opens: string -> bool): (w: Written)
    ensures w.path == filename && w.console == []
    ensures w.lines.Some? <==> opens(filename)
    ensures opens(filename) && br.fun.None? ==> w.lines == Some([])
    ensures opens(filename) && br.fun.Some? ==> w.lines == Some(BranchDoc(br.fun.value))
  {
    if !opens(filename) then Written(filename, None, [])
    else match br.fun
      case None => Written(filename, Some([]), [])
      case Some(b) => Written(filename, Some(BranchDoc(b)), [])
  }

  // ---------------------------------------------------------------- tokens

  predicate IsNumber(p: Piece)
  {
    !p.Text?
  }

  /** The numbers of a line, in order. */
  function Numbers(line: Line): (ts: seq<Piece>)
    ensures forall t :: t in ts ==> IsNumber(t)
  {
    if |line| == 0 then []
    else (if IsNumber(line[0]) then [line[0]] else []) + Numbers(line[1..])
  }

  /** The numbers of a document, line after line: what `>>` extracts from
      the text, provided no two numbers touch (see `Separated`). */
  function Tokens(doc: Doc): (ts: seq<Piece>)
  {
    if |doc| == 0 then [] else Numbers(doc[0]) + Tokens(doc[1..])
  }

  /** No two numbers are written next to each other on a line, so each one
      reads back as a token of its own. */
  predicate Separated(doc: Doc)
  {
    forall l, k :: 0 <= l < |doc| && 0 <= k < |doc[l]| - 1 && IsNumber(doc[l][k]) ==> !IsNumber(doc[l][k + 1])
  }

  /** The token stream of a B-spline's file, as the reader expects it. */
  function Layout(b: Bspline): (ts: seq<Piece>)
    ensures |ts| == 3 + |b.knots| + 4 * |b.ctrl|
  {
    HeadTokens(b) + ColumnTokens(b.ctrl)
  }

  /** The degree, the knot count, the knots and the control point count. */
  function HeadTokens(b: Bspline): (ts: seq<Piece>)
    ensures |ts| == 3 + |b.knots|
  {
    var k := |b.knots|;
    seq(3 + k, j requires 0 <= j < 3 + k =>
      if j == 0 then Int(b.degree) else if j == 1 then Int(k) else if j < 2 + k then Real(b.knots[j - 2]) else Int(|b.ctrl|))
  }

  function RealTokens(xs: seq<real>): (ts: seq<Piece>)
    ensures |ts| == |xs|
  {
    seq(|xs|, i requires 0 <= i < |xs| => Real(xs[i]))
  }

  /** The control points column by column, each column's rows 0 to 3. */
  function ColumnTokens(cs: seq<Column>): (ts: seq<Piece>)
    ensures |ts| == 4 * |cs|
    ensures forall i :: 0 <= i < |cs| ==>
              && ts[4 * i] == Real(cs[i].v0) && ts[4 * i + 1] == Real(cs[i].v1)
              && ts[4 * i + 2] == Real(cs[i].v2) && ts[4 * i + 3] == Real(cs[i].v3)
  {
    if |cs| == 0 then []
    else
      var c := cs[|cs| - 1];
      ColumnTokens(cs[..|cs| - 1]) + [Real(c.v0), Real(c.v1), Real(c.v2), Real(c.v3)]
  }

  // ---------------------------------------------------------------- reader

  /** An `unsigned int` extracted with `>>`. */
  function Count(t: Piece): (r: Option<u32>)
    ensures r.Some? <==> t.Int? && 0 <= t.n < U32
    ensures r.Some? ==> t == Int(r.value)
  {
    if t.Int? && 0 <= t.n < U32 then Some(t.n) else None
  }

  /** A `double` extracted with `>>`: a written integer reads as its value. */
  function Value(t: Piece): (r: Option<real>)
    ensures r.Some? <==> IsNumber(t)
    ensures t.Real? ==> r == Some(t.x)
  {
    match t
    case Real(x) => Some(x)
    case Int(n) => Some(n as real)
    case Text(_) => None
  }

  /** k doubles read from position `pos` on. */
  function ReadValues(toks: seq<Piece>, pos: nat, k: nat): (r: Option<seq<real>>)
    requires pos <= |toks|
    ensures r.Some? <==> pos + k <= |toks| && forall i :: pos <= i < pos + k ==> IsNumber(toks[i])
    ensures r.Some? ==> |r.value| == k && forall i :: 0 <= i < k ==> Value(toks[pos + i]) == Some(r.value[i])
  {
    if k == 0 then Some([])
    else
      var init := ReadValues(toks, pos, k - 1);
      if init.None? || pos + k - 1 >= |toks| then None
      else match Value(toks[pos + k - 1])
        case None => None
        case Some(v) => Some(init.value + [v])
  }

  /** c control points read from position `pos` on: the 4 rows of column 0,
      then those of column 1, and so on. */
  function ReadColumns(toks: seq<Piece>, pos: nat, c: nat): (r: Option<seq<Column>>)
    requires pos <= |toks|
    ensures r.Some? <==> pos + 4 * c <= |toks| && forall i :: pos <= i < pos + 4 * c ==> IsNumber(toks[i])
    ensures r.Some? ==> |r.value| == c
    ensures r.Some? ==> forall i :: 0 <= i < c ==>
              && Value(toks[pos + 4 * i]) == Some(r.value[i].v0)
              && Value(toks[pos + 4 * i + 1]) == Some(r.value[i].v1)
              && Value(toks[pos + 4 * i + 2]) == Some(r.value[i].v2)
              && Value(toks[pos + 4 * i + 3]) == Some(r.value[i].v3)
  {
    match ReadValues(toks, pos, 4 * c)
    case None => None
    case Some(vs) =>
      Some(seq(c, i requires 0 <= i < c => Column(vs[4 * i], vs[4 * i + 1], vs[4 * i + 2], vs[4 * i + 3])))
  }

  /** `ReadBranch`: a file that cannot be opened gives a branch with a null
      function; otherwise the degree, the knot count and the knots, the
      control point count and the control points are read in that order,
      and whatever follows is ignored. */
  function ReadBranch(file: Option<seq<Piece>>): (r: ReadResult)
    ensures file.None? ==> r == Loaded(Branch(None))
    ensures file.Some? && r.Loaded? ==> r.branch.fun.Some?
    ensures file.Some? && r.Loaded? ==>
              var toks, b := file.value, r.branch.fun.value;
              && 3 + |b.knots| + 4 * |b.ctrl| <= |toks|
              && toks[0] == Int(b.degree) && toks[1] == Int(|b.knots|)
              && toks[2 + |b.knots|] == Int(|b.ctrl|)
              && (forall i :: 0 <= i < |b.knots| ==> Value(toks[2 + i]) == Some(b.knots[i]))
              && (forall i :: 0 <= i < |b.ctrl| ==>
                    && Value(toks[3 + |b.knots| + 4 * i]) == Some(b.ctrl[i].v0)
                    && Value(toks[3 + |b.knots| + 4 * i + 1]) == Some(b.ctrl[i].v1)
                    && Value(toks[3 + |b.knots| + 4 * i + 2]) == Some(b.ctrl[i].v2)
                    && Value(toks[3 + |b.knots| + 4 * i + 3]) == Some(b.ctrl[i].v3))
  {
    match file
    case None => Loaded(Branch(None))
    case Some(toks) =>
      if |toks| < 2 then Malformed
      else match (Count(toks[0]), Count(toks[1]))
        case (Some(degree), Some(nbnod)) =>
          (match ReadValues(toks, 2, nbnod)
           case None => Malformed
           case Some(knots) =>
             if |toks| <= 2 + nbnod then Malformed
             else match Count(toks[2 + nbnod])
               case None => Malformed
               case Some(nbctrl) =>
                 match ReadColumns(toks, 3 + nbnod, nbctrl)
                 case None => Malformed
                 case Some(ctrl) => Loaded(Branch(Some(Bspline(degree, knots, ctrl)))))
        case _ => Malformed
  }

  // ------------------------------------------------------------ properties

  lemma {:induction false} NumbersAppend(a: Line, b: Line)
    ensures Numbers(a + b) == Numbers(a) + Numbers(b)
  {
    if |a| == 0 {
      assert a + b == b;
    } else {
      assert (a + b)[1..] == a[1..] + b;
      NumbersAppend(a[1..], b);
    }
  }

  lemma {:induction false} TokensAppend(a: Doc, b: Doc)
    ensures Tokens(a + b) == Tokens(a) + Tokens(b)
  {
    if |a| == 0 {
      assert a + b == b;
    } else {
      assert (a + b)[1..] == a[1..] + b;
      TokensAppend(a[1..], b);
    }
  }

  /** A number followed by a space contributes the number alone. */
  lemma NumbersOfPair(x: real)
    ensures Numbers([Real(x), Text(Sep)]) == [Real(x)]
  {
    assert [Real(x), Text(Sep)][1..] == [Text(Sep)];
    assert [Text(Sep)][1..] == [];
    assert Numbers([Text(Sep)]) == [] + Numbers([]);
  }

  lemma {:induction false} NumbersOfKnotLine(ks: seq<real>)
    ensures Numbers(KnotLine(ks)) == RealTokens(ks)
  {
    if |ks| > 0 {
      NumbersAppend([Real(ks[0]), Text(Sep)], KnotLine(ks[1..]));
      NumbersOfPair(ks[0]);
      NumbersOfKnotLine(ks[1..]);
    }
  }

  lemma NumbersOfColumnLine(c: Column)
    ensures Numbers(ColumnLine(c)) == [Real(c.v0), Real(c.v1), Real(c.v2), Real(c.v3)]
  {
    var p0, p1, p2, p3 := [Real(c.v0), Text(Sep)], [Real(c.v1), Text(Sep)], [Real(c.v2), Text(Sep)], [Real(c.v3), Text(Sep)];
    assert ColumnLine(c) == p0 + (p1 + (p2 + p3));
    NumbersAppend(p0, p1 + (p2 + p3));
    NumbersAppend(p1, p2 + p3);
    NumbersAppend(p2, p3);
    NumbersOfPair(c.v0);
    NumbersOfPair(c.v1);
    NumbersOfPair(c.v2);
    NumbersOfPair(c.v3);
  }

  lemma {:induction false} TokensOfColumnLines(cs: seq<Column>)
    ensures Tokens(ColumnLines(cs)) == ColumnTokens(cs)
  {
    if |cs| > 0 {
      var init, c := cs[..|cs| - 1], cs[|cs| - 1];
      assert ColumnLines(cs) == ColumnLines(init) + [ColumnLine(c)];
      TokensAppend(ColumnLines(init), [ColumnLine(c)]);
      TokensOfColumnLines(init);
      NumbersOfColumnLine(c);
      assert [ColumnLine(c)][1..] == [];
    }
  }

  /** Each written number is followed by a space or ends its line, so the
      text of the file splits into exactly the written numbers. */
  lemma WrittenTokens(b: Bspline)
    ensures Tokens(BranchDoc(b)) == Layout(b)
  {
    var head := [[Int(b.degree)], [Int(|b.knots|)], KnotLine(b.knots), [Int(|b.ctrl|)]];
    assert BranchDoc(b) == head + ColumnLines(b.ctrl);
    TokensAppend(head, ColumnLines(b.ctrl));
    TokensOfColumnLines(b.ctrl);
    TokensOfHead(b);
  }

  lemma TokensOfHead(b: Bspline)
    ensures Tokens([[Int(b.degree)], [Int(|b.knots|)], KnotLine(b.knots), [Int(|b.ctrl|)]]) == HeadTokens(b)
  {
    var l0, l1, l2, l3 := [Int(b.degree)], [Int(|b.knots|)], KnotLine(b.knots), [Int(|b.ctrl|)];
    assert [l0, l1, l2, l3] == [l0] + ([l1] + ([l2] + [l3]));
    TokensAppend([l0], [l1] + ([l2] + [l3]));
    TokensAppend([l1], [l2] + [l3]);
    TokensAppend([l2], [l3]);
    NumbersOfKnotLine(b.knots);
    SingleLine(l0);
    SingleLine(l1);
    SingleLine(l2);
    SingleLine(l3);
    SingleNumber(Int(b.degree));
    SingleNumber(Int(|b.knots|));
    SingleNumber(Int(|b.ctrl|));
    var ts := [Int(b.degree)] + ([Int(|b.knots|)] + (RealTokens(b.knots) + [Int(|b.ctrl|)]));
    assert ts == HeadTokens(b);
  }

  lemma SingleLine(l: Line)
    ensures Tokens([l]) == Numbers(l)
  {
    assert [l][1..] == [];
  }

  lemma SingleNumber(p: Piece)
    requires IsNumber(p)
    ensures Numbers([p]) == [p]
  {
    assert [p][1..] == [];
  }

  /** No two numbers of a branch file touch. */
  lemma WrittenSeparated(b: Bspline)
    ensures Separated(BranchDoc(b))
  {
    var doc := BranchDoc(b);
    forall l, k | 0 <= l < |doc| && 0 <= k < |doc[l]| - 1 && IsNumber(doc[l][k])
      ensures !IsNumber(doc[l][k + 1])
    {
      if l >= 4 {
        assert doc[l] == ColumnLine(b.ctrl[l - 4]);
      }
    }
  }

  /** The knot vector reads back from the written tokens. */
  lemma KnotsRead(b: Bspline)
    ensures ReadValues(Layout(b), 2, |b.knots|) == Some(b.knots)
  {
    var toks, k := Layout(b), |b.knots|;
    forall i | 2 <= i < 2 + k
      ensures toks[i] == Real(b.knots[i - 2])
    {
      assert toks[i] == HeadTokens(b)[i];
    }
    var knots := ReadValues(toks, 2, k);
    assert knots.Some?;
    forall i | 0 <= i < k
      ensures knots.value[i] == b.knots[i]
    {
      assert toks[2 + i] == Real(b.knots[i]);
    }
    assert knots.value == b.knots;
  }

  /** The control points read back from the written tokens. */
  lemma ColumnsRead(b: Bspline)
    ensures 3 + |b.knots| <= |Layout(b)|
    ensures ReadColumns(Layout(b), 3 + |b.knots|, |b.ctrl|) == Some(b.ctrl)
  {
    var toks, k, cols := Layout(b), |b.knots|, ColumnTokens(b.ctrl);
    assert toks[3 + k..] == cols;
    ColumnsReadAt(toks, 3 + k, b.ctrl);
  }

  /** Control points laid out as the writer lays them out read back. */
  lemma {:induction false} ColumnsReadAt(toks: seq<Piece>, pos: nat, cs: seq<Column>)
    requires pos <= |toks| && toks[pos..] == ColumnTokens(cs)
    ensures ReadColumns(toks, pos, |cs|) == Some(cs)
  {
    var cols := ColumnTokens(cs);
    forall i | pos <= i < pos + 4 * |cs|
      ensures IsNumber(toks[i])
    {
      assert toks[i] == cols[i - pos];
      ColumnTokenIsNumber(cs, i - pos);
    }
    var ctrl := ReadColumns(toks, pos, |cs|);
    assert ctrl.Some?;
    forall i | 0 <= i < |cs|
      ensures ctrl.value[i] == cs[i]
    {
      assert toks[pos + 4 * i] == cols[4 * i];
      assert toks[pos + 4 * i + 1] == cols[4 * i + 1];
      assert toks[pos + 4 * i + 2] == cols[4 * i + 2];
      assert toks[pos + 4 * i + 3] == cols[4 * i + 3];
    }
    assert ctrl.value == cs;
  }

  lemma {:induction false} ColumnTokenIsNumber(cs: seq<Column>, j: nat)
    requires j < 4 * |cs|
    ensures IsNumber(ColumnTokens(cs)[j])
  {
    var init := cs[..|cs| - 1];
    if j < 4 * |init| {
      ColumnTokenIsNumber(init, j);
    }
  }

  /** The round trip: reading the tokens of the file written for a
      B-spline whose counts fit an `unsigned int` gives that B-spline back,
      every control point with its 4 rows. */
  lemma ReadWritten(b: Bspline)
    requires |b.knots| < U32 && |b.ctrl| < U32
    ensures ReadBranch(Some(Tokens(BranchDoc(b)))) == Loaded(Branch(Some(b)))
  {
    WrittenTokens(b);
    KnotsRead(b);
    ColumnsRead(b);
    var toks, k := Layout(b), |b.knots|;
    assert toks[0] == Int(b.degree) && toks[1] == Int(k) && toks[2 + k] == Int(|b.ctrl|);
  }

  /** Writing a branch with a B-spline, then reading the file, gives the
      branch back. */
  lemma WriteThenRead(br: Branch, filename: string, opens: string -> bool)
    requires opens(filename) && br.fun.Some?
    requires |br.fun.value.knots| < U32 && |br.fun.value.ctrl| < U32
    ensures ReadBranch(Some(Tokens(WriteBranch(br, filename, opens).lines.value))) == Loaded(br)
  {
    ReadWritten(br.fun.value);
  }

  /** A branch whose function is null is written as an empty file, and an
      empty file does not read back as a null function: only a file that
      cannot be opened does. */
  lemma NullBranchNotRestored(filename: string, opens: string -> bool)
    requires opens(filename)
    ensures ReadBranch(Some(Tokens(WriteBranch(Branch(None), filename, opens).lines.value))) == Malformed
    ensures ReadBranch(None) == Loaded(Branch(None))
  {
  }
}
