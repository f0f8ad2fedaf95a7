/** Text output as the writers stream it.

    Every writer builds its file with `<<` and ends each line with
    `std::endl`. A line is modelled as the sequence of values inserted before
    its `std::endl`, a document as its sequence of lines. Numbers stay opaque
    values: how a stream formats a `double` is not modelled. */
module Output {

  /** 2^32: the range of C++ `unsigned int`. */
  const U32: nat := 0x1_0000_0000

  /** C++ `unsigned int`. */
  type u32 = n: nat | n < U32

  /** One value inserted with `<<`: literal text, an integer or a
      floating-point number. */
  datatype Piece = Text(s: string) | Int(n: int) | Real(x: real)

  type Line = seq<Piece>

  type Doc = seq<Line>

  datatype Option<T> = None | Some(value: T)

  /** What one writer did to one path: the lines it wrote into the file
      (`None` when the stream could not be opened, so nothing was written)
      and the lines it printed on standard output. */
  datatype Written = Written(path: string, lines: Option<Doc>, console: Doc)

  /** The base name `filename.substr(0, filename.find("."))`: everything
      before the first '.', or the whole name when it has none. */
  function Stem(filename: string): (name: string)
    ensures name <= filename
    ensures '.' !in name
    ensures |name| < |filename| ==> filename[|name|] == '.'
    ensures '.' !in filename ==> name == filename
  {
    if |filename| == 0 || filename[0] == '.' then ""
    else [filename[0]] + Stem(filename[1..])
  }

  /** True when the line starts with the literal `tag`. */
  predicate Opens(line: Line, tag: string)
  {
    |line| > 0 && line[0] == Text(tag)
  }

  /** Number of lines of `doc` that start with the literal `tag`. */
  function CountOpening(doc: Doc, tag: string): nat
  {
    if |doc| == 0 then 0
    else CountOpening(doc[..|doc| - 1], tag) + (if Opens(doc[|doc| - 1], tag) then 1 else 0)
  }

  lemma {:induction false} CountOpeningAppend(a: Doc, b: Doc, tag: string)
    ensures CountOpening(a + b, tag) == CountOpening(a, tag) + CountOpening(b, tag)
    decreases |b|
  {
    if |b| == 0 {
      assert a + b == a;
    } else {
      var b' := b[..|b| - 1];
      assert (a + b)[..|a + b| - 1] == a + b';
      assert (a + b)[|a + b| - 1] == b[|b| - 1];
      CountOpeningAppend(a, b', tag);
    }
  }

  /** A document none of whose lines starts with `tag` counts none. */
  lemma {:induction false} CountOpeningNone(doc: Doc, tag: string)
    requires forall k :: 0 <= k < |doc| ==> !Opens(doc[k], tag)
    ensures CountOpening(doc, tag) == 0
  {
    if |doc| > 0 {
      CountOpeningNone(doc[..|doc| - 1], tag);
    }
  }

  /** A document all of whose lines start with `tag` counts all of them. */
  lemma {:induction false} CountOpeningAll(doc: Doc, tag: string)
    requires forall k :: 0 <= k < |doc| ==> Opens(doc[k], tag)
    ensures CountOpening(doc, tag) == |doc|
  {
    if |doc| > 0 {
      CountOpeningAll(doc[..|doc| - 1], tag);
    }
  }

  /** A two-line document counts each of its lines that starts with `tag`. */
  lemma CountOpeningPair(a: Line, b: Line, tag: string)
    ensures CountOpening([a, b], tag) == (if Opens(a, tag) then 1 else 0) + (if Opens(b, tag) then 1 else 0)
  {
    assert [a, b][..1] == [a];
    assert [a][..0] == [];
    assert CountOpening([a], tag) == CountOpening([], tag) + (if Opens(a, tag) then 1 else 0);
  }

  /** A document whose lines starting with `tag` are exactly those at
      positions lo .. hi - 1 counts hi - lo of them. */
  lemma {:induction false} CountOpeningRange(doc: Doc, tag: string, lo: nat, hi: nat)
    requires lo <= hi <= |doc|
    requires forall k :: 0 <= k < |doc| ==> (Opens(doc[k], tag) <==> lo <= k < hi)
    ensures CountOpening(doc, tag) == hi - lo
  {
    if |doc| > 0 {
      var init := doc[..|doc| - 1];
      var hi' := if hi < |doc| then hi else |doc| - 1;
      var lo' := if lo < hi' then lo else hi';
      CountOpeningRange(init, tag, lo', hi');
    }
  }

}
