/** The MEDIT printer of grid functions: a solution file (.sol) holding
    one solution at the vertices, one line per vertex with its vdim
    components. The stream is a sequence of tokens: the MEDIT keywords and
    the solution type are tokens of their own (their spelling belongs to
    the MEDIT keyword table, which is not part of this model), reals are
    Number tokens and everything else is text. */
module GridFunctionPrinters {
  import opened Text
  import opened Layout
  import opened GridFunctions
  import opened Meshes
  import MmgSolutions

  datatype Keyword = MeshVersionFormatted | Dimension | SolAtVertices | End
  datatype SolutionType = Scalar | Vector
  datatype Token = Key(keyword: Keyword) | Type(solution: SolutionType) | Chars(text: string) | Number(value: real)

  /** The type of the solution: a vector when there is more than one
      component. */
  function SolutionTypeOf(vdim: nat): (t: SolutionType)
    ensures t == Vector <==> vdim > 1
  {
    if vdim > 1 then Vector else Scalar
  }

  /** The head: version 2, the space dimension, then one solution at nv
      vertices and its type. */
  function SolutionHead(sdim: int, nv: int, vdim: nat): seq<Token>
  {
    [Key(MeshVersionFormatted), Chars(" 2\n"), Key(Dimension), Chars(" " + IntText(sdim) + "\n\n"),
     Key(SolAtVertices), Chars("\n" + IntText(nv) + "\n1 "), Type(SolutionTypeOf(vdim)), Chars("\n")]
  }

  /** The first j components of vertex i, each followed by a space. */
  function Cells(data: seq<real>, o: Ordering, nv: nat, vdim: nat, i: nat, j: nat): (ts: seq<Token>)
    requires |data| == nv * vdim && i < nv && j <= vdim
    ensures |ts| == 2 * j
  {
    if j == 0 then []
    else
      SlotInRange(o, i, j - 1, nv, vdim);
      Cells(data, o, nv, vdim, i, j - 1) + [Number(data[Slot(o, i, j - 1, nv, vdim)]), Chars(" ")]
  }

  /** The line of vertex i: its components separated by spaces. */
  function Row(data: seq<real>, o: Ordering, nv: nat, vdim: nat, i: nat): seq<Token>
    requires |data| == nv * vdim && i < nv && vdim >= 1
  {
    SlotInRange(o, i, vdim - 1, nv, vdim);
    Cells(data, o, nv, vdim, i, vdim - 1) + [Number(data[Slot(o, i, vdim - 1, nv, vdim)]), Chars("\n")]
  }

  /** The lines of the first i vertices. */
  function Rows(data: seq<real>, o: Ordering, nv: nat, vdim: nat, i: nat): seq<Token>
    requires |data| == nv * vdim && i <= nv && vdim >= 1
  {
    if i == 0 then [] else Rows(data, o, nv, vdim, i - 1) + Row(data, o, nv, vdim, i - 1)
  }

  /** GridFunctionPrinter<MEDIT>::print on a vector of nv * vdim entries
      in ordering o, over a mesh of space dimension sdim. */
  function SolutionOutput(data: seq<real>, o: Ordering, nv: nat, vdim: nat, sdim: int): seq<Token>
    requires |data| == nv * vdim && vdim >= 1
  {
    SolutionHead(sdim, nv, vdim) + Rows(data, o, nv, vdim, nv) + [Chars("\n"), Key(End)]
  }

  // ----- the values a solution file holds -----

  /** The reals of a token stream, in order. */
  function NumbersOf(ts: seq<Token>): (vs: seq<real>)
    ensures |vs| <= |ts|
  {
    if ts == [] then []
    else NumbersOf(ts[..|ts| - 1]) + (if ts[|ts| - 1].Number? then [ts[|ts| - 1].value] else [])
  }

  /** The lines of the solution file, the line breaks it holds. */
  function LineCount(ts: seq<Token>): nat
  {
    if ts == [] then 0
    else LineCount(ts[..|ts| - 1]) + (if ts[|ts| - 1].Chars? && ts[|ts| - 1].text == "\n" then 1 else 0)
  }

  lemma {:induction false} NumbersOfAppend(a: seq<Token>, b: seq<Token>)
    ensures NumbersOf(a + b) == NumbersOf(a) + NumbersOf(b)
    ensures LineCount(a + b) == LineCount(a) + LineCount(b)
    decreases |b|
  {
    if b == [] {
      assert a + b == a;
    } else {
      var n := |b| - 1;
      assert (a + b)[..|a + b| - 1] == a + b[..n];
      assert (a + b)[|a + b| - 1] == b[n];
      NumbersOfAppend(a, b[..n]);
    }
  }

  /** A real and the text after it. */
  lemma PairNumbers(x: real, t: string)
    ensures NumbersOf([Number(x), Chars(t)]) == [x]
    ensures LineCount([Number(x), Chars(t)]) == if t == "\n" then 1 else 0
  {
    var ts := [Number(x), Chars(t)];
    assert ts[..1] == [Number(x)] && ts[1] == Chars(t);
    assert [Number(x)][..0] == [];
    assert NumbersOf([Number(x)]) == [x] && LineCount([Number(x)]) == 0;
  }

  /** A stream without Number tokens holds no real. */
  lemma {:induction false} NoNumbers(ts: seq<Token>)
    requires forall k :: 0 <= k < |ts| ==> !ts[k].Number?
    ensures NumbersOf(ts) == []
    decreases |ts|
  {
    if ts != [] {
      NoNumbers(ts[..|ts| - 1]);
    }
  }

  /** The head holds no real. */
  lemma HeadNumbers(sdim: int, nv: int, vdim: nat)
    ensures NumbersOf(SolutionHead(sdim, nv, vdim)) == []
  {
    NoNumbers(SolutionHead(sdim, nv, vdim));
  }

  /** The first j components of vertex i are its first j reals, in
      component order, and hold no line break. */
  lemma {:induction false} CellsNumbers(data: seq<real>, o: Ordering, nv: nat, vdim: nat, i: nat, j: nat)
    requires |data| == nv * vdim && i < nv && j <= vdim
    ensures var vs := NumbersOf(Cells(data, o, nv, vdim, i, j));
      |vs| == j && forall c :: 0 <= c < j ==> Slot(o, i, c, nv, vdim) < |data| && vs[c] == data[Slot(o, i, c, nv, vdim)]
    ensures LineCount(Cells(data, o, nv, vdim, i, j)) == 0
  {
    if j > 0 {
      SlotInRange(o, i, j - 1, nv, vdim);
      var x := data[Slot(o, i, j - 1, nv, vdim)];
      var pre := Cells(data, o, nv, vdim, i, j - 1);
      CellsNumbers(data, o, nv, vdim, i, j - 1);
      NumbersOfAppend(pre, [Number(x), Chars(" ")]);
      PairNumbers(x, " ");
      ValuesStep(data, o, nv, vdim, i, j, NumbersOf(pre), x, NumbersOf(Cells(data, o, nv, vdim, i, j)));
    }
  }

  /** One more component after the first j - 1 of vertex i. */
  lemma ValuesStep(data: seq<real>, o: Ordering, nv: nat, vdim: nat, i: nat, j: nat, pre: seq<real>, x: real, vs: seq<real>)
    requires |data| == nv * vdim && i < nv && 1 <= j <= vdim && vs == pre + [x]
    requires |pre| == j - 1 && forall c :: 0 <= c < j - 1 ==> Slot(o, i, c, nv, vdim) < |data| && pre[c] == data[Slot(o, i, c, nv, vdim)]
    requires Slot(o, i, j - 1, nv, vdim) < |data| && x == data[Slot(o, i, j - 1, nv, vdim)]
    ensures |vs| == j && forall c :: 0 <= c < j ==> Slot(o, i, c, nv, vdim) < |data| && vs[c] == data[Slot(o, i, c, nv, vdim)]
  {
  }

  /** The line of vertex i holds its vdim components in component order,
      and one line break. */
  lemma RowNumbers(data: seq<real>, o: Ordering, nv: nat, vdim: nat, i: nat)
    requires |data| == nv * vdim && i < nv && vdim >= 1
    ensures var vs := NumbersOf(Row(data, o, nv, vdim, i));
      |vs| == vdim && forall c :: 0 <= c < vdim ==> Slot(o, i, c, nv, vdim) < |data| && vs[c] == data[Slot(o, i, c, nv, vdim)]
    ensures LineCount(Row(data, o, nv, vdim, i)) == 1
  {
    SlotInRange(o, i, vdim - 1, nv, vdim);
    var x := data[Slot(o, i, vdim - 1, nv, vdim)];
    CellsNumbers(data, o, nv, vdim, i, vdim - 1);
    NumbersOfAppend(Cells(data, o, nv, vdim, i, vdim - 1), [Number(x), Chars("\n")]);
    PairNumbers(x, "\n");
  }

  /** The lines of the first i vertices hold, in order, the first i * vdim
      reals of the point-major layout, and i line breaks. */
  lemma {:induction false} RowsNumbers(data: seq<real>, o: Ordering, nv: nat, vdim: nat, i: nat, vals: seq<real>)
    requires |data| == nv * vdim && i <= nv && vdim >= 1 && MmgSolutions.PointMajor(vals, data, o, nv, vdim)
    ensures i * vdim <= |vals|
    ensures NumbersOf(Rows(data, o, nv, vdim, i)) == vals[..i * vdim]
    ensures LineCount(Rows(data, o, nv, vdim, i)) == i
  {
    if i == 0 {
      assert vals[..0] == [];
    } else {
      RowsNumbers(data, o, nv, vdim, i - 1, vals);
      RowsNext(data, o, nv, vdim, i, vals);
    }
  }

  /** The lines of the first i vertices from those of the first i - 1. */
  lemma RowsNext(data: seq<real>, o: Ordering, nv: nat, vdim: nat, i: nat, vals: seq<real>)
    requires |data| == nv * vdim && 0 < i <= nv && vdim >= 1 && MmgSolutions.PointMajor(vals, data, o, nv, vdim)
    requires (i - 1) * vdim <= |vals| && NumbersOf(Rows(data, o, nv, vdim, i - 1)) == vals[..(i - 1) * vdim]
    requires LineCount(Rows(data, o, nv, vdim, i - 1)) == i - 1
    ensures i * vdim <= |vals|
    ensures NumbersOf(Rows(data, o, nv, vdim, i)) == vals[..i * vdim]
    ensures LineCount(Rows(data, o, nv, vdim, i)) == i
  {
    var p := i - 1;
    var m := p * vdim;
    MmgSolutions.NextBlock(p, vdim);
    RowBlock(data, o, nv, vdim, p, m, vals);
    RowsStep(Rows(data, o, nv, vdim, i), Rows(data, o, nv, vdim, p), Row(data, o, nv, vdim, p),
      vals, m, m + vdim, p);
  }

  /** Appending the line of one more vertex to the lines before it. */
  lemma RowsStep(all: seq<Token>, rows: seq<Token>, row: seq<Token>, vals: seq<real>, m: nat, m': nat, k: nat)
    requires all == rows + row && m <= m' <= |vals|
    requires NumbersOf(rows) == vals[..m] && LineCount(rows) == k
    requires forall a :: a == vals[..m] ==> a + NumbersOf(row) == vals[..m']
    requires LineCount(row) == 1
    ensures NumbersOf(all) == vals[..m'] && LineCount(all) == k + 1
  {
    NumbersOfAppend(rows, row);
  }

  /** The line of vertex p continues the point-major layout from entry
      m = p * vdim to entry m + vdim. */
  lemma RowBlock(data: seq<real>, o: Ordering, nv: nat, vdim: nat, p: nat, m: nat, vals: seq<real>)
    requires |data| == nv * vdim && p < nv && vdim >= 1 && m == p * vdim && MmgSolutions.PointMajor(vals, data, o, nv, vdim)
    ensures m + vdim <= |vals|
    ensures forall a :: a == vals[..m] ==> a + NumbersOf(Row(data, o, nv, vdim, p)) == vals[..m + vdim]
    ensures LineCount(Row(data, o, nv, vdim, p)) == 1
  {
    RowNumbers(data, o, nv, vdim, p);
    RowInterleaved(data, o, nv, vdim, p, m, NumbersOf(Row(data, o, nv, vdim, p)), vals);
  }

  /** The reals of the line of vertex p are the point-major entries m to
      m + vdim, m = p * vdim. */
  lemma RowInterleaved(data: seq<real>, o: Ordering, nv: nat, vdim: nat, p: nat, m: nat, b: seq<real>, vals: seq<real>)
    requires |data| == nv * vdim && p < nv && m == p * vdim && MmgSolutions.PointMajor(vals, data, o, nv, vdim)
    requires |b| == vdim && forall c :: 0 <= c < vdim ==> Slot(o, p, c, nv, vdim) < |data| && b[c] == data[Slot(o, p, c, nv, vdim)]
    ensures m + vdim <= |vals|
    ensures forall a :: a == vals[..m] ==> a + b == vals[..m + vdim]
  {
    MulLe(p + 1, nv, vdim);
    MmgSolutions.NextBlock(p, vdim);
    forall c | 0 <= c < vdim ensures m + c < |vals| && b[c] == vals[m + c] {
      MmgSolutions.PointMajorAt(vals, data, o, nv, vdim, p, c);
    }
    BlockAppend(vals, m, vdim, b);
  }

  /** n entries b equal to those of vals from m on extend the prefix of
      length m to the prefix of length m + n. */
  lemma BlockAppend(vals: seq<real>, m: nat, n: nat, b: seq<real>)
    requires m + n <= |vals| && |b| == n && forall c :: 0 <= c < n ==> b[c] == vals[m + c]
    ensures forall a :: a == vals[..m] ==> a + b == vals[..m + n]
  {
    forall a | a == vals[..m] ensures a + b == vals[..m + n] {
      forall k | 0 <= k < m + n ensures (a + b)[k] == vals[k] {
        if k >= m {
          assert b[k - m] == vals[m + (k - m)];
        }
      }
    }
  }

  /** The head, the lines and the end of a solution file. */
  lemma Assembled(out: seq<Token>, h: seq<Token>, b: seq<Token>, t: seq<Token>, vals: seq<real>)
    requires out == h + b + t && NumbersOf(h) == [] && NumbersOf(b) == vals && NumbersOf(t) == []
    ensures NumbersOf(out) == vals
  {
    NumbersOfAppend(h, b);
    NumbersOfAppend(h + b, t);
  }

  /** The whole of a sequence as a prefix. */
  lemma Whole(vals: seq<real>, m: nat)
    requires m == |vals|
    ensures vals[..m] == vals
  {
  }

  /** A solution file holds exactly the reals of the grid function laid
      out point after point, the vdim components of a vertex side by side,
      and one line per vertex after the head. */
  lemma SolutionValues(data: seq<real>, o: Ordering, nv: nat, vdim: nat, sdim: int)
    requires |data| == nv * vdim && vdim >= 1
    ensures NumbersOf(SolutionOutput(data, o, nv, vdim, sdim)) == MmgSolutions.Interleaved(data, o, nv, vdim)
    ensures LineCount(Rows(data, o, nv, vdim, nv)) == nv
  {
    var vals := MmgSolutions.Interleaved(data, o, nv, vdim);
    MmgSolutions.InterleavedPointMajor(data, o, nv, vdim);
    HeadNumbers(sdim, nv, vdim);
    RowsNumbers(data, o, nv, vdim, nv, vals);
    Whole(vals, nv * vdim);
    NoNumbers([Chars("\n"), Key(End)]);
    Assembled(SolutionOutput(data, o, nv, vdim, sdim), SolutionHead(sdim, nv, vdim), Rows(data, o, nv, vdim, nv), [Chars("\n"), Key(End)], vals);
  }

  /** Reading the reals of a solution file back into the ordering of the
      grid function gives its vector. */
  lemma SolutionReadBack(data: seq<real>, o: Ordering, nv: nat, vdim: nat, sdim: int)
    requires |data| == nv * vdim && vdim >= 1
    ensures |NumbersOf(SolutionOutput(data, o, nv, vdim, sdim))| == nv * vdim
    ensures MmgSolutions.Deinterleaved(NumbersOf(SolutionOutput(data, o, nv, vdim, sdim)), o, nv, vdim) == data
  {
    SolutionValues(data, o, nv, vdim, sdim);
    MmgSolutions.DeinterleavedInterleaved(data, o, nv, vdim);
  }

  // ----- the printer -----

  /** The line of vertex i: component j is entry i + j * NV with node
      ordering and j + i * vdim with component ordering. */
  method WriteRow(gf: GridFunction, i: nat) returns (row: seq<Token>)
    requires gf.fes.vdim >= 1 && gf.data.Length == |gf.fes.mesh.vertices| * gf.fes.vdim && i < |gf.fes.mesh.vertices|
    ensures row == Row(gf.data[..], gf.fes.ordering, |gf.fes.mesh.vertices|, gf.fes.vdim, i)
  {
    var nv := |gf.fes.mesh.vertices|;
    var vdim := gf.fes.vdim;
    var o := gf.fes.ordering;
    ghost var data := gf.data[..];
    row := [];
    var j := 0;
    while j < vdim - 1
      invariant 0 <= j <= vdim - 1
      invariant row == Cells(data, o, nv, vdim, i, j)
    {
      SlotInRange(o, i, j, nv, vdim);
      var k := if o == ByNodes then i + j * nv else j + i * vdim;
      assert k == Slot(o, i, j, nv, vdim);
      row := row + [Number(gf.data[k]), Chars(" ")];
      j := j + 1;
    }
    SlotInRange(o, i, vdim - 1, nv, vdim);
    var k := if o == ByNodes then i + (vdim - 1) * nv else (vdim - 1) + i * vdim;
    assert k == Slot(o, i, vdim - 1, nv, vdim);
    row := row + [Number(gf.data[k]), Chars("\n")];
  }

  /** GridFunctionPrinter<MEDIT>::print: the head, one line per vertex of
      the mesh, then the End keyword. The entry of component j of vertex i
      is i + j * NV with node ordering and j + i * vdim with component
      ordering. */
  method PrintSolution(gf: GridFunction) returns (out: seq<Token>)
    requires gf.fes.vdim >= 1 && gf.data.Length == |gf.fes.mesh.vertices| * gf.fes.vdim
    ensures out == SolutionOutput(gf.data[..], gf.fes.ordering, |gf.fes.mesh.vertices|, gf.fes.vdim, gf.fes.mesh.sdim)
  {
    var nv := |gf.fes.mesh.vertices|;
    var vdim := gf.fes.vdim;
    var o := gf.fes.ordering;
    ghost var data := gf.data[..];
    var head := SolutionHead(gf.fes.mesh.sdim, nv, vdim);
    out := head;
    var i := 0;
    while i < nv
      invariant 0 <= i <= nv
      invariant out == head + Rows(data, o, nv, vdim, i)
    {
      var row := WriteRow(gf, i);
      out := out + row;
      i := i + 1;
    }
    out := out + [Chars("\n"), Key(End)];
  }
}
