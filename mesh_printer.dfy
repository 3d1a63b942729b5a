/** The mesh printers. Each writes the mesh to an output stream as a
    sequence of tokens: text, and doubles, whose text depends on the
    stream's precision and is given as a parameter when the tokens are
    rendered. Integers are written exactly, so they are part of the text. */
module MeshPrinters {
  import opened Wrappers
  import opened Text
  import opened MeshFormats
  import opened Elements
  import opened Meshes
  import MeshLoaders

  /** What a printer writes to the stream. */
  datatype Token = Chars(text: string) | Number(value: real)

  /** The text of the tokens, given the text operator<< writes for a
      double. */
  function Render(ts: seq<Token>, realText: real -> string): (s: string)
    decreases |ts|
  {
    if ts == [] then []
    else (match ts[0] case Chars(t) => t case Number(x) => realText(x)) + Render(ts[1..], realText)
  }

  /** Rendering distributes over concatenation. */
  lemma {:induction false} RenderAppend(a: seq<Token>, b: seq<Token>, realText: real -> string)
    ensures Render(a + b, realText) == Render(a, realText) + Render(b, realText)
    decreases |a|
  {
    if a == [] {
      assert a + b == b;
    } else {
      assert (a + b)[0] == a[0] && (a + b)[1..] == a[1..] + b;
      RenderAppend(a[1..], b, realText);
    }
  }

  /** The status a printer returns, or the exception it raises. */
  datatype Status = Succeeded | Failed(error: string) | Raised(message: string)

  /** What was written, and how printing ended. */
  datatype Printed = Printed(out: seq<Token>, status: Status)

  /** Coordinate k of a vertex; mfem keeps three coordinates per vertex,
      the unused ones 0. */
  function Coord(v: seq<real>, k: nat): (x: real)
    ensures k < |v| ==> x == v[k]
    ensures k >= |v| ==> x == 0.0
  {
    if k < |v| then v[k] else 0.0
  }

  /** The 1-based numbers of 0-based vertex indices. */
  function Shifted(vs: seq<nat>): (r: seq<int>)
    ensures |r| == |vs| && forall j :: 0 <= j < |vs| ==> r[j] == vs[j] + 1
  {
    seq(|vs|, j requires 0 <= j < |vs| => vs[j] + 1)
  }

  lemma ShiftedPrefix(vs: seq<nat>, j: nat)
    requires j < |vs|
    ensures Shifted(vs[..j + 1]) == Shifted(vs[..j]) + [vs[j] + 1]
  {
  }

  // ----- Gmsh -----

  /** The MeshFormat section: version 2.2, ASCII, and the stream's
      precision as the data size. */
  function GmshHead(precision: int): (t: string)
    ensures t == GmshHeader + "\n" + "2.2 0 " + IntText(precision) + "\n$EndMeshFormat\n"
  {
    "$MeshFormat\n" + "2.2 0 " + IntText(precision) + "\n$EndMeshFormat\n"
  }

  /** The node line of vertex i: its 1-based number and three
      coordinates. */
  function NodeLine(i: nat, v: seq<real>): seq<Token>
  {
    [Chars(IntText(i + 1) + " "), Number(Coord(v, 0)), Chars(" "), Number(Coord(v, 1)), Chars(" "), Number(Coord(v, 2)), Chars("\n")]
  }

  /** The node lines of the vertices, in order. */
  function NodeLines(vs: seq<seq<real>>): (ts: seq<Token>)
    ensures |ts| == 7 * |vs|
    ensures forall i :: 0 <= i < |vs| ==> ts[7 * i..7 * i + 7] == NodeLine(i, vs[i])
    decreases |vs|
  {
    if vs == [] then []
    else
      var n := |vs| - 1;
      var pre := NodeLines(vs[..n]);
      assert forall i :: 0 <= i < n ==> vs[..n][i] == vs[i];
      pre + NodeLine(n, vs[n])
  }

  /** The Gmsh type code of a boundary element. */
  function BoundaryCode(g: GeometryType): (c: Option<int>)
    ensures c.Some? <==> g in {Segment, Triangle, Square}
  {
    match g
    case Segment => Some(1)
    case Triangle => Some(2)
    case Square => Some(3)
    case _ => None
  }

  /** The Gmsh type code of an element. */
  function ElementCode(g: GeometryType): (c: Option<int>)
    ensures c.Some? <==> g !in {Point, Prism}
  {
    match g
    case Segment => Some(1)
    case Triangle => Some(2)
    case Square => Some(3)
    case Tetrahedron => Some(4)
    case Cube => Some(5)
    case Pyramid => Some(7)
    case _ => None
  }

  /** The code an element of the boundary list (bdr) or of the element
      list has. */
  function CodeOf(bdr: bool, g: GeometryType): Option<int>
  {
    if bdr then BoundaryCode(g) else ElementCode(g)
  }

  /** The element line: number, type, one tag (the attribute) and the
      1-based vertex numbers. */
  function ElementLine(id: int, code: int, e: Polytope): string
  {
    RecordText([id, code, 1, e.attribute] + Shifted(e.vertices)) + "\n"
  }

  /** The number of leading elements of es that have a type code. */
  function Coded(es: seq<Polytope>, bdr: bool): (n: nat)
    ensures n <= |es|
    ensures forall k :: 0 <= k < n ==> CodeOf(bdr, es[k].geometry).Some?
    ensures n < |es| ==> CodeOf(bdr, es[n].geometry).None?
    decreases |es|
  {
    if es == [] || CodeOf(bdr, es[0].geometry).None? then 0
    else
      assert forall k :: 1 <= k < |es| ==> es[1..][k - 1] == es[k];
      1 + Coded(es[1..], bdr)
  }

  /** The element lines of es numbered from offset + 1, up to the first
      element without a type code, and whether all had one. */
  function ElementLines(es: seq<Polytope>, offset: nat, bdr: bool): (r: (seq<Token>, bool))
    ensures r.1 ==> |r.0| == |es|
    ensures !r.1 ==> |r.0| < |es| && CodeOf(bdr, es[|r.0|].geometry).None?
    ensures forall k :: 0 <= k < |r.0| ==>
      CodeOf(bdr, es[k].geometry).Some? && r.0[k] == Chars(ElementLine(offset + k + 1, CodeOf(bdr, es[k].geometry).value, es[k]))
  {
    var n := Coded(es, bdr);
    (seq(n, k requires 0 <= k < n => Chars(ElementLine(offset + k + 1, CodeOf(bdr, es[k].geometry).value, es[k]))), n == |es|)
  }

  /** All the lines are written exactly when every element has a type
      code. */
  lemma ElementLinesComplete(es: seq<Polytope>, offset: nat, bdr: bool)
    ensures ElementLines(es, offset, bdr).1 <==> forall k :: 0 <= k < |es| ==> CodeOf(bdr, es[k].geometry).Some?
  {
    var r := ElementLines(es, offset, bdr);
    if !r.1 {
      assert CodeOf(bdr, es[|r.0|].geometry).None?;
    }
  }

  /** The head of a Gmsh file up to the element count line. */
  function GmshHeadTokens(vs: seq<seq<real>>, count: nat, precision: int): seq<Token>
  {
    [Chars(GmshHead(precision)), Chars("$Nodes\n"), Chars(IntText(|vs|) + "\n")] + NodeLines(vs) +
      [Chars("$EndNodes\n"), Chars("$Elements\n"), Chars(IntText(count) + "\n")]
  }

  /** MeshPrinter<GMSH>::print on a mesh with these vertices, boundary
      elements and elements, at this stream precision. An element without
      a Gmsh type raises after the lines before it were written. */
  function GmshOutput(vs: seq<seq<real>>, boundary: seq<Polytope>, elements: seq<Polytope>, precision: int): (p: Printed)
  {
    var head := GmshHeadTokens(vs, |boundary| + |elements|, precision);
    var (b, okb) := ElementLines(boundary, 0, true);
    if !okb then Printed(head + b, Raised("Unknown boundary element type."))
    else
      var (e, oke) := ElementLines(elements, |boundary|, false);
      if !oke then Printed(head + b + e, Raised("Unknown element type."))
      else Printed(head + b + e + [Chars("$EndElements\n")], Succeeded)
  }

  // ----- MEDIT -----

  /** The first coordinates of a vertex, each followed by a space. */
  function MeditCoords(v: seq<real>, n: nat): (ts: seq<Token>)
    ensures |ts| == 2 * n
    ensures forall j :: 0 <= j < n ==> ts[2 * j] == Number(Coord(v, j)) && ts[2 * j + 1] == Chars(" ")
  {
    if n == 0 then [] else MeditCoords(v, n - 1) + [Number(Coord(v, n - 1)), Chars(" ")]
  }

  /** The vertex lines: sdim coordinates and the reference 0. */
  function VertexLines(vs: seq<seq<real>>, sdim: nat): seq<Token>
    decreases |vs|
  {
    if vs == [] then []
    else VertexLines(vs[..|vs| - 1], sdim) + MeditCoords(vs[|vs| - 1], sdim) + [Chars("0\n")]
  }

  /** The cells of the three sections the printer writes. */
  datatype CellKind = TriangleCell | TetrahedronCell | EdgeCell

  function Arity(k: CellKind): nat
  {
    match k
    case TriangleCell => 3
    case TetrahedronCell => 4
    case EdgeCell => 2
  }

  function GeometryOf(k: CellKind): GeometryType
  {
    match k
    case TriangleCell => Triangle
    case TetrahedronCell => Tetrahedron
    case EdgeCell => Segment
  }

  /** Every cell has at least n vertices. */
  predicate AllHave(es: seq<Polytope>, n: nat)
  {
    forall i :: 0 <= i < |es| ==> |es[i].vertices| >= n
  }

  /** The line of a cell: its first vertices, 1-based, then its
      attribute. */
  function CellLine(k: CellKind, e: Polytope): string
    requires |e.vertices| >= Arity(k)
  {
    var v := e.vertices;
    match k
    case TriangleCell => IntText(v[0] + 1) + " " + IntText(v[1] + 1) + " " + IntText(v[2] + 1) + " " + IntText(e.attribute) + "\n"
    case TetrahedronCell => IntText(v[0] + 1) + " " + IntText(v[1] + 1) + " " + IntText(v[2] + 1) + " " + IntText(v[3] + 1) + " " + IntText(e.attribute) + "\n"
    case EdgeCell => IntText(v[0] + 1) + " " + IntText(v[1] + 1) + " " + IntText(e.attribute) + "\n"
  }

  /** The lines of the cells, in order. */
  function CellLines(k: CellKind, es: seq<Polytope>): (ts: seq<Token>)
    requires AllHave(es, Arity(k))
    ensures |ts| == |es| && forall i :: 0 <= i < |es| ==> ts[i] == Chars(CellLine(k, es[i]))
    decreases |es|
  {
    if es == [] then []
    else
      var n := |es| - 1;
      assert forall i :: 0 <= i < n ==> es[..n][i] == es[i];
      CellLines(k, es[..n]) + [Chars(CellLine(k, es[n]))]
  }

  /** The vertices and cells of a mesh have what the printer reads of
      them in its dimension. */
  predicate Printable(dim: nat, elements: seq<Polytope>, boundary: seq<Polytope>)
  {
    (dim == 2 ==> AllHave(elements, 3) && AllHave(boundary, 2)) &&
    (dim == 3 ==> AllHave(elements, 4) && AllHave(boundary, 3))
  }

  /** The head of a MEDIT file. */
  function MeditHead(sdim: nat): (t: string)
  {
    MeditV2 + "\n" + (MeshLoaders.DimensionKey + " " + IntText(sdim)) + "\n" + "\n"
  }

  /** MeshPrinter<MEDIT>::print on a mesh of this dimension and space
      dimension: the vertices, then the triangles (the elements in 2D, the
      boundary in 3D), the tetrahedra in 3D and the edges in 2D. Another
      dimension fails after the Triangles keyword. */
  function MeditOutput(dim: nat, sdim: nat, vs: seq<seq<real>>, elements: seq<Polytope>, boundary: seq<Polytope>): (p: Printed)
    requires Printable(dim, elements, boundary)
  {
    var head := [Chars(MeditHead(sdim)), Chars("Vertices\n" + IntText(|vs|) + "\n")] + VertexLines(vs, sdim) + [Chars("\nTriangles\n")];
    if dim == 2 then
      Printed(head + [Chars(IntText(|elements|) + "\n")] + CellLines(TriangleCell, elements) +
        [Chars("\nEdges\n" + IntText(|boundary|) + "\n")] + CellLines(EdgeCell, boundary), Succeeded)
    else if dim == 3 then
      Printed(head + [Chars(IntText(|boundary|) + "\n")] + CellLines(TriangleCell, boundary) +
        [Chars("\nTetrahedra\n" + IntText(|elements|) + "\n")] + CellLines(TetrahedronCell, elements), Succeeded)
    else Printed(head, Failed("Bad mesh dimension: " + IntText(dim)))
  }

  // ----- what the printed files say -----

  /** The text of tokens that start with some text starts with it. */
  lemma RenderFirst(x: string, ts: seq<Token>, realText: real -> string)
    ensures Render([Chars(x)] + ts, realText) == x + Render(ts, realText)
  {
    assert ([Chars(x)] + ts)[1..] == ts;
  }

  /** Gmsh printing succeeds exactly when every boundary element and every
      element has a Gmsh type; it raises on the first one that has none. */
  lemma GmshStatus(vs: seq<seq<real>>, boundary: seq<Polytope>, elements: seq<Polytope>, precision: int)
    ensures var p := GmshOutput(vs, boundary, elements, precision);
      (p.status == Succeeded <==>
        (forall k :: 0 <= k < |boundary| ==> BoundaryCode(boundary[k].geometry).Some?) &&
        (forall k :: 0 <= k < |elements| ==> ElementCode(elements[k].geometry).Some?)) &&
      (p.status == Raised("Unknown boundary element type.") <==> exists k :: 0 <= k < |boundary| && BoundaryCode(boundary[k].geometry).None?) &&
      !p.status.Failed?
  {
    var (b, okb) := ElementLines(boundary, 0, true);
    var (e, oke) := ElementLines(elements, |boundary|, false);
    ElementLinesComplete(boundary, 0, true);
    ElementLinesComplete(elements, |boundary|, false);
    if !okb {
      var k := |b|;
      assert 0 <= k < |boundary| && BoundaryCode(boundary[k].geometry).None?;
    }
  }

  /** The element lines of a mesh whose every element has a Gmsh type:
      the boundary elements numbered 1 to NBE, then the elements numbered
      NBE + 1 to NBE + NE. */
  lemma GmshLinesNumbered(boundary: seq<Polytope>, elements: seq<Polytope>) returns (lines: seq<Token>)
    requires ElementLines(boundary, 0, true).1 && ElementLines(elements, |boundary|, false).1
    ensures lines == ElementLines(boundary, 0, true).0 + ElementLines(elements, |boundary|, false).0
    ensures |lines| == |boundary| + |elements|
    ensures forall k :: 0 <= k < |boundary| ==>
      lines[k] == Chars(ElementLine(k + 1, BoundaryCode(boundary[k].geometry).value, boundary[k]))
    ensures forall k :: |boundary| <= k < |lines| ==>
      lines[k] == Chars(ElementLine(k + 1, ElementCode(elements[k - |boundary|].geometry).value, elements[k - |boundary|]))
  {
    var b := ElementLines(boundary, 0, true).0;
    var e := ElementLines(elements, |boundary|, false).0;
    lines := b + e;
    forall k | 0 <= k < |boundary|
      ensures lines[k] == Chars(ElementLine(k + 1, BoundaryCode(boundary[k].geometry).value, boundary[k]))
    {
      assert lines[k] == b[k];
    }
    forall k | |boundary| <= k < |lines|
      ensures lines[k] == Chars(ElementLine(k + 1, ElementCode(elements[k - |boundary|].geometry).value, elements[k - |boundary|]))
    {
      assert lines[k] == e[k - |boundary|];
    }
  }

  /** A Gmsh file printed in full declares NBE + NE elements, follows the
      count with the element lines and closes the section. */
  lemma GmshElementSection(vs: seq<seq<real>>, boundary: seq<Polytope>, elements: seq<Polytope>, precision: int)
    requires GmshOutput(vs, boundary, elements, precision).status == Succeeded
    ensures ElementLines(boundary, 0, true).1 && ElementLines(elements, |boundary|, false).1
    ensures GmshOutput(vs, boundary, elements, precision).out ==
      GmshHeadTokens(vs, |boundary| + |elements|, precision) +
      (ElementLines(boundary, 0, true).0 + ElementLines(elements, |boundary|, false).0) + [Chars("$EndElements\n")]
  {
    var (b, okb) := ElementLines(boundary, 0, true);
    var (e, oke) := ElementLines(elements, |boundary|, false);
    var h := GmshHeadTokens(vs, |boundary| + |elements|, precision);
    Regrouped4(h, b, e, [Chars("$EndElements\n")]);
  }

  lemma Regrouped4(h: seq<Token>, b: seq<Token>, e: seq<Token>, t: seq<Token>)
    ensures h + b + e + t == h + (b + e) + t
  {
  }

  /** A Gmsh element line holds, in order, its number, its type, the tag
      count 1, its attribute and the 1-based numbers of its vertices; when
      all of them are ints, they are read back as written. */
  lemma GmshElementLineRead(id: int, code: int, e: Polytope)
    requires FitsInt(id) && FitsInt(code) && FitsInt(e.attribute)
    requires forall i :: 0 <= i < |e.vertices| ==> FitsInt(e.vertices[i] + 1)
    ensures ElementLine(id, code, e) == RecordText([id, code, 1, e.attribute] + Shifted(e.vertices)) + "\n"
    ensures ExtractInts(RecordText([id, code, 1, e.attribute] + Shifted(e.vertices)), 0, 4 + |e.vertices|) ==
      [id, code, 1, e.attribute] + Shifted(e.vertices)
  {
    var ns := [id, code, 1, e.attribute] + Shifted(e.vertices);
    ExtractRecord(RecordText(ns), ns);
  }

  /** The Gmsh file starts with its header line "$MeshFormat": the header
      table as written does not recognise it, so that the Gmsh loader
      raises "Unrecognized mesh format." on what the Gmsh printer wrote; the
      table with Gmsh filed under its header line accepts it. */
  lemma GmshPrintedLoaded(vs: seq<seq<real>>, boundary: seq<Polytope>, elements: seq<Polytope>, precision: int, realText: real -> string)
    ensures var text := Render(GmshOutput(vs, boundary, elements, precision).out, realText);
      MeshLoaders.LoadGmsh(MeshFormats.HeadersAsWritten(), text) == MeshLoaders.Raised(MeshLoaders.UnrecognizedFormat) &&
      MeshLoaders.LoadGmsh(MeshFormats.Headers(), text) == MeshLoaders.Done(0)
  {
    GmshFirstToken(vs, boundary, elements, precision);
    var rest := GmshTextHead(GmshOutput(vs, boundary, elements, precision).out, precision, realText);
    GmshHeaderUnrecognisedAsWritten(rest, true);
    GmshHeaderRecognised(rest, true);
  }

  /** The text of printed tokens starts with the text of the first one. */
  lemma RenderHead(ts: seq<Token>, x: string, realText: real -> string)
    requires ts != [] && ts[0] == Chars(x)
    ensures Render(ts, realText) == x + Render(ts[1..], realText)
  {
    assert ts == [Chars(x)] + ts[1..];
    RenderFirst(x, ts[1..], realText);
  }

  /** A printed Gmsh file starts with the MeshFormat section. */
  lemma GmshFirstToken(vs: seq<seq<real>>, boundary: seq<Polytope>, elements: seq<Polytope>, precision: int)
    ensures var out := GmshOutput(vs, boundary, elements, precision).out;
      out != [] && out[0] == Chars(GmshHead(precision))
  {
  }

  /** The text of tokens that start with the Gmsh MeshFormat section is
      its header line and the rest. */
  lemma GmshTextHead(out: seq<Token>, precision: int, realText: real -> string) returns (rest: string)
    requires out != [] && out[0] == Chars(GmshHead(precision))
    ensures Render(out, realText) == GmshHeader + "\n" + rest
  {
    var h := GmshHead(precision);
    RenderHead(out, h, realText);
    var tail := "2.2 0 " + IntText(precision) + "\n$EndMeshFormat\n";
    rest := tail + Render(out[1..], realText);
    Regrouped(Render(out, realText), h, GmshHeader + "\n", tail, Render(out[1..], realText));
  }

  lemma Regrouped(r: string, h: string, a: string, t: string, u: string)
    requires r == h + u && h == a + t
    ensures r == a + (t + u)
  {
  }

  /** The texts of records of two, three, four and five numbers. */
  lemma RecordTexts(a: int, b: int, c: int, d: int, x: int)
    ensures RecordText([a, b]) == IntText(a) + " " + IntText(b)
    ensures RecordText([a, b, c]) == RecordText([a, b]) + " " + IntText(c)
    ensures RecordText([a, b, c, d]) == RecordText([a, b, c]) + " " + IntText(d)
    ensures RecordText([a, b, c, d, x]) == RecordText([a, b, c, d]) + " " + IntText(x)
  {
    assert RecordText([a]) == IntText(a);
    RecordTextSnoc([a], b);
    assert [a] + [b] == [a, b];
    RecordTextSnoc([a, b], c);
    assert [a, b] + [c] == [a, b, c];
    RecordTextSnoc([a, b, c], d);
    assert [a, b, c] + [d] == [a, b, c, d];
    RecordTextSnoc([a, b, c, d], x);
    assert [a, b, c, d] + [x] == [a, b, c, d, x];
  }

  /** An edge line is the record of its two vertices and its attribute. */
  lemma EdgeLineRecord(e: Polytope)
    requires |e.vertices| >= 2
    ensures CellLine(EdgeCell, e) == RecordText(Shifted(e.vertices[..2]) + [e.attribute]) + "\n"
  {
    var v := e.vertices;
    assert Shifted(v[..2]) + [e.attribute] == [v[0] + 1, v[1] + 1, e.attribute];
    RecordTexts(v[0] + 1, v[1] + 1, e.attribute, 0, 0);
  }

  /** A triangle line is the record of its three vertices and its attribute. */
  lemma TriangleLineRecord(e: Polytope)
    requires |e.vertices| >= 3
    ensures CellLine(TriangleCell, e) == RecordText(Shifted(e.vertices[..3]) + [e.attribute]) + "\n"
  {
    var v := e.vertices;
    assert Shifted(v[..3]) + [e.attribute] == [v[0] + 1, v[1] + 1, v[2] + 1, e.attribute];
    RecordTexts(v[0] + 1, v[1] + 1, v[2] + 1, e.attribute, 0);
  }

  /** A tetrahedron line is the record of its four vertices and its attribute. */
  lemma TetrahedronLineRecord(e: Polytope)
    requires |e.vertices| >= 4
    ensures CellLine(TetrahedronCell, e) == RecordText(Shifted(e.vertices[..4]) + [e.attribute]) + "\n"
  {
    var v := e.vertices;
    assert Shifted(v[..4]) + [e.attribute] == [v[0] + 1, v[1] + 1, v[2] + 1, v[3] + 1, e.attribute];
    RecordTexts(v[0] + 1, v[1] + 1, v[2] + 1, v[3] + 1, e.attribute);
  }

  /** The MEDIT loader reads back the cell of a record of 1-based vertex
      numbers and an attribute, all of them ints. */
  lemma CellOfRecord(g: GeometryType, vs: seq<nat>, attribute: int)
    requires FitsInt(attribute) && forall i :: 0 <= i < |vs| ==> FitsInt(vs[i] + 1)
    ensures MeshLoaders.CellOf(g, RecordText(Shifted(vs) + [attribute]), |vs|) == MeshLoaders.Cell(g, vs, attribute)
  {
    var ns := Shifted(vs) + [attribute];
    ExtractRecord(RecordText(ns), ns);
    CellOfExtracted(g, RecordText(ns), vs, attribute);
  }

  lemma CellOfExtracted(g: GeometryType, t: string, vs: seq<nat>, attribute: int)
    requires ExtractInts(t, 0, |vs| + 1) == Shifted(vs) + [attribute]
    ensures MeshLoaders.CellOf(g, t, |vs|) == MeshLoaders.Cell(g, vs, attribute)
  {
    var ns := Shifted(vs) + [attribute];
    var c := MeshLoaders.CellOf(g, t, |vs|);
    forall i | 0 <= i < |vs| ensures c.vertices[i] == vs[i] {
      assert ns[i] == vs[i] + 1;
    }
    assert ns[|vs|] == attribute;
  }

  /** A MEDIT cell line holds the cell's first vertices, 1-based, and its
      attribute, so that the MEDIT loader reads back the cell when these
      numbers are ints. */
  lemma MeditCellReadBack(k: CellKind, e: Polytope)
    requires |e.vertices| >= Arity(k)
    requires FitsInt(e.attribute) && forall i :: 0 <= i < Arity(k) ==> FitsInt(e.vertices[i] + 1)
    ensures var ns := Shifted(e.vertices[..Arity(k)]) + [e.attribute];
      CellLine(k, e) == RecordText(ns) + "\n" &&
      MeshLoaders.CellOf(GeometryOf(k), RecordText(ns), Arity(k)) == MeshLoaders.Cell(GeometryOf(k), e.vertices[..Arity(k)], e.attribute)
  {
    var n := Arity(k);
    if k == EdgeCell {
      EdgeLineRecord(e);
    } else if k == TriangleCell {
      TriangleLineRecord(e);
    } else {
      TetrahedronLineRecord(e);
    }
    assert CellLine(k, e) == RecordText(Shifted(e.vertices[..n]) + [e.attribute]) + "\n";
    CellOfRecord(GeometryOf(k), e.vertices[..Arity(k)], e.attribute);
  }

  /** A printed MEDIT file starts with its head. */
  lemma MeditFirstToken(dim: nat, sdim: nat, vs: seq<seq<real>>, elements: seq<Polytope>, boundary: seq<Polytope>)
    requires Printable(dim, elements, boundary)
    ensures var out := MeditOutput(dim, sdim, vs, elements, boundary).out;
      out != [] && out[0] == Chars(MeditHead(sdim))
  {
  }

  /** The Dimension line of a MEDIT head is one line. */
  lemma DimensionLinePlain(d: int)
    ensures '\n' !in MeshLoaders.DimensionKey + " " + IntText(d)
  {
    var line := MeshLoaders.DimensionKey + " " + IntText(d);
    var u := IntTextParts(d);
    forall j | 0 <= j < |line| ensures line[j] != '\n' {
      if j > |MeshLoaders.DimensionKey| {
        assert line[j] == IntText(d)[j - |MeshLoaders.DimensionKey| - 1];
        if d < 0 && j > |MeshLoaders.DimensionKey| + 1 {
          assert line[j] == u[j - |MeshLoaders.DimensionKey| - 2];
        }
      }
    }
  }

  /** The text of tokens that start with a MEDIT head: the version line,
      the Dimension line and the rest. */
  lemma MeditTextHead(out: seq<Token>, sdim: nat, realText: real -> string) returns (rest: string)
    requires out != [] && out[0] == Chars(MeditHead(sdim))
    ensures var line := MeshLoaders.DimensionKey + " " + IntText(sdim);
      Render(out, realText) == [] + MeditV2 + "\n" + (line + "\n" + rest) &&
      Render(out, realText) == (MeditV2 + "\n") + line + "\n" + rest
  {
    var h := MeditHead(sdim);
    RenderHead(out, h, realText);
    var line := MeshLoaders.DimensionKey + " " + IntText(sdim);
    var r := Render(out[1..], realText);
    rest := "\n" + r;
    MeditRegrouped(Render(out, realText), h, MeditV2 + "\n", line, r);
  }

  lemma MeditRegrouped(t: string, h: string, a: string, line: string, r: string)
    requires t == h + r && h == a + line + "\n" + "\n"
    ensures t == [] + a + (line + "\n" + ("\n" + r)) && t == a + line + "\n" + ("\n" + r)
  {
    assert [] + a == a;
  }

  /** The MEDIT version line names MEDIT in both header tables. */
  lemma MeditVersionLine(headers: map<string, MeshFormat>)
    requires headers == MeshFormats.Headers() || headers == MeshFormats.HeadersAsWritten()
    ensures MeditV2 != [] && !IsSpace(MeditV2[0]) && '\n' !in MeditV2
    ensures Lookup(headers, StripCR(MeditV2)) == Some(MEDIT)
  {
    assert MeditV2[|MeditV2| - 1] == '2';
    assert MeditV2 in headers;
  }

  /** The MEDIT file starts with "MeshVersionFormatted 2", which both
      header tables name MEDIT, and the MEDIT loader reads its second line
      "Dimension sdim" next. */
  lemma MeditPrintedFormat(headers: map<string, MeshFormat>, dim: nat, sdim: nat, vs: seq<seq<real>>, elements: seq<Polytope>, boundary: seq<Polytope>, realText: real -> string)
    requires headers == MeshFormats.Headers() || headers == MeshFormats.HeadersAsWritten()
    requires Printable(dim, elements, boundary)
    ensures var text := Render(MeditOutput(dim, sdim, vs, elements, boundary).out, realText);
      var p := |MeditV2| + 1;
      GetMeshFormat(headers, text, 0, false) == (Some(MEDIT), p) &&
      GetLine(text, p) == Some((MeshLoaders.DimensionKey + " " + IntText(sdim), p + |MeshLoaders.DimensionKey| + 1 + |IntText(sdim)| + 1))
  {
    var out := MeditOutput(dim, sdim, vs, elements, boundary).out;
    MeditFirstToken(dim, sdim, vs, elements, boundary);
    var rest := MeditTextHead(out, sdim, realText);
    var line := MeshLoaders.DimensionKey + " " + IntText(sdim);
    MeditVersionLine(headers);
    FormatOfFirstLine(headers, [], MeditV2, line + "\n" + rest, false);
    DimensionLinePlain(sdim);
    GetLineOf(MeditV2 + "\n", line, rest);
  }

  /** The MEDIT loader reads the dimension the MEDIT printer wrote: a
      space dimension other than 2 and 3 is rejected with "Invalid mesh
      dimension: ". */
  lemma MeditPrintedDimensionRejected(headers: map<string, MeshFormat>, keys: seq<(string, EntityKeyword)>, dim: nat, sdim: nat, vs: seq<seq<real>>, elements: seq<Polytope>, boundary: seq<Polytope>, realText: real -> string)
    requires headers == MeshFormats.Headers() || headers == MeshFormats.HeadersAsWritten()
    requires Printable(dim, elements, boundary)
    requires sdim != 2 && sdim != 3
    ensures MeshLoaders.LoadMedit(headers, keys, Render(MeditOutput(dim, sdim, vs, elements, boundary).out, realText)) ==
      MeshLoaders.Failed(MeshLoaders.InvalidDimension + IntText(ClampInt(sdim)))
  {
    var text := Render(MeditOutput(dim, sdim, vs, elements, boundary).out, realText);
    MeditPrintedFormat(headers, dim, sdim, vs, elements, boundary, realText);
    var p := |MeditV2| + 1;
    MeshLoaders.DimensionRejected(headers, keys, text, p, sdim, p + |MeshLoaders.DimensionKey| + 1 + |IntText(sdim)| + 1);
  }

  // ----- the printers as procedures -----

  /** One Gmsh element line: number, type, the tag count 1 and the
      attribute, then the vertex numbers one by one. */
  method WriteElementLine(id: int, code: int, e: Polytope) returns (line: string)
    ensures line == ElementLine(id, code, e)
  {
    line := IntText(id);
    assert line == RecordText([id]);
    RecordTextSnoc([id], code);
    assert [id] + [code] == [id, code];
    line := line + " " + IntText(code);
    RecordTextSnoc([id, code], 1);
    assert [id, code] + [1] == [id, code, 1];
    line := line + " " + IntText(1);
    RecordTextSnoc([id, code, 1], e.attribute);
    ghost var head := [id, code, 1, e.attribute];
    assert [id, code, 1] + [e.attribute] == head;
    line := line + " " + IntText(e.attribute);
    assert head + Shifted(e.vertices[..0]) == head;
    for j := 0 to |e.vertices|
      invariant line == RecordText(head + Shifted(e.vertices[..j]))
    {
      ShiftedPrefix(e.vertices, j);
      assert head + Shifted(e.vertices[..j + 1]) == (head + Shifted(e.vertices[..j])) + [e.vertices[j] + 1];
      RecordTextSnoc(head + Shifted(e.vertices[..j]), e.vertices[j] + 1);
      line := line + " " + IntText(e.vertices[j] + 1);
    }
    assert e.vertices[..|e.vertices|] == e.vertices;
    line := line + "\n";
  }

  /** The element lines of one list, numbered from offset + 1; None when
      an element has no type code, with the lines written before it. */
  method WriteElementLines(es: seq<Polytope>, offset: nat, bdr: bool) returns (ts: seq<Token>, ok: bool)
    ensures (ts, ok) == ElementLines(es, offset, bdr)
  {
    ts := [];
    for i := 0 to |es|
      invariant |ts| == i
      invariant forall k :: 0 <= k < i ==>
        (CodeOf(bdr, es[k].geometry).Some? && ts[k] == Chars(ElementLine(offset + k + 1, CodeOf(bdr, es[k].geometry).value, es[k])))
    {
      var code := CodeOf(bdr, es[i].geometry);
      if code.None? {
        ok := false;
        ElementLinesAre(es, offset, bdr, ts, ok);
        return;
      }
      var line := WriteElementLine(offset + i + 1, code.value, es[i]);
      ts := ts + [Chars(line)];
    }
    ok := true;
    ElementLinesAre(es, offset, bdr, ts, ok);
  }

  /** The element lines are the lines of the elements before the first one
      without a type code. */
  lemma ElementLinesAre(es: seq<Polytope>, offset: nat, bdr: bool, ts: seq<Token>, ok: bool)
    requires |ts| <= |es| && (ok <==> |ts| == |es|)
    requires !ok ==> CodeOf(bdr, es[|ts|].geometry).None?
    requires forall k :: 0 <= k < |ts| ==>
      (CodeOf(bdr, es[k].geometry).Some? && ts[k] == Chars(ElementLine(offset + k + 1, CodeOf(bdr, es[k].geometry).value, es[k])))
    ensures (ts, ok) == ElementLines(es, offset, bdr)
  {
    var (r, rok) := ElementLines(es, offset, bdr);
    assert rok == ok;
    assert |r| == |ts|;
    assert r == ts;
  }

  /** The node loop: one line per vertex, numbered from 1. */
  method WriteNodes(vs: seq<seq<real>>) returns (ts: seq<Token>)
    ensures ts == NodeLines(vs)
  {
    ts := [];
    for i := 0 to |vs|
      invariant ts == NodeLines(vs[..i])
    {
      assert vs[..i + 1][..i] == vs[..i];
      ts := ts + NodeLine(i, vs[i]);
    }
    assert vs[..|vs|] == vs;
  }

  /** MeshPrinter<GMSH>::print: the node loop, then the boundary and the
      element loops. */
  method PrintGmsh(m: Mesh, precision: int) returns (p: Printed)
    ensures p == GmshOutput(m.vertices, m.boundary, m.elements, precision)
  {
    var vs := m.vertices;
    var nodes := WriteNodes(vs);
    var out := [Chars(GmshHead(precision)), Chars("$Nodes\n"), Chars(IntText(|vs|) + "\n")] + nodes +
      [Chars("$EndNodes\n"), Chars("$Elements\n"), Chars(IntText(|m.boundary| + |m.elements|) + "\n")];
    assert out == GmshHeadTokens(vs, |m.boundary| + |m.elements|, precision);
    var b, okb := WriteElementLines(m.boundary, 0, true);
    if !okb {
      return Printed(out + b, Raised("Unknown boundary element type."));
    }
    var e, oke := WriteElementLines(m.elements, |m.boundary|, false);
    if !oke {
      return Printed(out + b + e, Raised("Unknown element type."));
    }
    return Printed(out + b + e + [Chars("$EndElements\n")], Succeeded);
  }

  /** The line of one MEDIT cell. */
  method WriteCellLine(k: CellKind, e: Polytope) returns (line: string)
    requires |e.vertices| >= Arity(k)
    ensures line == CellLine(k, e)
  {
    var v := e.vertices;
    match k {
      case TriangleCell =>
        line := IntText(v[0] + 1) + " " + IntText(v[1] + 1) + " " + IntText(v[2] + 1) + " " + IntText(e.attribute) + "\n";
      case TetrahedronCell =>
        line := IntText(v[0] + 1) + " " + IntText(v[1] + 1) + " " + IntText(v[2] + 1) + " " + IntText(v[3] + 1) + " " + IntText(e.attribute) + "\n";
      case EdgeCell =>
        line := IntText(v[0] + 1) + " " + IntText(v[1] + 1) + " " + IntText(e.attribute) + "\n";
    }
  }

  lemma CellLinesSnoc(k: CellKind, es: seq<Polytope>, i: nat)
    requires AllHave(es, Arity(k)) && i < |es|
    ensures CellLines(k, es[..i + 1]) == CellLines(k, es[..i]) + [Chars(CellLine(k, es[i]))]
  {
    assert es[..i + 1][..i] == es[..i];
  }

  /** The lines of one MEDIT cell section. */
  method WriteCells(k: CellKind, es: seq<Polytope>) returns (ts: seq<Token>)
    requires AllHave(es, Arity(k))
    ensures ts == CellLines(k, es)
  {
    ts := [];
    for i := 0 to |es|
      invariant ts == CellLines(k, es[..i])
    {
      var line := WriteCellLine(k, es[i]);
      CellLinesSnoc(k, es, i);
      ts := ts + [Chars(line)];
    }
    assert es[..|es|] == es;
  }

  /** The MEDIT vertex loop with its coordinate loop. */
  method WriteVertices(vs: seq<seq<real>>, sdim: nat) returns (ts: seq<Token>)
    ensures ts == VertexLines(vs, sdim)
  {
    ts := [];
    for i := 0 to |vs|
      invariant ts == VertexLines(vs[..i], sdim)
    {
      assert vs[..i + 1][..i] == vs[..i];
      ghost var before := ts;
      for j := 0 to sdim
        invariant ts == before + MeditCoords(vs[i], j)
      {
        ts := ts + [Number(Coord(vs[i], j)), Chars(" ")];
      }
      ts := ts + [Chars("0\n")];
    }
    assert vs[..|vs|] == vs;
  }

  /** MeshPrinter<MEDIT>::print: the vertex loop with its coordinate loop,
      then the sections of the mesh's dimension. */
  method PrintMedit(m: Mesh) returns (p: Printed)
    requires Printable(m.dim, m.elements, m.boundary)
    ensures p == MeditOutput(m.dim, m.sdim, m.vertices, m.elements, m.boundary)
  {
    var vs, sdim := m.vertices, m.sdim;
    var lines := WriteVertices(vs, sdim);
    var out := [Chars(MeditHead(sdim)), Chars("Vertices\n" + IntText(|vs|) + "\n")] + lines + [Chars("\nTriangles\n")];
    if m.dim == 2 {
      var t := WriteCells(TriangleCell, m.elements);
      out := out + [Chars(IntText(|m.elements|) + "\n")] + t;
    } else if m.dim == 3 {
      var t := WriteCells(TriangleCell, m.boundary);
      out := out + [Chars(IntText(|m.boundary|) + "\n")] + t;
    } else {
      return Printed(out, Failed("Bad mesh dimension: " + IntText(m.dim)));
    }
    if m.dim == 3 {
      var t := WriteCells(TetrahedronCell, m.elements);
      out := out + [Chars("\nTetrahedra\n" + IntText(|m.elements|) + "\n")] + t;
    }
    if m.dim == 2 {
      var t := WriteCells(EdgeCell, m.boundary);
      out := out + [Chars("\nEdges\n" + IntText(|m.boundary|) + "\n")] + t;
    }
    return Printed(out, Succeeded);
  }
}
