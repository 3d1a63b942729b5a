/** Conversions between the library's meshes and MMG's 2D, 3D and surface
    meshes. MMG numbers points, edges, triangles and tetrahedra from 1, so
    entry 0 of each of its arrays is unused; vertex ids go up by one on the
    way to MMG and down by one on the way back. References (MMG's name for
    attributes) must not be negative, and a kind of entity with a zero
    reference has all its references raised by one. */
module MmgMeshes {
  import opened Wrappers
  import opened Elements
  import opened Meshes

  /** MMG5_Edge: end points a and b and a reference. */
  datatype MmgEdge = MmgEdge(a: nat, b: nat, ref: int)
  /** MMG5_Tria: three point ids and a reference. */
  datatype MmgTria = MmgTria(v0: nat, v1: nat, v2: nat, ref: int)
  /** MMG5_Tetra: four point ids and a reference. */
  datatype MmgTetra = MmgTetra(v0: nat, v1: nat, v2: nat, v3: nat, ref: int)

  /** The used entries 1 .. n of the arrays of an MMG mesh, as 0-based
      sequences: entry k here is entry k + 1 there. */
  datatype MmgData = MmgData(points: seq<seq<real>>, edges: seq<MmgEdge>, trias: seq<MmgTria>, tetras: seq<MmgTetra>)

  /** What the library's mesh holds: dimension, space dimension, vertex
      coordinates, elements and boundary elements. */
  datatype MeshData = MeshData(dim: nat, sdim: nat, vertices: seq<seq<real>>, elements: seq<Polytope>, boundary: seq<Polytope>)

  const NegativeEdge: string := "Negative edge element attributes are not supported."
  const NegativeTriangle: string := "Negative triangle attributes are not supported"
  const NegativeTetrahedron: string := "Negative tetrahedron attributes are not supported"
  const Message1: string := "MMG::Mesh2D is empty (triangle count equals zero)"
  const Message2: string := "MMG::Mesh3D is empty (tetrahedron count equals zero)"
  const Message3: string := "MMG::MeshS is empty (triangle count equals zero)"
  const Message4: string := "Mesh must be two dimensional."
  const Message5: string := "Mesh must be embedded in two dimensional space."
  const Message6: string := "Converting from an empty mesh is not supported."
  const Message7: string := "Converting from a NURBS mfem::Mesh to an MMG::Mesh2D is not supported."
  const Message8: string := "Converting from a non-triangular mfem::Mesh to MMG::Mesh2D is not not supported."
  const Message9: string := "Mesh must be three dimensional."
  const Message10: string := "Mesh must be embedded in three dimensional space."
  const Message11: string := "Converting from a NURBS mfem::Mesh to an MMG::Mesh3D is not supported."
  const Message12: string := "Converting from a non-tetrahedral mfem::Mesh to an MMG::Mesh3D is not not supported."
  const Message13: string := "Mesh must have two dimensional elements, embedded in three dimensional space"
  const Message14: string := "Converting from a NURBS mfem::Mesh to an MMG::MeshS is not supported."

  // ---- well-formedness ---------------------------------------------------

  predicate EdgeIn(e: MmgEdge, np: nat) { 1 <= e.a <= np && 1 <= e.b <= np }
  predicate TriaIn(t: MmgTria, np: nat) { 1 <= t.v0 <= np && 1 <= t.v1 <= np && 1 <= t.v2 <= np }
  predicate TetraIn(t: MmgTetra, np: nat) { 1 <= t.v0 <= np && 1 <= t.v1 <= np && 1 <= t.v2 <= np && 1 <= t.v3 <= np }

  /** Every point has three coordinates and every id names a point. */
  predicate MmgWellFormed(d: MmgData)
  {
    (forall i :: 0 <= i < |d.points| ==> |d.points[i]| == 3) &&
    (forall i :: 0 <= i < |d.edges| ==> EdgeIn(d.edges[i], |d.points|)) &&
    (forall i :: 0 <= i < |d.trias| ==> TriaIn(d.trias[i], |d.points|)) &&
    (forall i :: 0 <= i < |d.tetras| ==> TetraIn(d.tetras[i], |d.points|))
  }

  predicate PolytopeIn(e: Polytope, nv: nat)
  {
    |e.vertices| == VertexCount(e.geometry) && forall j :: 0 <= j < |e.vertices| ==> e.vertices[j] < nv
  }

  /** What the library's meshes guarantee: vertices have sdim coordinates
      (at most three), elements have the vertex count of their geometry
      and refer to existing vertices, and a boundary element of a mesh of
      dimension dim has at least dim vertices. */
  predicate MeshWellFormed(m: MeshData)
  {
    m.sdim <= 3 &&
    (forall i :: 0 <= i < |m.vertices| ==> |m.vertices[i]| == m.sdim) &&
    (forall i :: 0 <= i < |m.elements| ==> PolytopeIn(m.elements[i], |m.vertices|)) &&
    (forall i :: 0 <= i < |m.boundary| ==> PolytopeIn(m.boundary[i], |m.vertices|) && |m.boundary[i].vertices| >= m.dim)
  }

  // ---- references --------------------------------------------------------

  function EdgeRefs(es: seq<MmgEdge>): (r: seq<int>)
    ensures |r| == |es| && forall i :: 0 <= i < |es| ==> r[i] == es[i].ref
  {
    seq(|es|, i requires 0 <= i < |es| => es[i].ref)
  }

  function TriaRefs(ts: seq<MmgTria>): (r: seq<int>)
    ensures |r| == |ts| && forall i :: 0 <= i < |ts| ==> r[i] == ts[i].ref
  {
    seq(|ts|, i requires 0 <= i < |ts| => ts[i].ref)
  }

  function TetraRefs(ts: seq<MmgTetra>): (r: seq<int>)
    ensures |r| == |ts| && forall i :: 0 <= i < |ts| ==> r[i] == ts[i].ref
  {
    seq(|ts|, i requires 0 <= i < |ts| => ts[i].ref)
  }

  predicate HasNegative(refs: seq<int>) { exists i :: 0 <= i < |refs| && refs[i] < 0 }
  predicate HasZero(refs: seq<int>) { exists i :: 0 <= i < |refs| && refs[i] == 0 }

  /** A bool added to an int: the shift applied to every reference. */
  function Shift(flag: bool): (r: int)
    ensures 0 <= r <= 1 && (r == 1 <==> flag)
  {
    if flag then 1 else 0
  }

  /** The flag loop over one kind of entity: it raises at the first
      negative reference and otherwise reports whether some reference is
      zero. */
  method ScanRefs(refs: seq<int>, message: string) returns (r: Result<bool>)
    ensures r.Err? <==> HasNegative(refs)
    ensures r.Err? ==> r.message == message
    ensures r.Ok? ==> (r.value <==> HasZero(refs))
  {
    var shift := false;
    var i := 0;
    while i < |refs|
      invariant 0 <= i <= |refs|
      invariant forall k :: 0 <= k < i ==> refs[k] >= 0
      invariant shift <==> exists k :: 0 <= k < i && refs[k] == 0
    {
      if refs[i] == 0 {
        shift := true;
      }
      if refs[i] < 0 {
        return Err(message);
      }
      i := i + 1;
    }
    return Ok(shift);
  }

  // ---- MMG to the library ------------------------------------------------

  /** AddVertex(c[0], c[1], c[2]) on a mesh of space dimension sdim. */
  function Vertices(points: seq<seq<real>>, sdim: nat): (r: seq<seq<real>>)
    requires forall i :: 0 <= i < |points| ==> |points[i]| >= sdim
    ensures |r| == |points| && forall i :: 0 <= i < |points| ==> r[i] == points[i][..sdim]
  {
    seq(|points|, i requires 0 <= i < |points| => points[i][..sdim])
  }

  function TriangleOf(t: MmgTria, np: nat, shift: int): (e: Polytope)
    requires TriaIn(t, np)
    ensures PolytopeIn(e, np)
  {
    Polytope(Triangle, [t.v0 - 1, t.v1 - 1, t.v2 - 1], t.ref + shift)
  }

  function SegmentOf(e: MmgEdge, np: nat, shift: int): (s: Polytope)
    requires EdgeIn(e, np)
    ensures PolytopeIn(s, np)
  {
    Polytope(Segment, [e.a - 1, e.b - 1], e.ref + shift)
  }

  function TetrahedronOf(t: MmgTetra, np: nat, shift: int): (e: Polytope)
    requires TetraIn(t, np)
    ensures PolytopeIn(e, np)
  {
    Polytope(Tetrahedron, [t.v0 - 1, t.v1 - 1, t.v2 - 1, t.v3 - 1], t.ref + shift)
  }

  function Triangles(ts: seq<MmgTria>, np: nat, shift: int): (r: seq<Polytope>)
    requires forall i :: 0 <= i < |ts| ==> TriaIn(ts[i], np)
    ensures |r| == |ts| && forall i :: 0 <= i < |ts| ==> r[i] == TriangleOf(ts[i], np, shift)
  {
    seq(|ts|, i requires 0 <= i < |ts| => TriangleOf(ts[i], np, shift))
  }

  function Segments(es: seq<MmgEdge>, np: nat, shift: int): (r: seq<Polytope>)
    requires forall i :: 0 <= i < |es| ==> EdgeIn(es[i], np)
    ensures |r| == |es| && forall i :: 0 <= i < |es| ==> r[i] == SegmentOf(es[i], np, shift)
  {
    seq(|es|, i requires 0 <= i < |es| => SegmentOf(es[i], np, shift))
  }

  function Tetrahedra(ts: seq<MmgTetra>, np: nat, shift: int): (r: seq<Polytope>)
    requires forall i :: 0 <= i < |ts| ==> TetraIn(ts[i], np)
    ensures |r| == |ts| && forall i :: 0 <= i < |ts| ==> r[i] == TetrahedronOf(ts[i], np, shift)
  {
    seq(|ts|, i requires 0 <= i < |ts| => TetrahedronOf(ts[i], np, shift))
  }

  /** Cast<MMG::Mesh2D>::to<Rodin::Mesh>: triangles become elements and
      edges boundary segments of a planar mesh. */
  function ToRodin2D(d: MmgData): (r: Result<MeshData>)
    requires MmgWellFormed(d)
  {
    if |d.trias| == 0 then Err(Message1)
    else if HasNegative(EdgeRefs(d.edges)) then Err(NegativeEdge)
    else if HasNegative(TriaRefs(d.trias)) then Err(NegativeTriangle)
    else
      var np := |d.points|;
      Ok(MeshData(2, 2, Vertices(d.points, 2),
                  Triangles(d.trias, np, Shift(HasZero(TriaRefs(d.trias)))),
                  Segments(d.edges, np, Shift(HasZero(EdgeRefs(d.edges))))))
  }

  /** Cast<MMG::Mesh3D>::to<Rodin::Mesh>: tetrahedra become elements and
      triangles boundary elements; edges are only checked. */
  function ToRodin3D(d: MmgData): (r: Result<MeshData>)
    requires MmgWellFormed(d)
  {
    if |d.tetras| == 0 then Err(Message2)
    else if HasNegative(EdgeRefs(d.edges)) then Err(NegativeEdge)
    else if HasNegative(TriaRefs(d.trias)) then Err(NegativeTriangle)
    else if HasNegative(TetraRefs(d.tetras)) then Err(NegativeTetrahedron)
    else
      var np := |d.points|;
      Ok(MeshData(3, 3, Vertices(d.points, 3),
                  Tetrahedra(d.tetras, np, Shift(HasZero(TetraRefs(d.tetras)))),
                  Triangles(d.trias, np, Shift(HasZero(TriaRefs(d.trias))))))
  }

  /** Cast<MMG::MeshS>::to<Rodin::Mesh>: as the 2D conversion, but the
      mesh lives in three-dimensional space. */
  function ToRodinS(d: MmgData): (r: Result<MeshData>)
    requires MmgWellFormed(d)
  {
    if |d.trias| == 0 then Err(Message3)
    else if HasNegative(EdgeRefs(d.edges)) then Err(NegativeEdge)
    else if HasNegative(TriaRefs(d.trias)) then Err(NegativeTriangle)
    else
      var np := |d.points|;
      Ok(MeshData(2, 3, Vertices(d.points, 3),
                  Triangles(d.trias, np, Shift(HasZero(TriaRefs(d.trias)))),
                  Segments(d.edges, np, Shift(HasZero(EdgeRefs(d.edges))))))
  }

  predicate AttributesPositive(ps: seq<Polytope>)
  {
    forall i :: 0 <= i < |ps| ==> ps[i].attribute >= 1
  }

  /** Raising every reference by one when one of them is zero leaves no
      attribute below one. */
  lemma ShiftedTrianglesPositive(ts: seq<MmgTria>, np: nat)
    requires forall i :: 0 <= i < |ts| ==> TriaIn(ts[i], np)
    requires !HasNegative(TriaRefs(ts))
    ensures AttributesPositive(Triangles(ts, np, Shift(HasZero(TriaRefs(ts)))))
  {
    var r := Triangles(ts, np, Shift(HasZero(TriaRefs(ts))));
    forall i | 0 <= i < |ts|
      ensures r[i].attribute >= 1
    {
      assert TriaRefs(ts)[i] == ts[i].ref;
      if ts[i].ref == 0 {
        assert HasZero(TriaRefs(ts));
      }
    }
  }

  lemma ShiftedSegmentsPositive(es: seq<MmgEdge>, np: nat)
    requires forall i :: 0 <= i < |es| ==> EdgeIn(es[i], np)
    requires !HasNegative(EdgeRefs(es))
    ensures AttributesPositive(Segments(es, np, Shift(HasZero(EdgeRefs(es)))))
  {
    var r := Segments(es, np, Shift(HasZero(EdgeRefs(es))));
    forall i | 0 <= i < |es|
      ensures r[i].attribute >= 1
    {
      assert EdgeRefs(es)[i] == es[i].ref;
      if es[i].ref == 0 {
        assert HasZero(EdgeRefs(es));
      }
    }
  }

  lemma ShiftedTetrahedraPositive(ts: seq<MmgTetra>, np: nat)
    requires forall i :: 0 <= i < |ts| ==> TetraIn(ts[i], np)
    requires !HasNegative(TetraRefs(ts))
    ensures AttributesPositive(Tetrahedra(ts, np, Shift(HasZero(TetraRefs(ts)))))
  {
    var r := Tetrahedra(ts, np, Shift(HasZero(TetraRefs(ts))));
    forall i | 0 <= i < |ts|
      ensures r[i].attribute >= 1
    {
      assert TetraRefs(ts)[i] == ts[i].ref;
      if ts[i].ref == 0 {
        assert HasZero(TetraRefs(ts));
      }
    }
  }

  /** A converted 2D mesh is well formed, all its attributes are at least
      one, and it rejects exactly the empty meshes and negative references. */
  lemma ToRodin2DProperties(d: MmgData)
    requires MmgWellFormed(d)
    ensures ToRodin2D(d).Err? <==> |d.trias| == 0 || HasNegative(EdgeRefs(d.edges)) || HasNegative(TriaRefs(d.trias))
    ensures ToRodin2D(d).Ok? ==> MeshWellFormed(ToRodin2D(d).value)
    ensures ToRodin2D(d).Ok? ==> AttributesPositive(ToRodin2D(d).value.elements) && AttributesPositive(ToRodin2D(d).value.boundary)
  {
    if ToRodin2D(d).Ok? {
      ShiftedTrianglesPositive(d.trias, |d.points|);
      ShiftedSegmentsPositive(d.edges, |d.points|);
    }
  }

  lemma ToRodin3DProperties(d: MmgData)
    requires MmgWellFormed(d)
    ensures ToRodin3D(d).Err? <==> |d.tetras| == 0 || HasNegative(EdgeRefs(d.edges)) || HasNegative(TriaRefs(d.trias)) || HasNegative(TetraRefs(d.tetras))
    ensures ToRodin3D(d).Ok? ==> MeshWellFormed(ToRodin3D(d).value)
    ensures ToRodin3D(d).Ok? ==> AttributesPositive(ToRodin3D(d).value.elements) && AttributesPositive(ToRodin3D(d).value.boundary)
  {
    if ToRodin3D(d).Ok? {
      ShiftedTetrahedraPositive(d.tetras, |d.points|);
      ShiftedTrianglesPositive(d.trias, |d.points|);
    }
  }

  lemma ToRodinSProperties(d: MmgData)
    requires MmgWellFormed(d)
    ensures ToRodinS(d).Err? <==> |d.trias| == 0 || HasNegative(EdgeRefs(d.edges)) || HasNegative(TriaRefs(d.trias))
    ensures ToRodinS(d).Ok? ==> MeshWellFormed(ToRodinS(d).value)
    ensures ToRodinS(d).Ok? ==> AttributesPositive(ToRodinS(d).value.elements) && AttributesPositive(ToRodinS(d).value.boundary)
  {
    if ToRodinS(d).Ok? {
      ShiftedTrianglesPositive(d.trias, |d.points|);
      ShiftedSegmentsPositive(d.edges, |d.points|);
    }
  }

  // ---- the library to MMG ------------------------------------------------

  /** The three coordinates MMG stores for a vertex: the mesh's sdim
      coordinates, with the unused ones zero. */
  function PointOf(x: seq<real>): (p: seq<real>)
    requires |x| <= 3
    ensures |p| == 3 && p[..|x|] == x
    ensures forall k :: |x| <= k < 3 ==> p[k] == 0.0
    decreases 3 - |x|
  {
    if |x| == 3 then x else PointOf(x + [0.0])
  }

  function Points(vs: seq<seq<real>>): (r: seq<seq<real>>)
    requires forall i :: 0 <= i < |vs| ==> |vs[i]| <= 3
    ensures |r| == |vs| && forall i :: 0 <= i < |vs| ==> r[i] == PointOf(vs[i])
  {
    seq(|vs|, i requires 0 <= i < |vs| => PointOf(vs[i]))
  }

  function EdgeOf(b: Polytope): (e: MmgEdge)
    requires |b.vertices| >= 2
  {
    MmgEdge(b.vertices[0] + 1, b.vertices[1] + 1, b.attribute)
  }

  function TriaOf(e: Polytope): (t: MmgTria)
    requires |e.vertices| >= 3
  {
    MmgTria(e.vertices[0] + 1, e.vertices[1] + 1, e.vertices[2] + 1, e.attribute)
  }

  function TetraOf(e: Polytope): (t: MmgTetra)
    requires |e.vertices| >= 4
  {
    MmgTetra(e.vertices[0] + 1, e.vertices[1] + 1, e.vertices[2] + 1, e.vertices[3] + 1, e.attribute)
  }

  /** Coordinate k of a point, zero where the point has fewer. */
  function Coord(p: seq<real>, k: nat): (x: real)
    ensures k < |p| ==> x == p[k]
  {
    if k < |p| then p[k] else 0.0
  }

  /** Twice the signed area of the planar triangle a, b, c: positive when
      the vertices turn counter-clockwise. MMG2D_quickarea computes this
      cross product; only its sign is used. */
  function Area(a: seq<real>, b: seq<real>, c: seq<real>): real
  {
    (Coord(b, 0) - Coord(a, 0)) * (Coord(c, 1) - Coord(a, 1)) - (Coord(b, 1) - Coord(a, 1)) * (Coord(c, 0) - Coord(a, 0))
  }

  /** Six times the signed volume of the tetrahedron a, b, c, d: the
      determinant of its edge vectors from a, whose sign MMG5_orvol gives. */
  function Volume(a: seq<real>, b: seq<real>, c: seq<real>, d: seq<real>): real
  {
    var u0, u1, u2 := Coord(b, 0) - Coord(a, 0), Coord(b, 1) - Coord(a, 1), Coord(b, 2) - Coord(a, 2);
    var v0, v1, v2 := Coord(c, 0) - Coord(a, 0), Coord(c, 1) - Coord(a, 1), Coord(c, 2) - Coord(a, 2);
    var w0, w1, w2 := Coord(d, 0) - Coord(a, 0), Coord(d, 1) - Coord(a, 1), Coord(d, 2) - Coord(a, 2);
    u0 * (v1 * w2 - v2 * w1) - u1 * (v0 * w2 - v2 * w0) + u2 * (v0 * w1 - v1 * w0)
  }

  /** Exchanging two vertices reverses the sign. */
  lemma AreaSwap(a: seq<real>, b: seq<real>, c: seq<real>)
    ensures Area(a, c, b) == -Area(a, b, c)
  {
  }

  lemma VolumeSwap(a: seq<real>, b: seq<real>, c: seq<real>, d: seq<real>)
    ensures Volume(a, b, d, c) == -Volume(a, b, c, d)
  {
    var u0, u1, u2 := Coord(b, 0) - Coord(a, 0), Coord(b, 1) - Coord(a, 1), Coord(b, 2) - Coord(a, 2);
    var v0, v1, v2 := Coord(c, 0) - Coord(a, 0), Coord(c, 1) - Coord(a, 1), Coord(c, 2) - Coord(a, 2);
    var w0, w1, w2 := Coord(d, 0) - Coord(a, 0), Coord(d, 1) - Coord(a, 1), Coord(d, 2) - Coord(a, 2);
    assert Volume(a, b, c, d) == u0 * (v1 * w2 - v2 * w1) - u1 * (v0 * w2 - v2 * w0) + u2 * (v0 * w1 - v1 * w0);
    assert Volume(a, b, d, c) == u0 * (w1 * v2 - w2 * v1) - u1 * (w0 * v2 - w2 * v0) + u2 * (w0 * v1 - w1 * v0);
  }

  /** MMG point v (1-based) among the used points; no coordinates when v
      names none. */
  function PointAt(points: seq<seq<real>>, v: nat): (p: seq<real>)
    ensures 1 <= v <= |points| ==> p == points[v - 1]
  {
    if 1 <= v <= |points| then points[v - 1] else []
  }

  predicate TriaNegative(t: MmgTria, points: seq<seq<real>>)
  {
    Area(PointAt(points, t.v0), PointAt(points, t.v1), PointAt(points, t.v2)) < 0.0
  }

  predicate TetraNegative(t: MmgTetra, points: seq<seq<real>>)
  {
    Volume(PointAt(points, t.v0), PointAt(points, t.v1), PointAt(points, t.v2), PointAt(points, t.v3)) < 0.0
  }

  /** A negatively oriented triangle gets v[1] and v[2] exchanged. */
  function Oriented(t: MmgTria, points: seq<seq<real>>): (r: MmgTria)
    ensures r.ref == t.ref && r.v0 == t.v0
    ensures multiset{r.v0, r.v1, r.v2} == multiset{t.v0, t.v1, t.v2}
    ensures TriaIn(t, |points|) ==> TriaIn(r, |points|)
    ensures !TriaNegative(r, points)
    ensures !TriaNegative(t, points) ==> r == t
  {
    if TriaNegative(t, points) then
      AreaSwap(PointAt(points, t.v0), PointAt(points, t.v1), PointAt(points, t.v2));
      t.(v1 := t.v2, v2 := t.v1)
    else t
  }

  /** A negatively oriented tetrahedron gets v[2] and v[3] exchanged. */
  function OrientedTetra(t: MmgTetra, points: seq<seq<real>>): (r: MmgTetra)
    ensures r.ref == t.ref && r.v0 == t.v0 && r.v1 == t.v1
    ensures multiset{r.v0, r.v1, r.v2, r.v3} == multiset{t.v0, t.v1, t.v2, t.v3}
    ensures TetraIn(t, |points|) ==> TetraIn(r, |points|)
    ensures !TetraNegative(r, points)
    ensures !TetraNegative(t, points) ==> r == t
  {
    if TetraNegative(t, points) then
      VolumeSwap(PointAt(points, t.v0), PointAt(points, t.v1), PointAt(points, t.v2), PointAt(points, t.v3));
      t.(v2 := t.v3, v3 := t.v2)
    else t
  }

  predicate AllTriangles(els: seq<Polytope>) { forall i :: 0 <= i < |els| ==> els[i].geometry == Triangle }
  predicate AllTetrahedra(els: seq<Polytope>) { forall i :: 0 <= i < |els| ==> els[i].geometry == Tetrahedron }

  function Edges(bs: seq<Polytope>): (r: seq<MmgEdge>)
    requires forall i :: 0 <= i < |bs| ==> |bs[i].vertices| >= 2
    ensures |r| == |bs| && forall i :: 0 <= i < |bs| ==> r[i] == EdgeOf(bs[i])
  {
    seq(|bs|, i requires 0 <= i < |bs| => EdgeOf(bs[i]))
  }

  function Trias(els: seq<Polytope>): (r: seq<MmgTria>)
    requires forall i :: 0 <= i < |els| ==> |els[i].vertices| >= 3
    ensures |r| == |els| && forall i :: 0 <= i < |els| ==> r[i] == TriaOf(els[i])
  {
    seq(|els|, i requires 0 <= i < |els| => TriaOf(els[i]))
  }

  /** The triangles of a mesh, each oriented counter-clockwise. */
  function OrientedTrias(els: seq<Polytope>, points: seq<seq<real>>): (r: seq<MmgTria>)
    requires forall i :: 0 <= i < |els| ==> |els[i].vertices| >= 3
    ensures |r| == |els| && forall i :: 0 <= i < |els| ==> r[i] == Oriented(TriaOf(els[i]), points)
  {
    seq(|els|, i requires 0 <= i < |els| => Oriented(TriaOf(els[i]), points))
  }

  function OrientedTetras(els: seq<Polytope>, points: seq<seq<real>>): (r: seq<MmgTetra>)
    requires forall i :: 0 <= i < |els| ==> |els[i].vertices| >= 4
    ensures |r| == |els| && forall i :: 0 <= i < |els| ==> r[i] == OrientedTetra(TetraOf(els[i]), points)
  {
    seq(|els|, i requires 0 <= i < |els| => OrientedTetra(TetraOf(els[i]), points))
  }

  /** Vertex ids of the elements, raised by one, name MMG points. */
  lemma IdsShifted(m: MeshData)
    requires MeshWellFormed(m)
    ensures forall i :: 0 <= i < |m.elements| && |m.elements[i].vertices| >= 3 ==> TriaIn(TriaOf(m.elements[i]), |m.vertices|)
    ensures forall i :: 0 <= i < |m.elements| && |m.elements[i].vertices| >= 4 ==> TetraIn(TetraOf(m.elements[i]), |m.vertices|)
    ensures forall i :: 0 <= i < |m.boundary| && |m.boundary[i].vertices| >= 3 ==> TriaIn(TriaOf(m.boundary[i]), |m.vertices|)
    ensures forall i :: 0 <= i < |m.boundary| && |m.boundary[i].vertices| >= 2 ==> EdgeIn(EdgeOf(m.boundary[i]), |m.vertices|)
  {
    forall i | 0 <= i < |m.elements| ensures PolytopeIn(m.elements[i], |m.vertices|) { }
    forall i | 0 <= i < |m.boundary| ensures PolytopeIn(m.boundary[i], |m.vertices|) { }
  }

  /** Cast<Rodin::Mesh>::to<MMG::Mesh2D>: the checks in the order the
      source makes them, then points, edges from the boundary and
      counter-clockwise triangles. */
  function ToMmg2D(m: MeshData, nurbs: bool): (r: Result<MmgData>)
    requires MeshWellFormed(m)
  {
    if m.dim != 2 then Err(Message4)
    else if m.sdim != 2 then Err(Message5)
    else if |m.elements| == 0 then Err(Message6)
    else if nurbs then Err(Message7)
    else if !AllTriangles(m.elements) then Err(Message8)
    else
      IdsShifted(m);
      var points := Points(m.vertices);
      Ok(MmgData(points, Edges(m.boundary), OrientedTrias(m.elements, points), []))
  }

  /** Cast<Rodin::Mesh>::to<MMG::Mesh3D>: boundary triangles as they are,
      positively oriented tetrahedra and no edges. */
  function ToMmg3D(m: MeshData, nurbs: bool): (r: Result<MmgData>)
    requires MeshWellFormed(m)
  {
    if m.dim != 3 then Err(Message9)
    else if m.sdim != 3 then Err(Message10)
    else if |m.elements| == 0 then Err(Message6)
    else if nurbs then Err(Message11)
    else if !AllTetrahedra(m.elements) then Err(Message12)
    else
      IdsShifted(m);
      var points := Points(m.vertices);
      Ok(MmgData(points, [], Trias(m.boundary), OrientedTetras(m.elements, points)))
  }

  /** Cast<Rodin::Mesh>::to<MMG::MeshS>: no reorientation. */
  function ToMmgS(m: MeshData, nurbs: bool): (r: Result<MmgData>)
    requires MeshWellFormed(m)
  {
    if !(m.dim == 2 && m.sdim == 3) then Err(Message13)
    else if |m.elements| == 0 then Err(Message6)
    else if nurbs then Err(Message14)
    else if !AllTriangles(m.elements) then Err(Message8)
    else
      IdsShifted(m);
      Ok(MmgData(Points(m.vertices), Edges(m.boundary), Trias(m.elements), []))
  }

  /** What the 2D conversion produces once its checks pass. */
  lemma ToMmg2DValue(m: MeshData)
    requires MeshWellFormed(m) && m.dim == 2 && m.sdim == 2 && |m.elements| > 0 && AllTriangles(m.elements)
    ensures forall i :: 0 <= i < |m.elements| ==> |m.elements[i].vertices| >= 3
    ensures forall i :: 0 <= i < |m.boundary| ==> |m.boundary[i].vertices| >= 2
    ensures ToMmg2D(m, false) == Ok(MmgData(Points(m.vertices), Edges(m.boundary), OrientedTrias(m.elements, Points(m.vertices)), []))
  {
    IdsShifted(m);
  }

  lemma ToMmg3DValue(m: MeshData)
    requires MeshWellFormed(m) && m.dim == 3 && m.sdim == 3 && |m.elements| > 0 && AllTetrahedra(m.elements)
    ensures forall i :: 0 <= i < |m.elements| ==> |m.elements[i].vertices| >= 4
    ensures forall i :: 0 <= i < |m.boundary| ==> |m.boundary[i].vertices| >= 3
    ensures ToMmg3D(m, false) == Ok(MmgData(Points(m.vertices), [], Trias(m.boundary), OrientedTetras(m.elements, Points(m.vertices))))
  {
    IdsShifted(m);
  }

  lemma ToMmgSValue(m: MeshData)
    requires MeshWellFormed(m) && m.dim == 2 && m.sdim == 3 && |m.elements| > 0 && AllTriangles(m.elements)
    ensures forall i :: 0 <= i < |m.elements| ==> |m.elements[i].vertices| >= 3
    ensures forall i :: 0 <= i < |m.boundary| ==> |m.boundary[i].vertices| >= 2
    ensures ToMmgS(m, false) == Ok(MmgData(Points(m.vertices), Edges(m.boundary), Trias(m.elements), []))
  {
    IdsShifted(m);
  }

  /** Orienting keeps every triangle on the MMG points and leaves none
      negative. */
  lemma OrientedTriasIn(els: seq<Polytope>, points: seq<seq<real>>)
    requires forall i :: 0 <= i < |els| ==> |els[i].vertices| >= 3
    requires forall i :: 0 <= i < |els| ==> TriaIn(TriaOf(els[i]), |points|)
    ensures forall i :: 0 <= i < |els| ==> TriaIn(OrientedTrias(els, points)[i], |points|)
    ensures forall i :: 0 <= i < |els| ==> !TriaNegative(OrientedTrias(els, points)[i], points)
  {
  }

  lemma OrientedTetrasIn(els: seq<Polytope>, points: seq<seq<real>>)
    requires forall i :: 0 <= i < |els| ==> |els[i].vertices| >= 4
    requires forall i :: 0 <= i < |els| ==> TetraIn(TetraOf(els[i]), |points|)
    ensures forall i :: 0 <= i < |els| ==> TetraIn(OrientedTetras(els, points)[i], |points|)
    ensures forall i :: 0 <= i < |els| ==> !TetraNegative(OrientedTetras(els, points)[i], points)
  {
  }

  /** The conversion to MMG::Mesh2D rejects exactly what its checks name,
      and what it produces is a well-formed MMG mesh whose triangles are all
      counter-clockwise. */
  lemma ToMmg2DProperties(m: MeshData, nurbs: bool)
    requires MeshWellFormed(m)
    ensures ToMmg2D(m, nurbs).Err? <==> m.dim != 2 || m.sdim != 2 || |m.elements| == 0 || nurbs || !AllTriangles(m.elements)
    ensures ToMmg2D(m, nurbs).Ok? ==> MmgWellFormed(ToMmg2D(m, nurbs).value)
    ensures ToMmg2D(m, nurbs).Ok? ==> var d := ToMmg2D(m, nurbs).value;
      forall i :: 0 <= i < |d.trias| ==> !TriaNegative(d.trias[i], d.points)
  {
    if ToMmg2D(m, nurbs).Ok? {
      ToMmg2DValue(m);
      IdsShifted(m);
      OrientedTriasIn(m.elements, Points(m.vertices));
    }
  }

  /** The conversion to MMG::Mesh3D: its checks, a well-formed result and
      positively oriented tetrahedra. */
  lemma ToMmg3DProperties(m: MeshData, nurbs: bool)
    requires MeshWellFormed(m)
    ensures ToMmg3D(m, nurbs).Err? <==> m.dim != 3 || m.sdim != 3 || |m.elements| == 0 || nurbs || !AllTetrahedra(m.elements)
    ensures ToMmg3D(m, nurbs).Ok? ==> MmgWellFormed(ToMmg3D(m, nurbs).value)
    ensures ToMmg3D(m, nurbs).Ok? ==> var d := ToMmg3D(m, nurbs).value;
      forall i :: 0 <= i < |d.tetras| ==> !TetraNegative(d.tetras[i], d.points)
  {
    if ToMmg3D(m, nurbs).Ok? {
      ToMmg3DValue(m);
      IdsShifted(m);
      OrientedTetrasIn(m.elements, Points(m.vertices));
    }
  }

  /** The conversion to MMG::MeshS: its checks and a well-formed result. */
  lemma ToMmgSProperties(m: MeshData, nurbs: bool)
    requires MeshWellFormed(m)
    ensures ToMmgS(m, nurbs).Err? <==> m.dim != 2 || m.sdim != 3 || |m.elements| == 0 || nurbs || !AllTriangles(m.elements)
    ensures ToMmgS(m, nurbs).Ok? ==> MmgWellFormed(ToMmgS(m, nurbs).value)
  {
    if ToMmgS(m, nurbs).Ok? {
      ToMmgSValue(m);
      IdsShifted(m);
    }
  }

  /** Padding to three coordinates and keeping the first two gives back
      planar coordinates. */
  lemma VerticesBack(vs: seq<seq<real>>)
    requires forall i :: 0 <= i < |vs| ==> |vs[i]| == 2
    ensures Vertices(Points(vs), 2) == vs
  {
    var r := Vertices(Points(vs), 2);
    forall i | 0 <= i < |vs| ensures r[i] == vs[i] {
      assert PointOf(vs[i])[..|vs[i]|] == vs[i];
    }
  }

  /** The element's first three vertices turn counter-clockwise (or lie
      on a line). */
  predicate CounterClockwise(e: Polytope, vs: seq<seq<real>>)
    requires PolytopeIn(e, |vs|)
  {
    |e.vertices| >= 3 ==> Area(vs[e.vertices[0]], vs[e.vertices[1]], vs[e.vertices[2]]) >= 0.0
  }

  /** One counter-clockwise triangle keeps its vertex order on the way to
      MMG, and lowering the ids again gives it back. */
  lemma TriangleBack(e: Polytope, vs: seq<seq<real>>)
    requires forall i :: 0 <= i < |vs| ==> |vs[i]| == 2
    requires PolytopeIn(e, |vs|) && e.geometry == Triangle && CounterClockwise(e, vs)
    ensures TriaIn(TriaOf(e), |vs|)
    ensures Oriented(TriaOf(e), Points(vs)) == TriaOf(e)
    ensures TriangleOf(TriaOf(e), |vs|, 0) == e
  {
    var points := Points(vs);
    assert PointOf(vs[e.vertices[0]])[..2] == vs[e.vertices[0]];
    assert PointOf(vs[e.vertices[1]])[..2] == vs[e.vertices[1]];
    assert PointOf(vs[e.vertices[2]])[..2] == vs[e.vertices[2]];
    assert !TriaNegative(TriaOf(e), points);
    assert e.vertices == [e.vertices[0], e.vertices[1], e.vertices[2]];
  }

  /** Counter-clockwise triangles come back unchanged. */
  lemma TrianglesBack(els: seq<Polytope>, vs: seq<seq<real>>)
    requires forall i :: 0 <= i < |vs| ==> |vs[i]| == 2
    requires forall i :: 0 <= i < |els| ==> PolytopeIn(els[i], |vs|) && els[i].geometry == Triangle && CounterClockwise(els[i], vs)
    ensures forall i :: 0 <= i < |els| ==> |els[i].vertices| >= 3 && TriaIn(TriaOf(els[i]), |vs|)
    ensures Triangles(OrientedTrias(els, Points(vs)), |vs|, 0) == els
  {
    forall i | 0 <= i < |els| ensures |els[i].vertices| >= 3 && TriaIn(TriaOf(els[i]), |vs|) {
      TriangleBack(els[i], vs);
    }
    var ts := OrientedTrias(els, Points(vs));
    forall i | 0 <= i < |els| ensures TriangleOf(ts[i], |vs|, 0) == els[i] {
      TriangleBack(els[i], vs);
    }
  }

  /** Raising and lowering the ids of boundary segments gives them back. */
  lemma SegmentsBack(bs: seq<Polytope>, nv: nat)
    requires forall i :: 0 <= i < |bs| ==> |bs[i].vertices| == 2 && PolytopeIn(bs[i], nv) && bs[i].geometry == Segment
    ensures forall i :: 0 <= i < |bs| ==> EdgeIn(EdgeOf(bs[i]), nv)
    ensures Segments(Edges(bs), nv, 0) == bs
  {
    var es := Edges(bs);
    forall i | 0 <= i < |bs|
      ensures EdgeIn(es[i], nv) && SegmentOf(es[i], nv, 0) == bs[i]
    {
      var b := bs[i];
      assert PolytopeIn(b, nv);
      assert b.vertices == [b.vertices[0], b.vertices[1]];
    }
  }

  /** A planar triangle mesh with positive attributes, segments as boundary
      elements and counter-clockwise triangles comes back unchanged from
      MMG: the two id shifts cancel and no reference is raised. */
  lemma RoundTrip2D(m: MeshData)
    requires MeshWellFormed(m) && m.dim == 2 && m.sdim == 2 && |m.elements| > 0 && AllTriangles(m.elements)
    requires forall i :: 0 <= i < |m.boundary| ==> m.boundary[i].geometry == Segment
    requires AttributesPositive(m.elements) && AttributesPositive(m.boundary)
    requires forall i :: 0 <= i < |m.elements| ==> CounterClockwise(m.elements[i], m.vertices)
    ensures ToMmg2D(m, false).Ok? && MmgWellFormed(ToMmg2D(m, false).value)
    ensures ToRodin2D(ToMmg2D(m, false).value) == Ok(m)
  {
    ToMmg2DProperties(m, false);
    var d := ToMmg2D(m, false).value;
    forall i | 0 <= i < |m.boundary| ensures |m.boundary[i].vertices| == 2 && PolytopeIn(m.boundary[i], |m.vertices|) {
      assert PolytopeIn(m.boundary[i], |m.vertices|);
    }
    TrianglesBack(m.elements, m.vertices);
    SegmentsBack(m.boundary, |m.vertices|);
    VerticesBack(m.vertices);
    assert d == MmgData(Points(m.vertices), Edges(m.boundary), OrientedTrias(m.elements, Points(m.vertices)), []);
    forall i | 0 <= i < |d.trias| ensures d.trias[i].ref >= 1 {
      assert d.trias[i].ref == m.elements[i].attribute;
    }
    forall i | 0 <= i < |d.edges| ensures d.edges[i].ref >= 1 {
      assert d.edges[i].ref == m.boundary[i].attribute;
    }
    assert !HasZero(TriaRefs(d.trias)) && !HasNegative(TriaRefs(d.trias));
    assert !HasZero(EdgeRefs(d.edges)) && !HasNegative(EdgeRefs(d.edges));
  }

  // ---- the MMG mesh structure --------------------------------------------

  /** MMG5_Mesh: entity counts, their initial copies npi/nai/nti, and
      1-indexed arrays of points, edges, triangles and tetrahedra. */
  class MmgMesh {
    var np: nat
    var na: nat
    var nt: nat
    var ne: nat
    var npi: nat
    var nai: nat
    var nti: nat
    const point: array<seq<real>>
    const edge: array<MmgEdge>
    const tria: array<MmgTria>
    const tetra: array<MmgTetra>

    /** Sets the counts and allocates the arrays, as MMG's zaldy does once
        np, na, nt and ne are known; every entry starts empty. */
    constructor (np: nat, na: nat, nt: nat, ne: nat)
      ensures this.np == np && this.na == na && this.nt == nt && this.ne == ne
      ensures npi == np && nai == na && nti == nt
      ensures point.Length == np + 1 && edge.Length == na + 1 && tria.Length == nt + 1 && tetra.Length == ne + 1
      ensures fresh(point) && fresh(edge) && fresh(tria) && fresh(tetra)
    {
      this.np, this.na, this.nt, this.ne := np, na, nt, ne;
      npi, nai, nti := np, na, nt;
      point := new seq<real>[np + 1](_ => [0.0, 0.0, 0.0]);
      edge := new MmgEdge[na + 1](_ => MmgEdge(0, 0, 0));
      tria := new MmgTria[nt + 1](_ => MmgTria(0, 0, 0, 0));
      tetra := new MmgTetra[ne + 1](_ => MmgTetra(0, 0, 0, 0, 0));
    }

    predicate Valid()
      reads this, point, edge, tria, tetra
    {
      point.Length > np && edge.Length > na && tria.Length > nt && tetra.Length > ne &&
      MmgWellFormed(Contents())
    }

    /** The used entries, 1 .. n of each array. */
    function Contents(): (d: MmgData)
      reads this, point, edge, tria, tetra
      requires point.Length > np && edge.Length > na && tria.Length > nt && tetra.Length > ne
      ensures |d.points| == np && |d.edges| == na && |d.trias| == nt && |d.tetras| == ne
      ensures forall k :: 0 <= k < np ==> d.points[k] == point[k + 1]
      ensures forall k :: 0 <= k < nt ==> d.trias[k] == tria[k + 1]
    {
      MmgData(point[1..np + 1], edge[1..na + 1], tria[1..nt + 1], tetra[1..ne + 1])
    }
  }

  // ---- the copy loops ----------------------------------------------------

  /** for i in 1 .. np: AddVertex(point[i].c[0], point[i].c[1], point[i].c[2]). */
  method CopyVertices(points: seq<seq<real>>, sdim: nat) returns (vs: seq<seq<real>>)
    requires forall i :: 0 <= i < |points| ==> |points[i]| >= sdim
    ensures vs == Vertices(points, sdim)
  {
    vs := [];
    var i := 0;
    while i < |points|
      invariant 0 <= i <= |points| && |vs| == i
      invariant forall k :: 0 <= k < i ==> vs[k] == points[k][..sdim]
    {
      vs := vs + [points[i][..sdim]];
      i := i + 1;
    }
  }

  method CopyTriangles(ts: seq<MmgTria>, np: nat, shift: int) returns (els: seq<Polytope>)
    requires forall i :: 0 <= i < |ts| ==> TriaIn(ts[i], np)
    ensures els == Triangles(ts, np, shift)
  {
    els := [];
    var i := 0;
    while i < |ts|
      invariant 0 <= i <= |ts| && |els| == i
      invariant forall k :: 0 <= k < i ==> els[k] == TriangleOf(ts[k], np, shift)
    {
      var t := ts[i];
      els := els + [Polytope(Triangle, [t.v0 - 1, t.v1 - 1, t.v2 - 1], t.ref + shift)];
      i := i + 1;
    }
  }

  method CopySegments(es: seq<MmgEdge>, np: nat, shift: int) returns (els: seq<Polytope>)
    requires forall i :: 0 <= i < |es| ==> EdgeIn(es[i], np)
    ensures els == Segments(es, np, shift)
  {
    els := [];
    var i := 0;
    while i < |es|
      invariant 0 <= i <= |es| && |els| == i
      invariant forall k :: 0 <= k < i ==> els[k] == SegmentOf(es[k], np, shift)
    {
      var e := es[i];
      els := els + [Polytope(Segment, [e.a - 1, e.b - 1], e.ref + shift)];
      i := i + 1;
    }
  }

  method CopyTetrahedra(ts: seq<MmgTetra>, np: nat, shift: int) returns (els: seq<Polytope>)
    requires forall i :: 0 <= i < |ts| ==> TetraIn(ts[i], np)
    ensures els == Tetrahedra(ts, np, shift)
  {
    els := [];
    var i := 0;
    while i < |ts|
      invariant 0 <= i <= |ts| && |els| == i
      invariant forall k :: 0 <= k < i ==> els[k] == TetrahedronOf(ts[k], np, shift)
    {
      var t := ts[i];
      els := els + [Polytope(Tetrahedron, [t.v0 - 1, t.v1 - 1, t.v2 - 1, t.v3 - 1], t.ref + shift)];
      i := i + 1;
    }
  }

  // ---- the conversions as the source runs them ---------------------------

  method Mesh2DToRodin(src: MmgMesh) returns (r: Result<MeshData>)
    requires src.Valid()
    ensures r == ToRodin2D(src.Contents())
  {
    var d := src.Contents();
    if src.nt == 0 {
      return Err(Message1);
    }
    var shiftEdge := ScanRefs(EdgeRefs(d.edges), NegativeEdge);
    if shiftEdge.Err? {
      return Err(NegativeEdge);
    }
    var shiftTri := ScanRefs(TriaRefs(d.trias), NegativeTriangle);
    if shiftTri.Err? {
      return Err(NegativeTriangle);
    }
    var vertices := CopyVertices(d.points, 2);
    var elements := CopyTriangles(d.trias, src.np, Shift(shiftTri.value));
    var boundary := CopySegments(d.edges, src.np, Shift(shiftEdge.value));
    return Ok(MeshData(2, 2, vertices, elements, boundary));
  }

  method Mesh3DToRodin(src: MmgMesh) returns (r: Result<MeshData>)
    requires src.Valid()
    ensures r == ToRodin3D(src.Contents())
  {
    var d := src.Contents();
    if src.ne == 0 {
      return Err(Message2);
    }
    var shiftEdge := ScanRefs(EdgeRefs(d.edges), NegativeEdge);
    if shiftEdge.Err? {
      return Err(NegativeEdge);
    }
    var shiftTri := ScanRefs(TriaRefs(d.trias), NegativeTriangle);
    if shiftTri.Err? {
      return Err(NegativeTriangle);
    }
    var shiftTet := ScanRefs(TetraRefs(d.tetras), NegativeTetrahedron);
    if shiftTet.Err? {
      return Err(NegativeTetrahedron);
    }
    var vertices := CopyVertices(d.points, 3);
    var boundary := CopyTriangles(d.trias, src.np, Shift(shiftTri.value));
    var elements := CopyTetrahedra(d.tetras, src.np, Shift(shiftTet.value));
    return Ok(MeshData(3, 3, vertices, elements, boundary));
  }

  method MeshSToRodin(src: MmgMesh) returns (r: Result<MeshData>)
    requires src.Valid()
    ensures r == ToRodinS(src.Contents())
  {
    var d := src.Contents();
    if src.nt == 0 {
      return Err(Message3);
    }
    var shiftEdge := ScanRefs(EdgeRefs(d.edges), NegativeEdge);
    if shiftEdge.Err? {
      return Err(NegativeEdge);
    }
    var shiftTri := ScanRefs(TriaRefs(d.trias), NegativeTriangle);
    if shiftTri.Err? {
      return Err(NegativeTriangle);
    }
    var vertices := CopyVertices(d.points, 3);
    var elements := CopyTriangles(d.trias, src.np, Shift(shiftTri.value));
    var boundary := CopySegments(d.edges, src.np, Shift(shiftEdge.value));
    return Ok(MeshData(2, 3, vertices, elements, boundary));
  }

  // ---- the library to MMG, as the source runs it -------------------------

  /** The part of a mesh the conversions read. */
  function DataOf(mesh: Mesh): (m: MeshData)
    reads mesh
    ensures m.dim == mesh.dim && m.sdim == mesh.sdim && m.vertices == mesh.vertices
    ensures m.elements == mesh.elements && m.boundary == mesh.boundary
  {
    MeshData(mesh.dim, mesh.sdim, mesh.vertices, mesh.elements, mesh.boundary)
  }

  /** for i in 1 .. np: copy the three coordinates of vertex i - 1. */
  method FillPoints(point: array<seq<real>>, vs: seq<seq<real>>)
    requires point.Length == |vs| + 1 && forall i :: 0 <= i < |vs| ==> |vs[i]| <= 3
    modifies point
    ensures point[1..] == Points(vs)
  {
    var i := 1;
    while i <= |vs|
      invariant 1 <= i <= |vs| + 1
      invariant forall k :: 1 <= k < i ==> point[k] == PointOf(vs[k - 1])
    {
      point[i] := PointOf(vs[i - 1]);
      i := i + 1;
    }
  }

  /** for i in 1 .. na: an edge from the first two vertices of boundary
      element i - 1, raised by one. */
  method FillEdges(edge: array<MmgEdge>, bs: seq<Polytope>)
    requires edge.Length == |bs| + 1 && forall i :: 0 <= i < |bs| ==> |bs[i].vertices| >= 2
    modifies edge
    ensures edge[1..] == Edges(bs)
  {
    var i := 1;
    while i <= |bs|
      invariant 1 <= i <= |bs| + 1
      invariant forall k :: 1 <= k < i ==> edge[k] == EdgeOf(bs[k - 1])
    {
      var vertices := bs[i - 1].vertices;
      edge[i] := MmgEdge(vertices[0] + 1, vertices[1] + 1, bs[i - 1].attribute);
      i := i + 1;
    }
  }

  /** for i in 1 .. nt: a triangle from element (or boundary element)
      i - 1, raised by one, with no reorientation. */
  method FillTrias(tria: array<MmgTria>, els: seq<Polytope>)
    requires tria.Length == |els| + 1 && forall i :: 0 <= i < |els| ==> |els[i].vertices| >= 3
    modifies tria
    ensures tria[1..] == Trias(els)
  {
    var i := 1;
    while i <= |els|
      invariant 1 <= i <= |els| + 1
      invariant forall k :: 1 <= k < i ==> tria[k] == TriaOf(els[k - 1])
    {
      var vertices := els[i - 1].vertices;
      tria[i] := MmgTria(vertices[0] + 1, vertices[1] + 1, vertices[2] + 1, els[i - 1].attribute);
      i := i + 1;
    }
  }

  /** Triangle i of the orientation loop: store it raised by one and, when
      its area is negative, exchange v[1] and v[2]. */
  method OrientTria(tria: array<MmgTria>, point: array<seq<real>>, els: seq<Polytope>, i: nat)
    requires tria.Length == |els| + 1 && point.Length >= 1 && 1 <= i <= |els|
    requires forall k :: 0 <= k < |els| ==> |els[k].vertices| >= 3
    modifies tria
    ensures tria[i] == OrientedTrias(els, point[1..])[i - 1]
    ensures tria[..i] == old(tria[..i])
  {
    var vertices := els[i - 1].vertices;
    tria[i] := MmgTria(vertices[0] + 1, vertices[1] + 1, vertices[2] + 1, els[i - 1].attribute);
    var t := tria[i];
    assert t == TriaOf(els[i - 1]);
    if TriaNegative(t, point[1..]) {
      tria[i] := t.(v1 := t.v2, v2 := t.v1);
    }
  }

  /** The triangle loop of the 2D conversion. */
  method FillOrientedTrias(tria: array<MmgTria>, point: array<seq<real>>, els: seq<Polytope>)
    requires tria.Length == |els| + 1 && point.Length >= 1
    requires forall i :: 0 <= i < |els| ==> |els[i].vertices| >= 3
    modifies tria
    ensures tria[1..] == OrientedTrias(els, point[1..])
  {
    ghost var points := point[1..];
    ghost var target := OrientedTrias(els, points);
    var i := 1;
    while i <= |els|
      invariant 1 <= i <= |els| + 1
      invariant tria[1..i] == target[..i - 1]
    {
      OrientTria(tria, point, els, i);
      assert tria[1..i + 1] == tria[1..i] + [tria[i]];
      assert target[..i] == target[..i - 1] + [target[i - 1]];
      i := i + 1;
    }
    assert tria[1..] == tria[1..i];
  }

  /** Tetrahedron i of the orientation loop: v[2] and v[3] are exchanged
      when the volume is negative. */
  method OrientTetra(tetra: array<MmgTetra>, point: array<seq<real>>, els: seq<Polytope>, i: nat)
    requires tetra.Length == |els| + 1 && point.Length >= 1 && 1 <= i <= |els|
    requires forall k :: 0 <= k < |els| ==> |els[k].vertices| >= 4
    modifies tetra
    ensures tetra[i] == OrientedTetras(els, point[1..])[i - 1]
    ensures tetra[..i] == old(tetra[..i])
  {
    var vertices := els[i - 1].vertices;
    tetra[i] := MmgTetra(vertices[0] + 1, vertices[1] + 1, vertices[2] + 1, vertices[3] + 1, els[i - 1].attribute);
    var t := tetra[i];
    assert t == TetraOf(els[i - 1]);
    if TetraNegative(t, point[1..]) {
      tetra[i] := t.(v2 := t.v3, v3 := t.v2);
    }
  }

  /** The tetrahedron loop of the 3D conversion. */
  method FillOrientedTetras(tetra: array<MmgTetra>, point: array<seq<real>>, els: seq<Polytope>)
    requires tetra.Length == |els| + 1 && point.Length >= 1
    requires forall i :: 0 <= i < |els| ==> |els[i].vertices| >= 4
    modifies tetra
    ensures tetra[1..] == OrientedTetras(els, point[1..])
  {
    ghost var points := point[1..];
    ghost var target := OrientedTetras(els, points);
    var i := 1;
    while i <= |els|
      invariant 1 <= i <= |els| + 1
      invariant tetra[1..i] == target[..i - 1]
    {
      OrientTetra(tetra, point, els, i);
      assert tetra[1..i + 1] == tetra[1..i] + [tetra[i]];
      assert target[..i] == target[..i - 1] + [target[i - 1]];
      i := i + 1;
    }
    assert tetra[1..] == tetra[1..i];
  }

  /** What the 2D conversion builds once its checks pass. */
  method Build2D(m: MeshData) returns (res: MmgMesh)
    requires MeshWellFormed(m) && m.dim == 2 && m.sdim == 2 && |m.elements| > 0 && AllTriangles(m.elements)
    ensures fresh(res) && res.Valid() && ToMmg2D(m, false).Ok?
    ensures res.Contents() == ToMmg2D(m, false).value
  {
    ToMmg2DValue(m);
    ToMmg2DProperties(m, false);
    res := new MmgMesh(|m.vertices|, |m.boundary|, |m.elements|, 0);
    FillPoints(res.point, m.vertices);
    FillEdges(res.edge, m.boundary);
    FillOrientedTrias(res.tria, res.point, m.elements);
    assert res.point[1..res.np + 1] == res.point[1..];
    assert res.edge[1..res.na + 1] == res.edge[1..];
    assert res.tria[1..res.nt + 1] == res.tria[1..];
    assert res.tetra[1..res.ne + 1] == [];
  }

  /** What the 3D conversion builds once its checks pass. */
  method Build3D(m: MeshData) returns (res: MmgMesh)
    requires MeshWellFormed(m) && m.dim == 3 && m.sdim == 3 && |m.elements| > 0 && AllTetrahedra(m.elements)
    ensures fresh(res) && res.Valid() && ToMmg3D(m, false).Ok?
    ensures res.Contents() == ToMmg3D(m, false).value
  {
    ToMmg3DValue(m);
    ToMmg3DProperties(m, false);
    res := new MmgMesh(|m.vertices|, 0, |m.boundary|, |m.elements|);
    FillPoints(res.point, m.vertices);
    FillTrias(res.tria, m.boundary);
    FillOrientedTetras(res.tetra, res.point, m.elements);
    assert res.point[1..res.np + 1] == res.point[1..];
    assert res.edge[1..res.na + 1] == [];
    assert res.tria[1..res.nt + 1] == res.tria[1..];
    assert res.tetra[1..res.ne + 1] == res.tetra[1..];
  }

  /** What the surface conversion builds once its checks pass. */
  method BuildS(m: MeshData) returns (res: MmgMesh)
    requires MeshWellFormed(m) && m.dim == 2 && m.sdim == 3 && |m.elements| > 0 && AllTriangles(m.elements)
    ensures fresh(res) && res.Valid() && ToMmgS(m, false).Ok?
    ensures res.Contents() == ToMmgS(m, false).value
  {
    ToMmgSValue(m);
    ToMmgSProperties(m, false);
    res := new MmgMesh(|m.vertices|, |m.boundary|, |m.elements|, 0);
    FillPoints(res.point, m.vertices);
    FillEdges(res.edge, m.boundary);
    FillTrias(res.tria, m.elements);
    assert res.point[1..res.np + 1] == res.point[1..];
    assert res.edge[1..res.na + 1] == res.edge[1..];
    assert res.tria[1..res.nt + 1] == res.tria[1..];
    assert res.tetra[1..res.ne + 1] == [];
  }

  /** Cast<Rodin::Mesh>::to<MMG::Mesh2D>. */
  method Mesh2DFromRodin(mesh: Mesh, nurbs: bool) returns (r: Result<MmgMesh>)
    requires MeshWellFormed(DataOf(mesh))
    ensures r.Err? <==> ToMmg2D(DataOf(mesh), nurbs).Err?
    ensures r.Ok? ==> fresh(r.value) && r.value.Valid() && r.value.Contents() == ToMmg2D(DataOf(mesh), nurbs).value
  {
    if mesh.dim != 2 { return Err(Message4); }
    if mesh.sdim != 2 { return Err(Message5); }
    if |mesh.elements| == 0 { return Err(Message6); }
    if nurbs { return Err(Message7); }
    if !AllTriangles(mesh.elements) {
      return Err(Message8);
    }
    var res := Build2D(DataOf(mesh));
    return Ok(res);
  }

  /** Cast<Rodin::Mesh>::to<MMG::Mesh3D>: no edges are copied. */
  method Mesh3DFromRodin(mesh: Mesh, nurbs: bool) returns (r: Result<MmgMesh>)
    requires MeshWellFormed(DataOf(mesh))
    ensures r.Err? <==> ToMmg3D(DataOf(mesh), nurbs).Err?
    ensures r.Ok? ==> fresh(r.value) && r.value.Valid() && r.value.Contents() == ToMmg3D(DataOf(mesh), nurbs).value
  {
    if mesh.dim != 3 { return Err(Message9); }
    if mesh.sdim != 3 { return Err(Message10); }
    if |mesh.elements| == 0 { return Err(Message6); }
    if nurbs { return Err(Message11); }
    if !AllTetrahedra(mesh.elements) {
      return Err(Message12);
    }
    var res := Build3D(DataOf(mesh));
    return Ok(res);
  }

  /** Cast<Rodin::Mesh>::to<MMG::MeshS>. */
  method MeshSFromRodin(mesh: Mesh, nurbs: bool) returns (r: Result<MmgMesh>)
    requires MeshWellFormed(DataOf(mesh))
    ensures r.Err? <==> ToMmgS(DataOf(mesh), nurbs).Err?
    ensures r.Ok? ==> fresh(r.value) && r.value.Valid() && r.value.Contents() == ToMmgS(DataOf(mesh), nurbs).value
  {
    if !(mesh.dim == 2 && mesh.sdim == 3) {
      return Err(Message13);
    }
    if |mesh.elements| == 0 { return Err(Message6); }
    if nurbs { return Err(Message14); }
    if !AllTriangles(mesh.elements) {
      return Err(Message8);
    }
    var res := BuildS(DataOf(mesh));
    return Ok(res);
  }
}
