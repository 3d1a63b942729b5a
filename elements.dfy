/** Mesh entities as values: geometry types, elements (polytopes with
    vertex ids and an attribute) and faces with the elements they bound. */
module Elements {

  /** The geometry types an element can have. */
  datatype GeometryType = Point | Segment | Triangle | Square | Tetrahedron | Cube | Prism | Pyramid

  /** The number of vertices of each geometry type. */
  function VertexCount(g: GeometryType): (n: nat)
    ensures 1 <= n <= 8
    ensures g.Point? <==> n == 1
    ensures g.Segment? <==> n == 2
    ensures g.Triangle? <==> n == 3
    ensures (g.Square? || g.Tetrahedron?) <==> n == 4
  {
    match g
    case Point => 1
    case Segment => 2
    case Triangle => 3
    case Square => 4
    case Tetrahedron => 4
    case Cube => 8
    case Prism => 6
    case Pyramid => 5
  }

  /** An element or a boundary element: its geometry, its vertex ids and
      its attribute. */
  datatype Polytope = Polytope(geometry: GeometryType, vertices: seq<nat>, attribute: int)

  /** A face of the mesh topology: its geometry and vertex ids, the ids of
      the one or two elements it bounds (a negative id stands for none) and
      whether it lies between two elements. */
  datatype Face = Face(geometry: GeometryType, vertices: seq<nat>, elem1: int, elem2: int, interior: bool)

  /** Face::elements: the adjacent element ids, leaving out negative ones. */
  function FaceElements(f: Face): (r: set<int>)
    ensures forall x :: x in r <==> 0 <= x && (x == f.elem1 || x == f.elem2)
    ensures |r| <= 2
  {
    if f.elem1 >= 0 && f.elem2 >= 0 then {f.elem1, f.elem2}
    else if f.elem1 >= 0 && f.elem2 < 0 then {f.elem1}
    else if f.elem1 < 0 && f.elem2 >= 0 then {f.elem2}
    else {}
  }

  /** A face has two adjacent elements exactly when both ids are elements
      and they differ. */
  lemma FaceElementsPair(f: Face)
    ensures |FaceElements(f)| == 2 <==> 0 <= f.elem1 && 0 <= f.elem2 && f.elem1 != f.elem2
  {
    if f.elem1 >= 0 && f.elem2 >= 0 && f.elem1 == f.elem2 {
      assert FaceElements(f) == {f.elem1};
    }
  }

  /** The adjacent element ids in ascending order, the order in which the
      returned set is iterated. */
  function FaceElementList(f: Face): (r: seq<nat>)
    ensures |r| <= 2 && |r| == |FaceElements(f)|
    ensures forall x :: x in FaceElements(f) <==> x in r
    ensures forall a, b :: 0 <= a < b < |r| ==> r[a] < r[b]
  {
    FaceElementsPair(f);
    var e := FaceElements(f);
    if |e| == 2 then
      (if f.elem1 < f.elem2 then [f.elem1 as nat, f.elem2 as nat] else [f.elem2 as nat, f.elem1 as nat])
    else if f.elem1 >= 0 then
      assert e == {f.elem1};
      [f.elem1 as nat]
    else if f.elem2 >= 0 then
      assert e == {f.elem2};
      [f.elem2 as nat]
    else []
  }
}
