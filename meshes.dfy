/** The serial mesh: vertices, elements, boundary elements and the face
    topology computed when the mesh is finalized, with the face-to-boundary
    map the library keeps beside it. Dimensions are size_t values, so
    `dim - 1` wraps around at zero. */
module Meshes {
  import opened Wrappers
  import opened Elements

  /** The largest size_t value. */
  const SizeMax: nat := 0xFFFF_FFFF_FFFF_FFFF

  /** x - 1 computed in size_t arithmetic. */
  function SizeDecrement(x: nat): (r: nat)
    requires x <= SizeMax
    ensures r <= SizeMax
    ensures r == (x + SizeMax) % (SizeMax + 1)
  {
    if x == 0 then SizeMax else x - 1
  }

  predicate StrictlyIncreasing(s: seq<nat>)
  {
    forall a, b :: 0 <= a < b < |s| ==> s[a] < s[b]
  }

  /** The map built by assigning f2b[bdrFace[i]] := i for i = 0, 1, ...:
      every face that carries a boundary element is mapped to one of them. */
  function FaceToBoundary(bdrFace: seq<nat>): (m: map<nat, nat>)
    ensures forall f :: f in m <==> f in bdrFace
    ensures forall f :: f in m ==> m[f] < |bdrFace| && bdrFace[m[f]] == f
  {
    if |bdrFace| == 0 then map[]
    else FaceToBoundary(bdrFace[..|bdrFace| - 1])[bdrFace[|bdrFace| - 1] := |bdrFace| - 1]
  }

  /** One more assignment of the f2b loop on top of earlier entries. */
  lemma FaceToBoundaryStep(m0: map<nat, nat>, bdrFace: seq<nat>, i: nat)
    requires i < |bdrFace|
    ensures m0 + FaceToBoundary(bdrFace[..i + 1]) == (m0 + FaceToBoundary(bdrFace[..i]))[bdrFace[i] := i]
  {
    assert bdrFace[..i + 1][..i] == bdrFace[..i];
    var a := FaceToBoundary(bdrFace[..i]);
    assert FaceToBoundary(bdrFace[..i + 1]) == a[bdrFace[i] := i];
  }

  /** Later assignments win: a face is mapped to its last boundary element. */
  lemma {:induction false} FaceToBoundaryIsLast(bdrFace: seq<nat>, j: nat)
    requires j < |bdrFace|
    ensures bdrFace[j] in FaceToBoundary(bdrFace)
    ensures j <= FaceToBoundary(bdrFace)[bdrFace[j]]
  {
    var n := |bdrFace|;
    var pre := bdrFace[..n - 1];
    assert FaceToBoundary(bdrFace) == FaceToBoundary(pre)[bdrFace[n - 1] := n - 1];
    if j < n - 1 {
      FaceToBoundaryIsLast(pre, j);
      assert pre[j] == bdrFace[j];
    }
  }

  /** The faces of the boundary elements, in boundary-element order, that
      are not interior (getBoundary). */
  function BoundaryFaces(bdrFace: seq<nat>, faces: seq<Face>): (r: seq<nat>)
    requires forall i :: 0 <= i < |bdrFace| ==> bdrFace[i] < |faces|
    ensures |r| <= |bdrFace|
    ensures forall x :: x in r ==> x < |faces| && !faces[x].interior
    ensures forall i :: 0 <= i < |bdrFace| && !faces[bdrFace[i]].interior ==> bdrFace[i] in r
    ensures forall x :: x in r ==> x in bdrFace
  {
    if |bdrFace| == 0 then []
    else
      var rest := BoundaryFaces(bdrFace[..|bdrFace| - 1], faces);
      var f := bdrFace[|bdrFace| - 1];
      if faces[f].interior then rest else rest + [f]
  }

  /** The interior faces among faces 0 .. upto - 1, in ascending order
      (getInterface). */
  function InterfaceFaces(faces: seq<Face>, upto: nat): (r: seq<nat>)
    requires upto <= |faces|
    ensures StrictlyIncreasing(r)
    ensures forall x: nat :: x in r <==> x < upto && faces[x].interior
    ensures forall k :: 0 <= k < |r| ==> r[k] < upto
  {
    if upto == 0 then []
    else
      var rest := InterfaceFaces(faces, upto - 1);
      if faces[upto - 1].interior then rest + [upto - 1] else rest
  }

  /** The serial mesh. `bdrFace[i]` is the face of boundary element i and
      `adjacency[i]` the row of the element-to-element table for element i;
      both are computed by the finalization of the topology. */
  class Mesh {
    var dim: nat
    var sdim: nat
    var vertices: seq<seq<real>>
    var elements: seq<Polytope>
    var boundary: seq<Polytope>
    var faces: seq<Face>
    var bdrFace: seq<nat>
    var adjacency: seq<seq<nat>>
    var f2b: map<nat, nat>
    /** The incidence tables, keyed by the pair of dimensions they relate. */
    var connectivity: map<(nat, nat), Connectivity>
    /** The attribute reported for a face that carries no boundary element. */
    const defaultAttribute: int

    /** What every operation keeps: ids recorded in the topology refer to
        existing faces and elements. */
    predicate Valid()
      reads this
    {
      dim <= SizeMax && sdim <= SizeMax &&
      |bdrFace| <= |boundary| && |adjacency| <= |elements| &&
      (forall i :: 0 <= i < |bdrFace| ==> bdrFace[i] < |faces|) &&
      (forall i, j :: 0 <= i < |adjacency| && 0 <= j < |adjacency[i]| ==> adjacency[i][j] < |elements|) &&
      (forall f :: 0 <= f < |faces| ==> faces[f].elem1 < |elements| && faces[f].elem2 < |elements|) &&
      (forall f :: 0 <= f < |faces| ==> |faces[f].vertices| == VertexCount(faces[f].geometry))
    }

    /** The topology describes the current elements and boundary elements. */
    predicate Finalized()
      reads this
    {
      Valid() && |bdrFace| == |boundary| && |adjacency| == |elements| &&
      (forall f :: f in f2b ==> f2b[f] < |boundary|) &&
      (forall i, j :: 0 <= i < |elements| && 0 <= j < |elements[i].vertices| ==> elements[i].vertices[j] < |vertices|)
    }

    /** Mesh(mfem::Mesh&&): takes over a finalized mesh and builds f2b. */
    constructor (dim: nat, sdim: nat, vertices: seq<seq<real>>, elements: seq<Polytope>, boundary: seq<Polytope>,
                 faces: seq<Face>, bdrFace: seq<nat>, adjacency: seq<seq<nat>>, defaultAttribute: int)
      requires dim <= SizeMax && sdim <= SizeMax
      requires |bdrFace| == |boundary| && |adjacency| == |elements|
      requires forall i :: 0 <= i < |bdrFace| ==> bdrFace[i] < |faces|
      requires forall i, j :: 0 <= i < |adjacency| && 0 <= j < |adjacency[i]| ==> adjacency[i][j] < |elements|
      requires forall f :: 0 <= f < |faces| ==> faces[f].elem1 < |elements| && faces[f].elem2 < |elements|
      requires forall f :: 0 <= f < |faces| ==> |faces[f].vertices| == VertexCount(faces[f].geometry)
      requires forall i, j :: 0 <= i < |elements| && 0 <= j < |elements[i].vertices| ==> elements[i].vertices[j] < |vertices|
      ensures Finalized()
      ensures this.dim == dim && this.sdim == sdim && this.vertices == vertices && this.elements == elements
      ensures this.boundary == boundary && this.faces == faces && this.bdrFace == bdrFace && this.adjacency == adjacency
      ensures this.defaultAttribute == defaultAttribute
      ensures f2b == FaceToBoundary(bdrFace)
      ensures connectivity == map[]
    {
      this.dim, this.sdim, this.vertices, this.elements := dim, sdim, vertices, elements;
      this.boundary, this.faces, this.bdrFace, this.adjacency := boundary, faces, bdrFace, adjacency;
      this.defaultAttribute := defaultAttribute;
      f2b, connectivity := map[], map[];
      new;
      assert Valid();
      BuildFaceToBoundary();
      assert f2b == map[] + FaceToBoundary(bdrFace);
      assert f2b == FaceToBoundary(bdrFace);
    }

    /** The copy constructor: every field is copied. */
    constructor Copy(other: Mesh)
      ensures dim == other.dim && sdim == other.sdim && vertices == other.vertices && elements == other.elements
      ensures boundary == other.boundary && faces == other.faces && bdrFace == other.bdrFace
      ensures adjacency == other.adjacency && f2b == other.f2b && defaultAttribute == other.defaultAttribute
      ensures connectivity == other.connectivity
    {
      dim, sdim, vertices, elements := other.dim, other.sdim, other.vertices, other.elements;
      boundary, faces, bdrFace, adjacency := other.boundary, other.faces, other.bdrFace, other.adjacency;
      f2b, defaultAttribute, connectivity := other.f2b, other.defaultAttribute, other.connectivity;
    }

    /** The loop `f2b[GetBdrElementEdgeIndex(i)] = i` over all boundary
        elements. Earlier entries of f2b are kept unless overwritten. */
    method BuildFaceToBoundary()
      modifies this`f2b
      ensures f2b == old(f2b) + FaceToBoundary(bdrFace)
    {
      var i := 0;
      while i < |bdrFace|
        invariant 0 <= i <= |bdrFace|
        invariant f2b == old(f2b) + FaceToBoundary(bdrFace[..i])
      {
        FaceToBoundaryStep(old(f2b), bdrFace, i);
        f2b := f2b[bdrFace[i] := i];
        i := i + 1;
      }
      assert bdrFace[..i] == bdrFace;
    }

    /** isSurface: spaceDim - 1 == dim in size_t arithmetic. */
    function IsSurface(): (r: bool)
      reads this
      requires Valid()
      ensures r <==> (0 < sdim && dim + 1 == sdim) || (sdim == 0 && dim == SizeMax)
    {
      SizeDecrement(sdim) == dim
    }

    /** getCount: elements for the mesh dimension, faces for one below it,
        vertices for 0; any other dimension is a failed assertion. */
    function GetCount(d: nat): (n: nat)
      reads this
      requires Valid()
      requires d == dim || d == SizeDecrement(dim) || d == 0
      ensures d == dim ==> n == |elements|
      ensures d != dim && d == SizeDecrement(dim) ==> n == |faces|
      ensures d != dim && d != SizeDecrement(dim) ==> n == |vertices|
    {
      if d == dim then |elements|
      else if d == SizeDecrement(dim) then |faces|
      else |vertices|
    }

    /** getBoundary: the faces of the boundary elements that are not
        interior, in boundary-element order. */
    method GetBoundary() returns (r: seq<nat>)
      requires Finalized()
      ensures r == BoundaryFaces(bdrFace, faces)
    {
      r := [];
      var i := 0;
      while i < |boundary|
        invariant 0 <= i <= |boundary|
        invariant r == BoundaryFaces(bdrFace[..i], faces)
      {
        assert bdrFace[..i + 1][..i] == bdrFace[..i];
        var idx := bdrFace[i];
        if !faces[idx].interior {
          r := r + [idx];
        }
        i := i + 1;
      }
      assert bdrFace[..i] == bdrFace;
    }

    /** getInterface: exactly the interior faces, in ascending order. */
    method GetInterface() returns (r: seq<nat>)
      requires Valid()
      ensures StrictlyIncreasing(r)
      ensures forall x: nat :: x in r <==> x < |faces| && faces[x].interior
    {
      r := [];
      var idx := 0;
      while idx < |faces|
        invariant 0 <= idx <= |faces|
        invariant r == InterfaceFaces(faces, idx)
      {
        if faces[idx].interior {
          r := r + [idx];
        }
        idx := idx + 1;
      }
    }

    function IsInterface(f: nat): (r: bool)
      reads this
      requires f < |faces|
      ensures r <==> faces[f].interior
    {
      faces[f].interior
    }

    function IsBoundary(f: nat): (r: bool)
      reads this
      requires f < |faces|
      ensures r <==> !IsInterface(f)
    {
      !faces[f].interior
    }

    /** getAttribute: an element's own attribute; for a face, the attribute
        of the boundary element f2b assigns to it, or the default attribute
        when there is none. Dimension 0 and any other dimension are failed
        assertions. */
    function GetAttribute(d: nat, index: nat): (a: int)
      reads this
      requires Valid()
      requires d == dim || d == SizeDecrement(dim)
      requires d == dim ==> index < |elements|
      requires d != dim && index in f2b ==> f2b[index] < |boundary|
      ensures d == dim ==> a == elements[index].attribute
      ensures d != dim && index in f2b ==> a == boundary[f2b[index]].attribute
      ensures d != dim && index !in f2b ==> a == defaultAttribute
    {
      if d == dim then elements[index].attribute
      else if index in f2b then boundary[f2b[index]].attribute
      else defaultAttribute
    }

    /** getFaceAttribute(f) == getAttribute(dim - 1, f). */
    function GetFaceAttribute(f: nat): (a: int)
      reads this
      requires Finalized()
      ensures f in f2b ==> a == boundary[f2b[f]].attribute
      ensures f !in f2b ==> a == defaultAttribute
    {
      GetAttribute(SizeDecrement(dim), f)
    }

    /** With f2b built from the topology, a face carrying boundary elements
        reports the attribute of the last of them, and any other face the
        default attribute. */
    lemma FaceAttributeFromBoundary(f: nat)
      requires Finalized() && f2b == FaceToBoundary(bdrFace)
      ensures f in bdrFace ==>
        exists i :: 0 <= i < |bdrFace| && bdrFace[i] == f && GetFaceAttribute(f) == boundary[i].attribute &&
                    forall j :: i < j < |bdrFace| ==> bdrFace[j] != f
      ensures f !in bdrFace ==> GetFaceAttribute(f) == defaultAttribute
    {
      if f in bdrFace {
        var i := f2b[f];
        forall j | i < j < |bdrFace| ensures bdrFace[j] != f {
          if bdrFace[j] == f {
            FaceToBoundaryIsLast(bdrFace, j);
          }
        }
      }
    }

    /** setAttribute: sets an element's attribute, or the attribute of the
        boundary element of a face (a face without one is a failed
        assertion); any other dimension changes nothing. */
    method SetAttribute(d: nat, index: nat, attr: int)
      requires Valid()
      requires d == dim ==> index < |elements|
      requires d != dim && d == SizeDecrement(dim) ==> index in f2b && f2b[index] < |boundary|
      modifies this`elements, this`boundary
      ensures Valid()
      ensures d == dim ==> elements == old(elements)[index := old(elements)[index].(attribute := attr)] && boundary == old(boundary)
      ensures d != dim && d == SizeDecrement(dim) ==>
        boundary == old(boundary)[f2b[index] := old(boundary)[f2b[index]].(attribute := attr)] && elements == old(elements)
      ensures d != dim && d != SizeDecrement(dim) ==> elements == old(elements) && boundary == old(boundary)
      ensures d == dim || d == SizeDecrement(dim) ==> GetAttribute(d, index) == attr
    {
      if d == dim {
        elements := elements[index := elements[index].(attribute := attr)];
      } else if d == SizeDecrement(dim) {
        var b := f2b[index];
        boundary := boundary[b := boundary[b].(attribute := attr)];
      }
    }

    /** The attributes the elements carry. */
    function Attributes(): (s: set<int>)
      reads this
      ensures forall a :: a in s <==> exists i :: 0 <= i < |elements| && elements[i].attribute == a
    {
      set i | 0 <= i < |elements| :: elements[i].attribute
    }

    /** The index set built by keep(attrs): the elements whose attribute is
        in attrs, in ascending order. */
    method KeepIndices(attrs: set<int>) returns (indices: seq<nat>)
      requires Valid()
      ensures StrictlyIncreasing(indices) && forall k :: 0 <= k < |indices| ==> indices[k] < |elements|
      ensures forall i: nat :: i in indices <==> i < |elements| && elements[i].attribute in attrs
    {
      indices := [];
      var i := 0;
      while i < GetCount(dim)
        invariant 0 <= i <= |elements|
        invariant StrictlyIncreasing(indices)
        invariant forall k :: 0 <= k < |indices| ==> indices[k] < i
        invariant forall j: nat :: j in indices <==> j < i && elements[j].attribute in attrs
      {
        if GetAttribute(dim, i) in attrs {
          indices := indices + [i];
        }
        i := i + 1;
      }
    }

    /** initialize(dim, sdim): an empty mesh of the given dimensions; f2b and
        the incidence tables are not reset. */
    method Initialize(dim: nat, sdim: nat)
      requires dim <= SizeMax && sdim <= SizeMax
      modifies this
      ensures Valid()
      ensures this.dim == dim && this.sdim == sdim
      ensures vertices == [] && elements == [] && boundary == [] && faces == [] && bdrFace == [] && adjacency == []
      ensures f2b == old(f2b) && connectivity == old(connectivity)
    {
      this.dim, this.sdim := dim, sdim;
      vertices, elements, boundary, faces, bdrFace, adjacency := [], [], [], [], [], [];
    }

    /** vertex(x): appends a vertex; coordinates of the wrong dimension
        raise. */
    method Vertex(x: seq<real>) returns (status: Result<()>)
      requires Valid()
      modifies this`vertices
      ensures Valid()
      ensures status.Err? <==> |x| != sdim
      ensures status.Ok? ==> vertices == old(vertices) + [x]
      ensures status.Err? ==> vertices == old(vertices)
    {
      if |x| != sdim {
        return Err("Vertex dimension is different from space dimension");
      }
      vertices := vertices + [x];
      return Ok(());
    }

    /** element(geom, vs, attr): appends an element made of the first
        VertexCount(geom) ids of vs. */
    method AddElement(geom: GeometryType, vs: seq<nat>, attr: int)
      requires Valid() && VertexCount(geom) <= |vs|
      modifies this`elements
      ensures Valid()
      ensures elements == old(elements) + [Polytope(geom, vs[..VertexCount(geom)], attr)]
    {
      elements := elements + [Polytope(geom, vs[..VertexCount(geom)], attr)];
    }

    /** face(geom, vs, attr): appends a boundary element the same way. */
    method AddFace(geom: GeometryType, vs: seq<nat>, attr: int)
      requires Valid() && VertexCount(geom) <= |vs|
      modifies this`boundary
      ensures Valid()
      ensures boundary == old(boundary) + [Polytope(geom, vs[..VertexCount(geom)], attr)]
    {
      boundary := boundary + [Polytope(geom, vs[..VertexCount(geom)], attr)];
    }

    /** finalize: installs the topology computed for the current elements
        (faces, the face of each boundary element, the element-to-element
        table) and then adds the face-to-boundary entries. */
    method Finalize(faces: seq<Face>, bdrFace: seq<nat>, adjacency: seq<seq<nat>>)
      requires Valid()
      requires |bdrFace| == |boundary| && |adjacency| == |elements|
      requires forall i :: 0 <= i < |bdrFace| ==> bdrFace[i] < |faces|
      requires forall i, j :: 0 <= i < |adjacency| && 0 <= j < |adjacency[i]| ==> adjacency[i][j] < |elements|
      requires forall f :: 0 <= f < |faces| ==> faces[f].elem1 < |elements| && faces[f].elem2 < |elements|
      requires forall f :: 0 <= f < |faces| ==> |faces[f].vertices| == VertexCount(faces[f].geometry)
      requires forall i, j :: 0 <= i < |elements| && 0 <= j < |elements[i].vertices| ==> elements[i].vertices[j] < |vertices|
      modifies this`faces, this`bdrFace, this`adjacency, this`f2b
      ensures Valid()
      ensures this.faces == faces && this.bdrFace == bdrFace && this.adjacency == adjacency
      ensures f2b == old(f2b) + FaceToBoundary(bdrFace)
      ensures (forall f :: f in old(f2b) ==> old(f2b)[f] < |boundary|) ==> Finalized()
    {
      this.faces, this.bdrFace, this.adjacency := faces, bdrFace, adjacency;
      BuildFaceToBoundary();
    }

    /** Replaces the incidence tables; nothing else changes. */
    method SetConnectivity(tables: map<(nat, nat), Connectivity>)
      requires Valid()
      modifies this`connectivity
      ensures Valid() && connectivity == tables
    {
      connectivity := tables;
    }

    // ----- the element and boundary element views -----

    /** Element::adjacent: the entries of the element's row of the
        element-to-element table, as a set. */
    method Adjacent(i: nat) returns (r: set<nat>)
      requires Valid() && i < |adjacency|
      ensures forall n :: n in r <==> n in adjacency[i]
      ensures forall n :: n in r ==> n < |elements|
    {
      r := {};
      var row := adjacency[i];
      var k := 0;
      while k < |row|
        invariant 0 <= k <= |row|
        invariant forall n :: n in r <==> n in row[..k]
      {
        r := r + {row[k]};
        k := k + 1;
      }
      assert row[..k] == row;
    }

    /** ElementView::setAttribute: changes that element's attribute only. */
    method SetElementAttribute(i: nat, attr: int)
      requires Valid() && i < |elements|
      modifies this`elements
      ensures Valid()
      ensures |elements| == |old(elements)|
      ensures elements[i] == old(elements)[i].(attribute := attr)
      ensures forall j :: 0 <= j < |elements| && j != i ==> elements[j] == old(elements)[j]
    {
      elements := elements[i := elements[i].(attribute := attr)];
    }

    /** BoundaryElementView::setAttribute: by boundary index. */
    method SetBoundaryAttribute(i: nat, attr: int)
      requires Valid() && i < |boundary|
      modifies this`boundary
      ensures Valid()
      ensures |boundary| == |old(boundary)|
      ensures boundary[i] == old(boundary)[i].(attribute := attr)
      ensures forall j :: 0 <= j < |boundary| && j != i ==> boundary[j] == old(boundary)[j]
    {
      boundary := boundary[i := boundary[i].(attribute := attr)];
    }

    /** A BoundaryElement built for boundary index i refers to face
        GetBdrFace(i) and keeps i as its own index. */
    function BoundaryElementAt(i: nat): (b: BoundaryElementRef)
      reads this
      requires Valid() && i < |bdrFace|
      ensures b.faceIndex == bdrFace[i] && b.faceIndex < |faces| && b.index == i
    {
      BoundaryElementRef(bdrFace[i], i)
    }
  }

  /** An incidence table in compressed-row form: the entities of dimension
      dp incident to entity i of dimension d are
      indices[offsets[i] .. offsets[i + 1]]. Connectivity(d, dp) starts with
      both tables empty. */
  datatype Connectivity = Connectivity(d: nat, dp: nat, indices: seq<nat>, offsets: seq<nat>)

  /** The two indices of a boundary element: the face and the boundary
      index. */
  datatype BoundaryElementRef = BoundaryElementRef(faceIndex: nat, index: nat)
}
