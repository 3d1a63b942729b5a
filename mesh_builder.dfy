/** Mesh::Builder: adds vertices, elements and boundary elements to a mesh
    and, when finalized, installs the topology and the element-to-vertex
    incidence table in compressed-row form. */
module MeshBuilders {
  import opened Wrappers
  import opened Elements
  import opened Meshes

  /** The vertex lists of the elements, one after the other. */
  function Flatten(els: seq<Polytope>): (r: seq<nat>)
    ensures |els| == 0 ==> r == []
  {
    if |els| == 0 then [] else Flatten(els[..|els| - 1]) + els[|els| - 1].vertices
  }

  /** The row offsets: entry i is the number of vertex ids of the elements
      before element i, so there is one more entry than elements. */
  function Offsets(els: seq<Polytope>): (r: seq<nat>)
    ensures |r| == |els| + 1
  {
    seq(|els| + 1, i requires 0 <= i <= |els| => |Flatten(els[..i])|)
  }

  /** The table built by finalize for elements els. */
  function ElementTable(d: nat, els: seq<Polytope>): Connectivity
  {
    Connectivity(d, 0, Flatten(els), Offsets(els))
  }

  /** A compressed-row table describes the elements when it has one row per
      element and row i lists exactly the vertices of element i. */
  predicate Describes(c: Connectivity, els: seq<Polytope>)
  {
    |c.offsets| == |els| + 1 &&
    forall i :: 0 <= i < |els| ==> RowDescribes(c, els, i)
  }

  /** Row i of the table lists exactly the vertices of element i. */
  predicate RowDescribes(c: Connectivity, els: seq<Polytope>, i: nat)
  {
    i < |els| && i + 1 < |c.offsets| &&
    c.offsets[i] <= c.offsets[i + 1] <= |c.indices| &&
    c.indices[c.offsets[i]..c.offsets[i + 1]] == els[i].vertices
  }

  /** The vertex list of k + 1 elements is that of the first k followed by
      the vertices of element k. */
  lemma FlattenSnoc(els: seq<Polytope>, k: nat)
    requires k < |els|
    ensures Flatten(els[..k + 1]) == Flatten(els[..k]) + els[k].vertices
  {
    assert els[..k + 1][..k] == els[..k];
  }

  /** The vertex list of all elements starts with that of the first k. */
  lemma {:induction false} FlattenPrefix(els: seq<Polytope>, k: nat)
    requires k <= |els|
    ensures Flatten(els[..k]) <= Flatten(els)
  {
    if k < |els| {
      var n := |els|;
      assert els[..n] == els;
      FlattenPrefix(els[..n - 1], k);
      assert els[..n - 1][..k] == els[..k];
    } else {
      assert els[..k] == els;
    }
  }

  /** The offsets start at 0, grow by each element's vertex count and end
      at the length of the index list. */
  lemma OffsetsShape(els: seq<Polytope>)
    ensures Offsets(els)[0] == 0
    ensures Offsets(els)[|els|] == |Flatten(els)|
    ensures forall i :: 0 <= i < |els| ==> Offsets(els)[i + 1] == Offsets(els)[i] + |els[i].vertices|
  {
    assert els[..|els|] == els;
    forall i | 0 <= i < |els|
      ensures Offsets(els)[i + 1] == Offsets(els)[i] + |els[i].vertices|
    {
      FlattenSnoc(els, i);
    }
  }

  /** The table finalize builds describes the elements: row i of the index
      list is the vertex list of element i. */
  lemma ElementTableDescribes(d: nat, els: seq<Polytope>)
    ensures Describes(ElementTable(d, els), els)
  {
    var c := ElementTable(d, els);
    forall i | 0 <= i < |els|
      ensures RowDescribes(c, els, i)
    {
      FlattenSnoc(els, i);
      FlattenPrefix(els, i + 1);
      var pre := Flatten(els[..i]);
      assert Flatten(els[..i + 1]) == pre + els[i].vertices;
      assert c.offsets[i] == |pre| && c.offsets[i + 1] == |pre| + |els[i].vertices|;
      assert c.indices[..c.offsets[i + 1]] == pre + els[i].vertices;
      assert c.indices[c.offsets[i]..c.offsets[i + 1]] == (pre + els[i].vertices)[|pre|..];
    }
  }

  /** The table as written: offsets are overwritten with the index list and
      the index list stays empty. */
  function ElementTableAsWritten(d: nat, els: seq<Polytope>): Connectivity
  {
    Connectivity(d, 0, [], Flatten(els))
  }

  /** The table as written describes no mesh that has an element with a
      vertex; for one triangle on vertices 0, 1, 2 its offsets are
      [0, 1, 2] where [0, 3] is meant. */
  lemma ElementTableAsWrittenWrong(d: nat, els: seq<Polytope>, k: nat)
    requires k < |els| && |els[k].vertices| > 0
    ensures !Describes(ElementTableAsWritten(d, els), els)
  {
    var c := ElementTableAsWritten(d, els);
    assert Describes(c, els) ==> RowDescribes(c, els, k);
  }

  /** The single-triangle instance. */
  lemma ElementTableAsWrittenExample()
    ensures ElementTableAsWritten(2, [Polytope(Triangle, [0, 1, 2], 1)]).offsets == [0, 1, 2]
    ensures ElementTable(2, [Polytope(Triangle, [0, 1, 2], 1)]).offsets == [0, 3]
    ensures ElementTable(2, [Polytope(Triangle, [0, 1, 2], 1)]).indices == [0, 1, 2]
  {
    var els := [Polytope(Triangle, [0, 1, 2], 1)];
    assert els[..1] == els;
    assert Flatten(els[..0]) == [];
    assert Flatten(els) == [0, 1, 2];
  }

  /** The first loop of finalize: offsets[0] = 0 and, element by element,
      the element's vertex ids are pushed onto indices and
      offsets[i + 1] = offsets[i] + its vertex count. The offsets live in a
      buffer allocated with one entry per element plus one. */
  method BuildElementTable(els: seq<Polytope>) returns (offsets: seq<nat>, indices: seq<nat>)
    ensures offsets == Offsets(els)
    ensures indices == Flatten(els)
  {
    var buf := new nat[|els| + 1];
    buf[0] := 0;
    indices := [];
    var i := 0;
    while i < |els|
      invariant 0 <= i <= |els|
      invariant indices == Flatten(els[..i])
      invariant forall k :: 0 <= k <= i ==> buf[k] == |Flatten(els[..k])|
    {
      var offset := |els[i].vertices|;
      var j := 0;
      while j < offset
        invariant 0 <= j <= offset
        invariant indices == Flatten(els[..i]) + els[i].vertices[..j]
      {
        indices := indices + [els[i].vertices[j]];
        j := j + 1;
      }
      FlattenSnoc(els, i);
      assert els[i].vertices[..j] == els[i].vertices;
      buf[i + 1] := buf[i] + offset;
      i := i + 1;
    }
    assert els[..i] == els;
    offsets := buf[..];
  }

  /** The builder: the mesh it fills, once set, and the incidence tables it
      hands to the mesh on finalize. */
  class Builder {
    var mesh: Mesh?
    var connectivity: map<(nat, nat), Connectivity>

    /** Builder(): no mesh yet and no tables. */
    constructor ()
      ensures mesh == null && connectivity == map[]
    {
      mesh, connectivity := null, map[];
    }

    /** setMesh: records the mesh and adds an empty (dim, 0) table unless a
        table for that key is already there. */
    method SetMesh(m: Mesh)
      modifies this
      ensures mesh == m
      ensures (m.dim, 0) in connectivity
      ensures (m.dim, 0) in old(connectivity) ==> connectivity == old(connectivity)
      ensures (m.dim, 0) !in old(connectivity) ==>
        connectivity == old(connectivity)[(m.dim, 0) := Connectivity(m.dim, 0, [], [])]
    {
      mesh := m;
      if (m.dim, 0) !in connectivity {
        connectivity := connectivity[(m.dim, 0) := Connectivity(m.dim, 0, [], [])];
      }
    }

    /** vertex(x): appends a vertex to the mesh; coordinates whose count is
        not the space dimension raise. */
    method Vertex(x: seq<real>) returns (status: Result<()>)
      requires mesh != null && mesh.Valid()
      modifies mesh`vertices
      ensures mesh.Valid()
      ensures status.Err? <==> |x| != mesh.sdim
      ensures status.Ok? ==> mesh.vertices == old(mesh.vertices) + [x]
      ensures status.Err? ==> mesh.vertices == old(mesh.vertices)
    {
      status := mesh.Vertex(x);
    }

    /** element(geom, vs, attr): appends an element made of the first
        VertexCount(geom) ids of vs and the attribute. */
    method Element(geom: GeometryType, vs: seq<nat>, attr: int)
      requires mesh != null && mesh.Valid() && VertexCount(geom) <= |vs|
      modifies mesh`elements
      ensures mesh.Valid()
      ensures mesh.elements == old(mesh.elements) + [Polytope(geom, vs[..VertexCount(geom)], attr)]
    {
      mesh.AddElement(geom, vs, attr);
    }

    /** face(geom, vs, attr): appends a boundary element the same way. */
    method Face(geom: GeometryType, vs: seq<nat>, attr: int)
      requires mesh != null && mesh.Valid() && VertexCount(geom) <= |vs|
      modifies mesh`boundary
      ensures mesh.Valid()
      ensures mesh.boundary == old(mesh.boundary) + [Polytope(geom, vs[..VertexCount(geom)], attr)]
    {
      mesh.AddFace(geom, vs, attr);
    }

    /** finalize with the index list stored as the table's index list: the
        builder's tables move into the mesh, the topology computed for the
        current elements is installed with its face-to-boundary entries,
        and the mesh's tables are replaced by the single (dim, 0) table
        that describes the elements. */
    method Finalize(faces: seq<Face>, bdrFace: seq<nat>, adjacency: seq<seq<nat>>)
      requires mesh != null && mesh.Valid()
      requires |bdrFace| == |mesh.boundary| && |adjacency| == |mesh.elements|
      requires forall i :: 0 <= i < |bdrFace| ==> bdrFace[i] < |faces|
      requires forall i, j :: 0 <= i < |adjacency| && 0 <= j < |adjacency[i]| ==> adjacency[i][j] < |mesh.elements|
      requires forall f :: 0 <= f < |faces| ==> faces[f].elem1 < |mesh.elements| && faces[f].elem2 < |mesh.elements|
      requires forall f :: 0 <= f < |faces| ==> |faces[f].vertices| == VertexCount(faces[f].geometry)
      requires forall i, j :: 0 <= i < |mesh.elements| && 0 <= j < |mesh.elements[i].vertices| ==>
        mesh.elements[i].vertices[j] < |mesh.vertices|
      modifies this`connectivity, mesh`connectivity, mesh`faces, mesh`bdrFace, mesh`adjacency, mesh`f2b
      ensures mesh.Valid()
      ensures mesh.faces == faces && mesh.bdrFace == bdrFace && mesh.adjacency == adjacency
      ensures mesh.f2b == old(mesh.f2b) + FaceToBoundary(bdrFace)
      ensures mesh.connectivity == map[(mesh.dim, 0) := ElementTable(mesh.dim, mesh.elements)]
      ensures Describes(mesh.connectivity[(mesh.dim, 0)], mesh.elements)
      ensures connectivity == map[]
    {
      mesh.SetConnectivity(connectivity);
      connectivity := map[];
      mesh.Finalize(faces, bdrFace, adjacency);
      var offsets, indices := BuildElementTable(mesh.elements);
      var key := (mesh.dim, 0);
      var table := Connectivity(mesh.dim, 0, [], []);
      table := table.(offsets := offsets);
      table := table.(indices := indices);
      mesh.SetConnectivity(map[key := table]);
      ElementTableDescribes(mesh.dim, mesh.elements);
    }

    /** finalize as written: both calls go to setOffsets, so the offsets
        end up holding the index list and the index list stays empty. */
    method FinalizeAsWritten(faces: seq<Face>, bdrFace: seq<nat>, adjacency: seq<seq<nat>>)
      requires mesh != null && mesh.Valid()
      requires |bdrFace| == |mesh.boundary| && |adjacency| == |mesh.elements|
      requires forall i :: 0 <= i < |bdrFace| ==> bdrFace[i] < |faces|
      requires forall i, j :: 0 <= i < |adjacency| && 0 <= j < |adjacency[i]| ==> adjacency[i][j] < |mesh.elements|
      requires forall f :: 0 <= f < |faces| ==> faces[f].elem1 < |mesh.elements| && faces[f].elem2 < |mesh.elements|
      requires forall f :: 0 <= f < |faces| ==> |faces[f].vertices| == VertexCount(faces[f].geometry)
      requires forall i, j :: 0 <= i < |mesh.elements| && 0 <= j < |mesh.elements[i].vertices| ==>
        mesh.elements[i].vertices[j] < |mesh.vertices|
      modifies this`connectivity, mesh`connectivity, mesh`faces, mesh`bdrFace, mesh`adjacency, mesh`f2b
      ensures mesh.Valid()
      ensures mesh.faces == faces && mesh.bdrFace == bdrFace && mesh.adjacency == adjacency
      ensures mesh.f2b == old(mesh.f2b) + FaceToBoundary(bdrFace)
      ensures mesh.connectivity == map[(mesh.dim, 0) := ElementTableAsWritten(mesh.dim, mesh.elements)]
      ensures connectivity == map[]
    {
      mesh.SetConnectivity(connectivity);
      connectivity := map[];
      mesh.Finalize(faces, bdrFace, adjacency);
      var offsets, indices := BuildElementTable(mesh.elements);
      var key := (mesh.dim, 0);
      var table := Connectivity(mesh.dim, 0, [], []);
      table := table.(offsets := offsets);
      table := table.(offsets := indices);
      mesh.SetConnectivity(map[key := table]);
    }
  }
}
