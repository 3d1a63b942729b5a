/** A submesh of a parent mesh: its own mesh data plus bimaps from submesh
    vertex and element ids to parent ids, built by `include`, and the
    keep/trim operations of the mesh that create one. */
module SubMeshes {
  import opened Wrappers
  import opened Elements
  import opened Meshes

  /** A bimap: `left` maps submesh ids to parent ids, `right` is its
      inverse. */
  datatype Bimap = Bimap(left: map<nat, nat>, right: map<nat, nat>)

  predicate BimapValid(b: Bimap)
  {
    (forall k :: k in b.left ==> b.left[k] in b.right && b.right[b.left[k]] == k) &&
    (forall v :: v in b.right ==> b.right[v] in b.left && b.left[b.right[v]] == v)
  }

  const EmptyBimap := Bimap(map[], map[])

  /** insert({l, r}): adds the pair unless l or r is already present, in
      which case the bimap is unchanged. */
  function Insert(b: Bimap, l: nat, r: nat): (b': Bimap)
    ensures l !in b.left && r !in b.right ==> b'.left == b.left[l := r] && b'.right == b.right[r := l]
    ensures l in b.left || r in b.right ==> b' == b
  {
    if l in b.left || r in b.right then b
    else Bimap(b.left[l := r], b.right[r := l])
  }

  /** Insertion keeps the two directions inverse to each other. */
  lemma InsertValid(b: Bimap, l: nat, r: nat)
    requires BimapValid(b)
    ensures BimapValid(Insert(b, l, r))
  {
  }

  /** Every pair of `older` is still in `newer`. */
  predicate Extends(newer: map<nat, nat>, older: map<nat, nat>)
  {
    forall k :: k in older ==> k in newer && newer[k] == older[k]
  }

  /** The submesh vertex list `sub` stands for the parent vertex list `par`
      under the vertex map. */
  predicate MapsTo(s2p: map<nat, nat>, sub: seq<nat>, par: seq<nat>)
  {
    |sub| == |par| && forall j :: 0 <= j < |sub| ==> sub[j] in s2p && s2p[sub[j]] == par[j]
  }

  lemma ExtendsTransitive(a: map<nat, nat>, b: map<nat, nat>, c: map<nat, nat>)
    requires Extends(a, b) && Extends(b, c)
    ensures Extends(a, c)
  {
  }

  /** A vertex list keeps its meaning when the map grows. */
  lemma MapsToExtends(older: map<nat, nat>, newer: map<nat, nat>, sub: seq<nat>, par: seq<nat>)
    requires MapsTo(older, sub, par) && Extends(newer, older)
    ensures MapsTo(newer, sub, par)
  {
  }

  lemma MapsToAppend(s2p: map<nat, nat>, sub: seq<nat>, par: seq<nat>, i: nat, v: nat)
    requires i < |par| && MapsTo(s2p, sub, par[..i]) && v in s2p && s2p[v] == par[i]
    ensures MapsTo(s2p, sub + [v], par[..i + 1])
  {
    assert par[..i + 1] == par[..i] + [par[i]];
  }

  /** A face is beside an included element. */
  predicate Included(f: Face, simplices: seq<nat>)
  {
    (f.elem1 >= 0 && f.elem1 as nat in simplices) || (f.elem2 >= 0 && f.elem2 as nat in simplices)
  }

  /** The parent boundary elements below upto whose face is beside an
      included element, in ascending order. */
  function CopiedBoundary(bdrFace: seq<nat>, faces: seq<Face>, simplices: seq<nat>, upto: nat): (r: seq<nat>)
    requires upto <= |bdrFace| && forall i :: 0 <= i < |bdrFace| ==> bdrFace[i] < |faces|
    ensures StrictlyIncreasing(r) && forall k :: 0 <= k < |r| ==> r[k] < upto
    ensures forall i: nat :: i in r <==> i < upto && Included(faces[bdrFace[i]], simplices)
  {
    if upto == 0 then []
    else
      var rest := CopiedBoundary(bdrFace, faces, simplices, upto - 1);
      if Included(faces[bdrFace[upto - 1]], simplices) then rest + [upto - 1] else rest
  }

  /** The copy of parent boundary element i: the geometry of its face, the
      face's attribute in the parent and its vertices mapped back. */
  predicate IsBoundaryCopy(parent: Mesh, s2p: map<nat, nat>, i: nat, b: Polytope)
    reads parent
    requires parent.Finalized() && i < |parent.boundary|
  {
    var f := parent.faces[parent.bdrFace[i]];
    b.geometry == f.geometry && b.attribute == parent.GetFaceAttribute(parent.bdrFace[i]) &&
    MapsTo(s2p, b.vertices, f.vertices)
  }

  /** The copy of parent element s in the submesh. */
  predicate IsElementCopy(parent: Mesh, s2p: map<nat, nat>, s: nat, e: Polytope)
    reads parent
    requires s < |parent.elements|
  {
    var pe := parent.elements[s];
    e.geometry == pe.geometry && e.attribute == pe.attribute && MapsTo(s2p, e.vertices, pe.vertices)
  }

  /** The element map after the element loop has inserted the pairs
      (ne0 + k, ss[k]) in order. */
  function InsertAll(b: Bimap, ne0: nat, ss: seq<nat>): (r: Bimap)
  {
    if |ss| == 0 then b
    else Insert(InsertAll(b, ne0, ss[..|ss| - 1]), ne0 + |ss| - 1, ss[|ss| - 1])
  }

  /** The element map after the first n ids of the element loop: an id
      not in the map before the loop is recorded against its new element,
      one already there leaves its new element unrecorded. */
  predicate Recorded(left: map<nat, nat>, before: map<nat, nat>, ne0: nat, simplices: seq<nat>, n: nat)
    requires n <= |simplices|
  {
    (forall k :: 0 <= k < n && simplices[k] !in before ==> ne0 + k in left && left[ne0 + k] == simplices[k]) &&
    (forall k :: 0 <= k < n && simplices[k] in before ==> ne0 + k !in left)
  }

  /** The element loop over distinct ascending ids, starting from a map
      whose submesh ids are all below ne0, records exactly the ids that
      were not in the map before, and keeps every earlier pair. */
  lemma {:induction false} InsertAllRecords(b0: Bimap, ne0: nat, ss: seq<nat>)
    requires StrictlyIncreasing(ss)
    requires forall key :: key in b0.left ==> key < ne0
    ensures Recorded(InsertAll(b0, ne0, ss).left, b0.right, ne0, ss, |ss|)
    ensures Extends(InsertAll(b0, ne0, ss).left, b0.left)
    ensures forall key :: key in InsertAll(b0, ne0, ss).left ==> key < ne0 + |ss|
    ensures forall v :: v in InsertAll(b0, ne0, ss).right ==> v in b0.right || v in ss
    ensures forall v :: v in b0.right ==> v in InsertAll(b0, ne0, ss).right
  {
    if |ss| > 0 {
      var n := |ss| - 1;
      var pre := ss[..n];
      assert StrictlyIncreasing(pre);
      InsertAllRecords(b0, ne0, pre);
      InsertStep(b0, InsertAll(b0, ne0, pre), ne0, ss);
    }
  }

  /** The last insertion of the element loop. */
  lemma InsertStep(b0: Bimap, b: Bimap, ne0: nat, ss: seq<nat>)
    requires |ss| > 0 && StrictlyIncreasing(ss)
    requires Recorded(b.left, b0.right, ne0, ss[..|ss| - 1], |ss| - 1)
    requires forall key :: key in b.left ==> key < ne0 + |ss| - 1
    requires forall v :: v in b.right ==> v in b0.right || v in ss[..|ss| - 1]
    requires forall v :: v in b0.right ==> v in b.right
    ensures var r := Insert(b, ne0 + |ss| - 1, ss[|ss| - 1]);
      Recorded(r.left, b0.right, ne0, ss, |ss|) &&
      (forall key :: key in r.left ==> key < ne0 + |ss|) &&
      (forall v :: v in r.right ==> v in b0.right || v in ss) &&
      Extends(r.left, b.left) && (forall v :: v in b.right ==> v in r.right)
  {
    var n := |ss| - 1;
    var pre := ss[..n];
    var r := Insert(b, ne0 + n, ss[n]);
    assert ne0 + n !in b.left;
    assert forall k :: 0 <= k < n ==> pre[k] == ss[k];
    assert forall v :: v in pre ==> v in ss;
    assert ss[n] !in pre by {
      forall a | 0 <= a < n ensures pre[a] < ss[n] {
      }
    }
    if ss[n] in b.right {
      assert r == b;
    } else {
      assert r.left == b.left[ne0 + n := ss[n]];
      assert r.right == b.right[ss[n] := ne0 + n];
    }
  }

  class SubMesh {
    /** The submesh's own mesh data (SubMesh derives from Mesh). */
    const mesh: Mesh
    const parent: Mesh
    /** Submesh vertex id to parent vertex id. */
    var s2pv: Bimap
    /** Submesh element id to parent element id. */
    var s2pe: Bimap

    predicate Valid()
      reads this, mesh, parent
    {
      mesh != parent && mesh.Valid() && parent.Finalized() &&
      BimapValid(s2pv) && BimapValid(s2pe) &&
      (forall k :: k in s2pv.left ==> k < |mesh.vertices| && s2pv.left[k] < |parent.vertices|) &&
      (forall k :: k in s2pv.left ==> mesh.vertices[k] == parent.vertices[s2pv.left[k]]) &&
      (forall k :: k in s2pe.left ==> k < |mesh.elements| && s2pe.left[k] < |parent.elements|)
    }

    /** SubMesh(parent): an empty mesh with empty maps. */
    constructor (parent: Mesh)
      requires parent.Finalized()
      ensures Valid() && fresh(mesh) && this.parent == parent
      ensures mesh.vertices == [] && mesh.elements == [] && mesh.boundary == [] && mesh.f2b == map[]
      ensures s2pv == EmptyBimap && s2pe == EmptyBimap
    {
      this.parent := parent;
      mesh := new Mesh(0, 0, [], [], [], [], [], [], parent.defaultAttribute);
      s2pv, s2pe := EmptyBimap, EmptyBimap;
    }

    /** The copy constructor: copies the mesh data, the parent and the
        vertex map, but leaves the element map empty. */
    constructor Copy(other: SubMesh)
      requires other.Valid()
      ensures Valid() && fresh(mesh) && parent == other.parent
      ensures mesh.vertices == other.mesh.vertices && mesh.elements == other.mesh.elements
      ensures mesh.boundary == other.mesh.boundary && mesh.f2b == other.mesh.f2b
      ensures s2pv == other.s2pv && s2pe == EmptyBimap
    {
      mesh := new Mesh.Copy(other.mesh);
      parent := other.parent;
      s2pv, s2pe := other.s2pv, EmptyBimap;
    }

    /** One vertex of an included element: a parent vertex absent from the
        map is added and recorded; a known one gives its existing id. */
    method MapVertex(pvid: nat) returns (svid: nat)
      requires Valid() && pvid < |parent.vertices|
      modifies this`s2pv, mesh`vertices
      ensures Valid()
      ensures svid in s2pv.left && s2pv.left[svid] == pvid
      ensures Extends(s2pv.left, old(s2pv.left)) && Extends(s2pv.right, old(s2pv.right))
      ensures pvid in old(s2pv.right) ==> svid == old(s2pv.right)[pvid] && s2pv == old(s2pv) && mesh.vertices == old(mesh.vertices)
      ensures pvid !in old(s2pv.right) ==> svid == |old(mesh.vertices)| && mesh.vertices == old(mesh.vertices) + [parent.vertices[pvid]]
    {
      if pvid !in s2pv.right {
        svid := |mesh.vertices|;
        mesh.vertices := mesh.vertices + [parent.vertices[pvid]];
        InsertValid(s2pv, svid, pvid);
        s2pv := Insert(s2pv, svid, pvid);
      } else {
        svid := s2pv.right[pvid];
      }
    }

    /** The vertex loop of include for one element: maps each parent
        vertex id in turn. */
    method MapVertices(pv: seq<nat>) returns (sv: seq<nat>)
      requires Valid() && forall j :: 0 <= j < |pv| ==> pv[j] < |parent.vertices|
      modifies this`s2pv, mesh`vertices
      ensures Valid()
      ensures Extends(s2pv.left, old(s2pv.left))
      ensures old(mesh.vertices) <= mesh.vertices
      ensures MapsTo(s2pv.left, sv, pv)
    {
      sv := [];
      ghost var v0, l0, r0 := mesh.vertices, s2pv.left, s2pv.right;
      var i := 0;
      while i < |pv|
        invariant Valid() && 0 <= i <= |pv|
        invariant Extends(s2pv.left, l0) && Extends(s2pv.right, r0)
        invariant v0 <= mesh.vertices
        invariant MapsTo(s2pv.left, sv, pv[..i])
      {
        ghost var left, right := s2pv.left, s2pv.right;
        var v := MapVertex(pv[i]);
        MapsToExtends(left, s2pv.left, sv, pv[..i]);
        ExtendsTransitive(s2pv.left, left, l0);
        ExtendsTransitive(s2pv.right, right, r0);
        MapsToAppend(s2pv.left, sv, pv, i, v);
        sv := sv + [v];
        i := i + 1;
      }
      assert pv[..i] == pv;
    }

    /** One iteration of the element loop of include: maps the element's
        vertices, adds the element with the parent's geometry and
        attribute, and records the pair in the element map. */
    method IncludeElement(s: nat)
      requires Valid() && s < |parent.elements|
      modifies this`s2pv, this`s2pe, mesh`vertices, mesh`elements
      ensures Valid()
      ensures Extends(s2pv.left, old(s2pv.left))
      ensures old(mesh.vertices) <= mesh.vertices
      ensures |mesh.elements| == |old(mesh.elements)| + 1 && mesh.elements[..|old(mesh.elements)|] == old(mesh.elements)
      ensures IsElementCopy(parent, s2pv.left, s, mesh.elements[|old(mesh.elements)|])
      ensures s2pe == Insert(old(s2pe), |old(mesh.elements)|, s)
    {
      var pe := parent.elements[s];
      var sv := MapVertices(pe.vertices);
      var seid := |mesh.elements|;
      mesh.elements := mesh.elements + [Polytope(pe.geometry, sv, pe.attribute)];
      InsertValid(s2pe, seid, s);
      s2pe := Insert(s2pe, seid, s);
    }
  
    /** The elements from ne0 on are copies of the first n parent ids. */
    static predicate CopiesOf(parent: Mesh, l: map<nat, nat>, e: seq<Polytope>, ne0: nat, simplices: seq<nat>, n: nat)
      reads parent
      requires n <= |simplices| && ne0 + n <= |e|
      requires forall k :: 0 <= k < |simplices| ==> simplices[k] < |parent.elements|
    {
      forall k :: 0 <= k < n ==> IsElementCopy(parent, l, simplices[k], e[ne0 + k])
    }

    /** The element copies made so far keep their meaning as the vertex map
        grows and an element is appended. */
    static lemma CopiesKept(parent: Mesh, l: map<nat, nat>, l': map<nat, nat>, e: seq<Polytope>, e': seq<Polytope>,
                            ne0: nat, simplices: seq<nat>, idx: nat)
      requires idx < |simplices| && forall k :: 0 <= k < |simplices| ==> simplices[k] < |parent.elements|
      requires ne0 + idx == |e| && |e'| == |e| + 1 && e'[..|e|] == e && Extends(l', l)
      requires CopiesOf(parent, l, e, ne0, simplices, idx)
      requires IsElementCopy(parent, l', simplices[idx], e'[ne0 + idx])
      ensures CopiesOf(parent, l', e', ne0, simplices, idx + 1)
    {
      forall k | 0 <= k < idx ensures IsElementCopy(parent, l', simplices[k], e'[ne0 + k]) {
        assert e'[ne0 + k] == e[ne0 + k];
        MapsToExtends(l, l', e[ne0 + k].vertices, parent.elements[simplices[k]].vertices);
      }
    }

    /** The element loop of include, over the ids in ascending order. A
        parent element already in the element map is copied again but its
        pair is not recorded, since the bimap refuses a second pair with the
        same parent id. */
    method IncludeElements(simplices: seq<nat>)
      requires Valid() && StrictlyIncreasing(simplices)
      requires forall k :: 0 <= k < |simplices| ==> simplices[k] < |parent.elements|
      modifies this`s2pv, this`s2pe, mesh`vertices, mesh`elements
      ensures Valid()
      ensures Extends(s2pv.left, old(s2pv.left)) && old(mesh.vertices) <= mesh.vertices
      ensures |mesh.elements| == |old(mesh.elements)| + |simplices| && old(mesh.elements) <= mesh.elements
      ensures CopiesOf(parent, s2pv.left, mesh.elements, |old(mesh.elements)|, simplices, |simplices|)
      ensures s2pe == InsertAll(old(s2pe), |old(mesh.elements)|, simplices)
    {
      ghost var ne0, e0, v0, l0, pe0 := |mesh.elements|, mesh.elements, mesh.vertices, s2pv.left, s2pe;
      var idx := 0;
      while idx < |simplices|
        invariant Valid() && 0 <= idx <= |simplices|
        invariant Extends(s2pv.left, l0) && v0 <= mesh.vertices
        invariant |mesh.elements| == ne0 + idx && e0 <= mesh.elements
        invariant CopiesOf(parent, s2pv.left, mesh.elements, ne0, simplices, idx)
        invariant s2pe == InsertAll(pe0, ne0, simplices[..idx])
      {
        IncludeNext(simplices, idx, ne0, e0, v0, l0, pe0);
        idx := idx + 1;
      }
      assert simplices[..idx] == simplices;
    }

    /** One iteration of the element loop with its bookkeeping. */
    method IncludeNext(simplices: seq<nat>, idx: nat, ghost ne0: nat, ghost e0: seq<Polytope>, ghost v0: seq<seq<real>>,
                       ghost l0: map<nat, nat>, ghost pe0: Bimap)
      requires Valid() && idx < |simplices|
      requires forall k :: 0 <= k < |simplices| ==> simplices[k] < |parent.elements|
      requires Extends(s2pv.left, l0) && v0 <= mesh.vertices
      requires |mesh.elements| == ne0 + idx && e0 <= mesh.elements
      requires CopiesOf(parent, s2pv.left, mesh.elements, ne0, simplices, idx)
      requires s2pe == InsertAll(pe0, ne0, simplices[..idx])
      modifies this`s2pv, this`s2pe, mesh`vertices, mesh`elements
      ensures Valid()
      ensures Extends(s2pv.left, l0) && v0 <= mesh.vertices
      ensures |mesh.elements| == ne0 + idx + 1 && e0 <= mesh.elements
      ensures CopiesOf(parent, s2pv.left, mesh.elements, ne0, simplices, idx + 1)
      ensures s2pe == InsertAll(pe0, ne0, simplices[..idx + 1])
    {
      ghost var left, elems := s2pv.left, mesh.elements;
      IncludeElement(simplices[idx]);
      CopiesKept(parent, left, s2pv.left, elems, mesh.elements, ne0, simplices, idx);
      ExtendsTransitive(s2pv.left, left, l0);
      assert simplices[..idx + 1][..idx] == simplices[..idx];
    }

    /** All vertices of face f are in the vertex map. */
    predicate Mappable(f: Face)
      reads this
    {
      forall j :: 0 <= j < |f.vertices| ==> f.vertices[j] in s2pv.right
    }

    /** The boundary elements appended by the boundary loop of include, for
        the parent boundary elements below upto. */
    static predicate BoundaryCopied(parent: Mesh, s2p: map<nat, nat>, b0: seq<Polytope>, b: seq<Polytope>, simplices: seq<nat>, upto: nat)
      reads parent
      requires parent.Finalized() && upto <= |parent.boundary|
    {
      var copied := CopiedBoundary(parent.bdrFace, parent.faces, simplices, upto);
      |b| == |b0| + |copied| && b0 <= b &&
      forall k :: 0 <= k < |copied| ==> IsBoundaryCopy(parent, s2p, copied[k], b[|b0| + k])
    }

    /** The face vertices mapped back to submesh ids; a parent vertex absent
        from the map makes the lookup throw. */
    method MapFaceVertices(f: Face) returns (r: Result<seq<nat>>)
      requires Valid()
      ensures r.Ok? <==> Mappable(f)
      ensures r.Ok? ==> MapsTo(s2pv.left, r.value, f.vertices)
    {
      var vs: seq<nat> := [];
      var j := 0;
      while j < |f.vertices|
        invariant 0 <= j <= |f.vertices|
        invariant forall a :: 0 <= a < j ==> f.vertices[a] in s2pv.right
        invariant MapsTo(s2pv.left, vs, f.vertices[..j])
      {
        if f.vertices[j] !in s2pv.right {
          return Err("out of range");
        }
        MapsToAppend(s2pv.left, vs, f.vertices, j, s2pv.right[f.vertices[j]]);
        vs := vs + [s2pv.right[f.vertices[j]]];
        j := j + 1;
      }
      assert f.vertices[..j] == f.vertices;
      return Ok(vs);
    }

    /** One step of the boundary loop: the copy of parent boundary element
        i is appended when its face is beside an included element. */
    static lemma CopyStep(parent: Mesh, s2p: map<nat, nat>, b0: seq<Polytope>, b: seq<Polytope>, simplices: seq<nat>, i: nat, c: Polytope)
      requires parent.Finalized() && i < |parent.boundary|
      requires BoundaryCopied(parent, s2p, b0, b, simplices, i)
      requires Included(parent.faces[parent.bdrFace[i]], simplices) && IsBoundaryCopy(parent, s2p, i, c)
      ensures BoundaryCopied(parent, s2p, b0, b + [c], simplices, i + 1)
    {
      var copied := CopiedBoundary(parent.bdrFace, parent.faces, simplices, i);
      var c' := CopiedBoundary(parent.bdrFace, parent.faces, simplices, i + 1);
      assert c' == copied + [i];
      var b' := b + [c];
      forall k | 0 <= k < |c'| ensures IsBoundaryCopy(parent, s2p, c'[k], b'[|b0| + k]) {
        if k < |copied| {
          assert c'[k] == copied[k];
        }
      }
    }

    /** The boundary loop of include: every parent boundary element whose
        face is beside an included element is copied, with the face's
        attribute in the parent and its vertices mapped back; a face vertex
        missing from the vertex map is an error. */
    method BoundaryCopies(simplices: seq<nat>) returns (r: Result<seq<Polytope>>)
      requires Valid()
      ensures r.Ok? <==> MappableBelow(simplices, |parent.boundary|)
      ensures r.Ok? ==> BoundaryCopied(parent, s2pv.left, [], r.value, simplices, |parent.boundary|)
    {
      var copies: seq<Polytope> := [];
      var i := 0;
      while i < |parent.boundary|
        invariant 0 <= i <= |parent.boundary|
        invariant MappableBelow(simplices, i)
        invariant BoundaryCopied(parent, s2pv.left, [], copies, simplices, i)
      {
        var next := BoundaryNext(simplices, i, copies);
        if next.Err? {
          assert !MappableBelow(simplices, |parent.boundary|) by {
            assert Included(parent.faces[parent.bdrFace[i]], simplices) && !Mappable(parent.faces[parent.bdrFace[i]]);
          }
          return Err(next.message);
        }
        copies := next.value;
        i := i + 1;
      }
      return Ok(copies);
    }

    /** The faces beside an included element, among those of the parent
        boundary elements below upto, have all their vertices mapped. */
    predicate MappableBelow(simplices: seq<nat>, upto: nat)
      reads this, parent
      requires parent.Finalized() && upto <= |parent.boundary|
    {
      forall j :: 0 <= j < upto && Included(parent.faces[parent.bdrFace[j]], simplices) ==> Mappable(parent.faces[parent.bdrFace[j]])
    }

    /** One iteration of the boundary loop: copies parent boundary element
        i if its face is beside an included element. */
    method BoundaryNext(simplices: seq<nat>, i: nat, copies: seq<Polytope>) returns (r: Result<seq<Polytope>>)
      requires Valid() && i < |parent.boundary|
      requires BoundaryCopied(parent, s2pv.left, [], copies, simplices, i)
      ensures r.Ok? <==> (Included(parent.faces[parent.bdrFace[i]], simplices) ==> Mappable(parent.faces[parent.bdrFace[i]]))
      ensures r.Ok? ==> BoundaryCopied(parent, s2pv.left, [], r.value, simplices, i + 1)
    {
      var faceIdx := parent.bdrFace[i];
      var attr := parent.GetFaceAttribute(faceIdx);
      var fc := parent.faces[faceIdx];
      if (fc.elem1 >= 0 && fc.elem1 as nat in simplices) || (fc.elem2 >= 0 && fc.elem2 as nat in simplices) {
        var vs := MapFaceVertices(fc);
        if vs.Err? {
          return Err(vs.message);
        }
        var c := Polytope(fc.geometry, vs.value, attr);
        CopyStep(parent, s2pv.left, [], copies, simplices, i, c);
        return Ok(copies + [c]);
      } else {
        assert CopiedBoundary(parent.bdrFace, parent.faces, simplices, i + 1) == CopiedBoundary(parent.bdrFace, parent.faces, simplices, i);
        return Ok(copies);
      }
    }

    /** Appends the boundary copies when every one of them could be made. */
    method IncludeBoundary(simplices: seq<nat>) returns (status: Result<()>)
      requires Valid()
      modifies mesh`boundary
      ensures Valid()
      ensures status.Ok? <==> MappableBelow(simplices, |parent.boundary|)
      ensures status.Ok? ==> BoundaryCopied(parent, s2pv.left, old(mesh.boundary), mesh.boundary, simplices, |parent.boundary|)
    {
      var copies := BoundaryCopies(simplices);
      if copies.Err? {
        return Err(copies.message);
      }
      ghost var b0 := mesh.boundary;
      mesh.boundary := mesh.boundary + copies.value;
      BoundaryCopiedShift(parent, s2pv.left, b0, copies.value, simplices);
      return Ok(());
    }

    /** Boundary copies made from an empty list stay copies when appended
        to an existing boundary. */
    static lemma BoundaryCopiedShift(parent: Mesh, s2p: map<nat, nat>, b0: seq<Polytope>, c: seq<Polytope>, simplices: seq<nat>)
      requires parent.Finalized()
      requires BoundaryCopied(parent, s2p, [], c, simplices, |parent.boundary|)
      ensures BoundaryCopied(parent, s2p, b0, b0 + c, simplices, |parent.boundary|)
    {
      var copied := CopiedBoundary(parent.bdrFace, parent.faces, simplices, |parent.boundary|);
      forall k | 0 <= k < |copied| ensures IsBoundaryCopy(parent, s2p, copied[k], (b0 + c)[|b0| + k]) {
        assert (b0 + c)[|b0| + k] == c[k];
      }
    }

    /** include(dim, simplices) for the mesh dimension (any other dimension
        is a failed assertion): the element loop, then the boundary loop. */
    method Include(d: nat, simplices: seq<nat>) returns (status: Result<()>)
      requires Valid() && d == mesh.dim && StrictlyIncreasing(simplices)
      requires forall k :: 0 <= k < |simplices| ==> simplices[k] < |parent.elements|
      modifies this`s2pv, this`s2pe, mesh`vertices, mesh`elements, mesh`boundary
      ensures Valid()
      ensures Extends(s2pv.left, old(s2pv.left)) && old(mesh.vertices) <= mesh.vertices
      ensures |mesh.elements| == |old(mesh.elements)| + |simplices| && old(mesh.elements) <= mesh.elements
      ensures CopiesOf(parent, s2pv.left, mesh.elements, |old(mesh.elements)|, simplices, |simplices|)
      ensures s2pe == InsertAll(old(s2pe), |old(mesh.elements)|, simplices)
      ensures status.Ok? <==> MappableBelow(simplices, |parent.boundary|)
      ensures status.Ok? ==> BoundaryCopied(parent, s2pv.left, old(mesh.boundary), mesh.boundary, simplices, |parent.boundary|)
    {
      IncludeElements(simplices);
      status := IncludeBoundary(simplices);
    }
  }

  /** The element map of a fresh submesh after one include: submesh
      element k stands for ids[k], and the parent ids recorded are exactly
      the included ones. */
  lemma FreshElementMap(b: Bimap, ids: seq<nat>)
    requires BimapValid(b) && StrictlyIncreasing(ids) && b == InsertAll(EmptyBimap, 0, ids)
    ensures forall k :: 0 <= k < |ids| ==> k in b.left && b.left[k] == ids[k]
    ensures forall i: nat :: i in b.right <==> i in ids
  {
    InsertAllRecords(EmptyBimap, 0, ids);
    var none: map<nat, nat> := map[];
    assert EmptyBimap.right == none;
    assert Recorded(b.left, none, 0, ids, |ids|);
    forall k | 0 <= k < |ids| ensures k in b.left && b.left[k] == ids[k] {
      assert ids[k] !in none;
    }
    forall i: nat | i in ids ensures i in b.right {
      var k :| 0 <= k < |ids| && ids[k] == i;
      assert b.left[k] == i;
    }
  }

  /** Every vertex of every parent boundary face beside an element of
      simplices is a vertex of one of those elements. */
  predicate BoundaryVerticesKept(parent: Mesh, simplices: seq<nat>)
    reads parent
    requires parent.Finalized()
    requires forall k :: 0 <= k < |simplices| ==> simplices[k] < |parent.elements|
  {
    forall j :: 0 <= j < |parent.boundary| && Included(parent.faces[parent.bdrFace[j]], simplices) ==>
      forall i :: 0 <= i < |parent.faces[parent.bdrFace[j]].vertices| ==>
        exists k :: 0 <= k < |simplices| && parent.faces[parent.bdrFace[j]].vertices[i] in parent.elements[simplices[k]].vertices
  }

  /** A vertex of a copied element is in the vertex map. */
  lemma CopiedVertexMapped(parent: Mesh, b: Bimap, e: seq<Polytope>, simplices: seq<nat>, k: nat, v: nat)
    requires BimapValid(b)
    requires forall i :: 0 <= i < |simplices| ==> simplices[i] < |parent.elements|
    requires |simplices| <= |e| && SubMesh.CopiesOf(parent, b.left, e, 0, simplices, |simplices|)
    requires k < |simplices| && v in parent.elements[simplices[k]].vertices
    ensures v in b.right
  {
    var pe := parent.elements[simplices[k]];
    assert IsElementCopy(parent, b.left, simplices[k], e[k]);
    var j :| 0 <= j < |pe.vertices| && pe.vertices[j] == v;
    assert b.left[e[k].vertices[j]] == v;
  }

  /** Once the elements of simplices are copied, every boundary face beside
      them whose vertices belong to them can be mapped back. */
  lemma KeptVerticesMappable(sub: SubMesh, simplices: seq<nat>)
    requires sub.Valid()
    requires forall k :: 0 <= k < |simplices| ==> simplices[k] < |sub.parent.elements|
    requires |simplices| <= |sub.mesh.elements| && SubMesh.CopiesOf(sub.parent, sub.s2pv.left, sub.mesh.elements, 0, simplices, |simplices|)
    requires BoundaryVerticesKept(sub.parent, simplices)
    ensures sub.MappableBelow(simplices, |sub.parent.boundary|)
  {
    var parent := sub.parent;
    forall j | 0 <= j < |parent.boundary| && Included(parent.faces[parent.bdrFace[j]], simplices)
      ensures sub.Mappable(parent.faces[parent.bdrFace[j]])
    {
      var f := parent.faces[parent.bdrFace[j]];
      forall i | 0 <= i < |f.vertices| ensures f.vertices[i] in sub.s2pv.right {
        var k :| 0 <= k < |simplices| && f.vertices[i] in parent.elements[simplices[k]].vertices;
        CopiedVertexMapped(parent, sub.s2pv, sub.mesh.elements, simplices, k, f.vertices[i]);
      }
    }
  }

  /** Mesh::keep(attrs): a submesh of the same dimensions holding a copy of
      every element whose attribute is in attrs, in ascending id order,
      and of the boundary elements beside them. The submesh's own finalize
      (an external topology computation) is not part of this model. */
  method Keep(parent: Mesh, attrs: set<int>) returns (sub: SubMesh, status: Result<()>, ghost indices: seq<nat>)
    requires parent.Finalized()
    ensures fresh(sub) && fresh(sub.mesh) && sub.parent == parent && sub.Valid()
    ensures sub.mesh.dim == parent.dim && sub.mesh.sdim == parent.sdim
    ensures StrictlyIncreasing(indices)
    ensures forall i: nat :: i in indices <==> i < |parent.elements| && parent.elements[i].attribute in attrs
    ensures forall k :: 0 <= k < |indices| ==> indices[k] < |parent.elements|
    ensures |sub.mesh.elements| == |indices| && SubMesh.CopiesOf(parent, sub.s2pv.left, sub.mesh.elements, 0, indices, |indices|)
    ensures forall k :: 0 <= k < |indices| ==> k in sub.s2pe.left && sub.s2pe.left[k] == indices[k]
    ensures forall i: nat :: i in sub.s2pe.right <==> i < |parent.elements| && parent.elements[i].attribute in attrs
    ensures status.Ok? <==> sub.MappableBelow(indices, |parent.boundary|)
    ensures BoundaryVerticesKept(parent, indices) ==> status.Ok?
    ensures status.Ok? ==> SubMesh.BoundaryCopied(parent, sub.s2pv.left, [], sub.mesh.boundary, indices, |parent.boundary|)
  {
    sub := new SubMesh(parent);
    sub.mesh.Initialize(parent.dim, parent.sdim);
    var ids := parent.KeepIndices(attrs);
    indices := ids;
    status := sub.Include(parent.dim, ids);
    FreshElementMap(sub.s2pe, ids);
    if BoundaryVerticesKept(parent, ids) {
      KeptVerticesMappable(sub, ids);
    }
  }

  /** Mesh::trim(attrs): keep with the mesh's attributes other than attrs,
      that is, every element whose attribute is not in attrs. */
  method Trim(parent: Mesh, attrs: set<int>) returns (sub: SubMesh, status: Result<()>, ghost indices: seq<nat>)
    requires parent.Finalized()
    ensures fresh(sub) && fresh(sub.mesh) && sub.parent == parent && sub.Valid()
    ensures StrictlyIncreasing(indices)
    ensures forall i: nat :: i in indices <==> i < |parent.elements| && parent.elements[i].attribute !in attrs
    ensures forall k :: 0 <= k < |indices| ==> indices[k] < |parent.elements|
    ensures |sub.mesh.elements| == |indices| && SubMesh.CopiesOf(parent, sub.s2pv.left, sub.mesh.elements, 0, indices, |indices|)
    ensures forall i: nat :: i in sub.s2pe.right <==> i < |parent.elements| && parent.elements[i].attribute !in attrs
    ensures BoundaryVerticesKept(parent, indices) ==> status.Ok?
    ensures status.Ok? ==> SubMesh.BoundaryCopied(parent, sub.s2pv.left, [], sub.mesh.boundary, indices, |parent.boundary|)
  {
    var complement := parent.Attributes() - attrs;
    sub, status, indices := Keep(parent, complement);
  }
}
