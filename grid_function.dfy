/** Grid functions: the coefficient vector of a function in a finite
    element space, its compound arithmetic (with the shortcuts taken when
    both operands are the same object), projection on chosen attributes,
    its range shape and the transfer of values between a submesh and its
    parent.

    A coefficient vector holds nv entries per component, nv the vertex
    count of the mesh (one degree of freedom per vertex). With node
    ordering component c of vertex p sits at p + c * nv, with component
    ordering at p * vdim + c. */
module GridFunctions {
  import opened Wrappers
  import opened Layout
  import opened Meshes
  import opened SubMeshes
  import RangeShapes

  datatype Ordering = ByNodes | ByVDim

  /** The slot of component c of vertex p in a vector over n vertices. */
  function Slot(o: Ordering, p: nat, c: nat, n: nat, vdim: nat): nat
  {
    match o
    case ByNodes => p + c * n
    case ByVDim => p * vdim + c
  }

  /** Every (vertex, component) pair has a slot inside the vector. */
  lemma SlotInRange(o: Ordering, p: nat, c: nat, n: nat, vdim: nat)
    requires p < n && c < vdim
    ensures Slot(o, p, c, n, vdim) < n * vdim
  {
    match o
    case ByNodes => SlotBound(p, c, n, vdim);
    case ByVDim =>
      SlotBound(c, p, vdim, n);
      assert vdim * n == n * vdim;
  }

  /** Distinct (vertex, component) pairs have distinct slots. */
  lemma SlotInjective(o: Ordering, p1: nat, c1: nat, p2: nat, c2: nat, n: nat, vdim: nat)
    requires p1 < n && p2 < n && c1 < vdim && c2 < vdim
    requires Slot(o, p1, c1, n, vdim) == Slot(o, p2, c2, n, vdim)
    ensures p1 == p2 && c1 == c2
  {
    match o
    case ByNodes =>
      Split(p1, c1, n);
      Split(p2, c2, n);
    case ByVDim =>
      Split(c1, p1, vdim);
      Split(c2, p2, vdim);
  }

  // ----- transfer through a vertex map -----

  /** A vertex map usable for a transfer: the vertices below nv it maps go
      to distinct vertices below pnv. */
  ghost predicate MapsInto(m: map<nat, nat>, nv: nat, pnv: nat)
  {
    (forall j :: j in m && j < nv ==> m[j] < pnv) &&
    (forall j1, j2 :: j1 in m && j2 in m && j1 < nv && j2 < nv && m[j1] == m[j2] ==> j1 == j2)
  }

  /** The result of a transfer: for every mapped vertex j and component c
      the destination slot of (m[j], c) holds the source slot of (j, c),
      and every destination slot no pair lands on keeps its value. */
  ghost predicate Transferred(dst: seq<real>, d0: seq<real>, src: seq<real>, m: map<nat, nat>,
                        o: Ordering, nv: nat, pnv: nat, vdim: nat)
  {
    |dst| == |d0| &&
    (forall j: nat, c: nat :: j in m && j < nv && c < vdim ==>
      Slot(o, m[j], c, pnv, vdim) < |dst| && Slot(o, j, c, nv, vdim) < |src| &&
      dst[Slot(o, m[j], c, pnv, vdim)] == src[Slot(o, j, c, nv, vdim)]) &&
    (forall k :: 0 <= k < |dst| && NotTarget(k, m, o, nv, pnv, vdim) ==> dst[k] == d0[k])
  }

  /** No mapped pair has slot k. */
  ghost predicate NotTarget(k: nat, m: map<nat, nat>, o: Ordering, nv: nat, pnv: nat, vdim: nat)
  {
    forall j: nat, c: nat :: j in m && j < nv && c < vdim ==> Slot(o, m[j], c, pnv, vdim) != k
  }

  /** The pair handled at loop position (i, jj): node ordering runs over
      components outside and vertices inside, component ordering the other
      way round. */
  function PairAt(o: Ordering, i: nat, jj: nat): (nat, nat)
  {
    match o
    case ByNodes => (jj, i)
    case ByVDim => (i, jj)
  }

  /** Pair (j, c) is handled before loop position (i, jj). */
  predicate Before(o: Ordering, j: nat, c: nat, i: nat, jj: nat)
  {
    match o
    case ByNodes => c < i || (c == i && j < jj)
    case ByVDim => j < i || (j == i && c < jj)
  }

  /** The pairs handled so far have been copied. */
  ghost predicate CopiedBefore(dst: seq<real>, src: seq<real>, m: map<nat, nat>, o: Ordering,
                         nv: nat, pnv: nat, vdim: nat, i: nat, jj: nat)
  {
    forall j: nat, c: nat :: j in m && j < nv && c < vdim && Before(o, j, c, i, jj) ==>
      Slot(o, m[j], c, pnv, vdim) < |dst| && Slot(o, j, c, nv, vdim) < |src| &&
      dst[Slot(o, m[j], c, pnv, vdim)] == src[Slot(o, j, c, nv, vdim)]
  }

  /** No pair handled so far has slot k. */
  ghost predicate Unreached(k: nat, m: map<nat, nat>, o: Ordering, nv: nat, pnv: nat, vdim: nat, i: nat, jj: nat)
  {
    forall j: nat, c: nat :: j in m && j < nv && c < vdim && Before(o, j, c, i, jj) ==> Slot(o, m[j], c, pnv, vdim) != k
  }

  /** Slots not reached so far keep their first value. */
  ghost predicate KeptBefore(dst: seq<real>, d0: seq<real>, m: map<nat, nat>, o: Ordering,
                       nv: nat, pnv: nat, vdim: nat, i: nat, jj: nat)
  {
    |dst| == |d0| &&
    forall k :: 0 <= k < |dst| && Unreached(k, m, o, nv, pnv, vdim, i, jj) ==> dst[k] == d0[k]
  }

  /** One iteration of the inner loop whose vertex is mapped: the pair at
      (i, jj) is copied, which keeps both loop invariants one position
      further on. */
  lemma WriteHit(dst: seq<real>, d0: seq<real>, src: seq<real>, m: map<nat, nat>, o: Ordering,
                 nv: nat, pnv: nat, vdim: nat, i: nat, jj: nat, j0: nat, c0: nat)
    requires |dst| == pnv * vdim && |src| == nv * vdim && MapsInto(m, nv, pnv)
    requires (j0, c0) == PairAt(o, i, jj) && j0 < nv && c0 < vdim && j0 in m
    requires Slot(o, m[j0], c0, pnv, vdim) < |dst| && Slot(o, j0, c0, nv, vdim) < |src|
    requires CopiedBefore(dst, src, m, o, nv, pnv, vdim, i, jj)
    requires KeptBefore(dst, d0, m, o, nv, pnv, vdim, i, jj)
    ensures CopiedBefore(dst[Slot(o, m[j0], c0, pnv, vdim) := src[Slot(o, j0, c0, nv, vdim)]], src, m, o, nv, pnv, vdim, i, jj + 1)
    ensures KeptBefore(dst[Slot(o, m[j0], c0, pnv, vdim) := src[Slot(o, j0, c0, nv, vdim)]], d0, m, o, nv, pnv, vdim, i, jj + 1)
  {
    var s := Slot(o, m[j0], c0, pnv, vdim);
    var dst' := dst[s := src[Slot(o, j0, c0, nv, vdim)]];
    forall j: nat, c: nat | j in m && j < nv && c < vdim && Before(o, j, c, i, jj + 1)
      ensures Slot(o, m[j], c, pnv, vdim) < |dst'| && Slot(o, j, c, nv, vdim) < |src|
      ensures dst'[Slot(o, m[j], c, pnv, vdim)] == src[Slot(o, j, c, nv, vdim)]
    {
      if (j, c) != (j0, c0) {
        assert Before(o, j, c, i, jj);
        if Slot(o, m[j], c, pnv, vdim) == s {
          SlotInjective(o, m[j], c, m[j0], c0, pnv, vdim);
        }
      }
    }
    forall k | 0 <= k < |dst'| && Unreached(k, m, o, nv, pnv, vdim, i, jj + 1)
      ensures dst'[k] == d0[k]
    {
      assert Before(o, j0, c0, i, jj + 1);
      assert Unreached(k, m, o, nv, pnv, vdim, i, jj);
    }
  }

  /** One iteration of the inner loop whose vertex is not mapped: nothing
      is written and the invariants move one position on. */
  lemma WriteMiss(dst: seq<real>, d0: seq<real>, src: seq<real>, m: map<nat, nat>, o: Ordering,
                  nv: nat, pnv: nat, vdim: nat, i: nat, jj: nat)
    requires PairAt(o, i, jj).0 !in m
    requires CopiedBefore(dst, src, m, o, nv, pnv, vdim, i, jj)
    requires KeptBefore(dst, d0, m, o, nv, pnv, vdim, i, jj)
    ensures CopiedBefore(dst, src, m, o, nv, pnv, vdim, i, jj + 1)
    ensures KeptBefore(dst, d0, m, o, nv, pnv, vdim, i, jj + 1)
  {
    forall k | 0 <= k < |dst| && Unreached(k, m, o, nv, pnv, vdim, i, jj + 1)
      ensures dst[k] == d0[k]
    {
      assert Unreached(k, m, o, nv, pnv, vdim, i, jj);
    }
  }

  /** The end of an inner loop is the start of the next outer iteration. */
  lemma NextRow(dst: seq<real>, d0: seq<real>, src: seq<real>, m: map<nat, nat>, o: Ordering,
                nv: nat, pnv: nat, vdim: nat, i: nat, inner: nat)
    requires inner == (if o.ByNodes? then nv else vdim)
    requires CopiedBefore(dst, src, m, o, nv, pnv, vdim, i, inner)
    requires KeptBefore(dst, d0, m, o, nv, pnv, vdim, i, inner)
    ensures CopiedBefore(dst, src, m, o, nv, pnv, vdim, i + 1, 0)
    ensures KeptBefore(dst, d0, m, o, nv, pnv, vdim, i + 1, 0)
  {
    forall k | 0 <= k < |dst| && Unreached(k, m, o, nv, pnv, vdim, i + 1, 0)
      ensures dst[k] == d0[k]
    {
      assert Unreached(k, m, o, nv, pnv, vdim, i, inner);
    }
  }

  /** Once every outer iteration has run, the invariants are the transfer
      result. */
  lemma AllRows(dst: seq<real>, d0: seq<real>, src: seq<real>, m: map<nat, nat>, o: Ordering,
                nv: nat, pnv: nat, vdim: nat)
    requires CopiedBefore(dst, src, m, o, nv, pnv, vdim, if o.ByNodes? then vdim else nv, 0)
    requires KeptBefore(dst, d0, m, o, nv, pnv, vdim, if o.ByNodes? then vdim else nv, 0)
    ensures Transferred(dst, d0, src, m, o, nv, pnv, vdim)
  {
    var n := if o.ByNodes? then vdim else nv;
    forall j: nat, c: nat | j in m && j < nv && c < vdim
      ensures Slot(o, m[j], c, pnv, vdim) < |dst| && Slot(o, j, c, nv, vdim) < |src|
      ensures dst[Slot(o, m[j], c, pnv, vdim)] == src[Slot(o, j, c, nv, vdim)]
    {
      assert Before(o, j, c, n, 0);
    }
    forall k | 0 <= k < |dst| && NotTarget(k, m, o, nv, pnv, vdim)
      ensures dst[k] == d0[k]
    {
      assert Unreached(k, m, o, nv, pnv, vdim, n, 0);
    }
  }

  /** The pair loop body on the buffer: writes the pair at (i, jj) when its
      vertex is mapped. */
  method CopyPair(dst: array<real>, src: seq<real>, m: map<nat, nat>, o: Ordering,
                  nv: nat, pnv: nat, vdim: nat, i: nat, jj: nat, ghost d0: seq<real>)
    requires dst.Length == pnv * vdim && |src| == nv * vdim && MapsInto(m, nv, pnv)
    requires PairAt(o, i, jj).0 < nv && PairAt(o, i, jj).1 < vdim
    requires CopiedBefore(dst[..], src, m, o, nv, pnv, vdim, i, jj)
    requires KeptBefore(dst[..], d0, m, o, nv, pnv, vdim, i, jj)
    modifies dst
    ensures CopiedBefore(dst[..], src, m, o, nv, pnv, vdim, i, jj + 1)
    ensures KeptBefore(dst[..], d0, m, o, nv, pnv, vdim, i, jj + 1)
  {
    var (j, c) := PairAt(o, i, jj);
    if j in m {
      SlotInRange(o, m[j], c, pnv, vdim);
      SlotInRange(o, j, c, nv, vdim);
      WriteHit(dst[..], d0, src, m, o, nv, pnv, vdim, i, jj, j, c);
      dst[Slot(o, m[j], c, pnv, vdim)] := src[Slot(o, j, c, nv, vdim)];
    } else {
      WriteMiss(dst[..], d0, src, m, o, nv, pnv, vdim, i, jj);
    }
  }

  /** The node-ordering copy: for each component i and each vertex j
      below nv that the map knows, dst[m(j) + i * pnv] = src[j + i * nv]. */
  method CopyByNodes(dst: array<real>, src: seq<real>, m: map<nat, nat>, nv: nat, pnv: nat, vdim: nat)
    requires dst.Length == pnv * vdim && |src| == nv * vdim && MapsInto(m, nv, pnv)
    modifies dst
    ensures Transferred(dst[..], old(dst[..]), src, m, ByNodes, nv, pnv, vdim)
  {
    ghost var d0 := dst[..];
    var i := 0;
    while i < vdim
      invariant 0 <= i <= vdim
      invariant CopiedBefore(dst[..], src, m, ByNodes, nv, pnv, vdim, i, 0)
      invariant KeptBefore(dst[..], d0, m, ByNodes, nv, pnv, vdim, i, 0)
    {
      var j := 0;
      while j < nv
        invariant 0 <= j <= nv
        invariant CopiedBefore(dst[..], src, m, ByNodes, nv, pnv, vdim, i, j)
        invariant KeptBefore(dst[..], d0, m, ByNodes, nv, pnv, vdim, i, j)
      {
        CopyPair(dst, src, m, ByNodes, nv, pnv, vdim, i, j, d0);
        j := j + 1;
      }
      NextRow(dst[..], d0, src, m, ByNodes, nv, pnv, vdim, i, nv);
      i := i + 1;
    }
    AllRows(dst[..], d0, src, m, ByNodes, nv, pnv, vdim);
  }

  /** The component-ordering copy: for each vertex i below nv that the map
      knows and each component j, dst[m(i) * vdim + j] = src[i * vdim + j]. */
  method CopyByVDim(dst: array<real>, src: seq<real>, m: map<nat, nat>, nv: nat, pnv: nat, vdim: nat)
    requires dst.Length == pnv * vdim && |src| == nv * vdim && MapsInto(m, nv, pnv)
    modifies dst
    ensures Transferred(dst[..], old(dst[..]), src, m, ByVDim, nv, pnv, vdim)
  {
    ghost var d0 := dst[..];
    var i := 0;
    while i < nv
      invariant 0 <= i <= nv
      invariant CopiedBefore(dst[..], src, m, ByVDim, nv, pnv, vdim, i, 0)
      invariant KeptBefore(dst[..], d0, m, ByVDim, nv, pnv, vdim, i, 0)
    {
      var j := 0;
      while j < vdim
        invariant 0 <= j <= vdim
        invariant CopiedBefore(dst[..], src, m, ByVDim, nv, pnv, vdim, i, j)
        invariant KeptBefore(dst[..], d0, m, ByVDim, nv, pnv, vdim, i, j)
      {
        CopyPair(dst, src, m, ByVDim, nv, pnv, vdim, i, j, d0);
        j := j + 1;
      }
      NextRow(dst[..], d0, src, m, ByVDim, nv, pnv, vdim, i, vdim);
      i := i + 1;
    }
    AllRows(dst[..], d0, src, m, ByVDim, nv, pnv, vdim);
  }

  /** The copy for the source space's ordering. */
  method CopyThrough(dst: array<real>, src: seq<real>, m: map<nat, nat>, o: Ordering, nv: nat, pnv: nat, vdim: nat)
    requires dst.Length == pnv * vdim && |src| == nv * vdim && MapsInto(m, nv, pnv)
    modifies dst
    ensures Transferred(dst[..], old(dst[..]), src, m, o, nv, pnv, vdim)
  {
    match o
    case ByNodes => CopyByNodes(dst, src, m, nv, pnv, vdim);
    case ByVDim => CopyByVDim(dst, src, m, nv, pnv, vdim);
  }

  /** Both directions of a valid bimap are injective and stay inside the
      vertex ranges of the submesh and the parent. */
  lemma BimapMapsInto(b: Bimap, nv: nat, pnv: nat)
    requires BimapValid(b)
    requires forall k :: k in b.left ==> k < nv && b.left[k] < pnv
    ensures MapsInto(b.left, nv, pnv)
    ensures MapsInto(b.right, pnv, nv)
  {
    forall v | v in b.right && v < pnv ensures b.right[v] < nv {
      assert b.right[v] in b.left;
    }
  }

  // ----- pointwise arithmetic -----

  datatype Op = Plus | Minus | Times | Divide

  function Apply(op: Op, x: real, y: real): real
    requires op.Divide? ==> y != 0.0
  {
    match op
    case Plus => x + y
    case Minus => x - y
    case Times => x * y
    case Divide => x / y
  }

  predicate NonZero(a: seq<real>)
  {
    forall k :: 0 <= k < |a| ==> a[k] != 0.0
  }

  /** a op b entry by entry. */
  function Pointwise(op: Op, a: seq<real>, b: seq<real>): (r: seq<real>)
    requires |a| == |b| && (op.Divide? ==> NonZero(b))
    ensures |r| == |a|
  {
    seq(|a|, k requires 0 <= k < |a| => Apply(op, a[k], b[k]))
  }

  /** a op t for every entry. */
  function WithScalar(op: Op, a: seq<real>, t: real): (r: seq<real>)
    requires op.Divide? ==> t != 0.0
    ensures |r| == |a|
  {
    seq(|a|, k requires 0 <= k < |a| => Apply(op, a[k], t))
  }

  /** The vector of n copies of v. */
  function Constant(n: nat, v: real): (r: seq<real>)
    ensures |r| == n
  {
    seq(n, k => v)
  }

  /** x += x is x *= 2. */
  lemma SelfPlus(a: seq<real>)
    ensures Pointwise(Plus, a, a) == WithScalar(Times, a, 2.0)
  {
  }

  /** x -= x is x = 0. */
  lemma SelfMinus(a: seq<real>)
    ensures Pointwise(Minus, a, a) == Constant(|a|, 0.0)
  {
  }

  /** x /= x is x = 1 wherever x has no zero entry; the shortcut also sets
      zero entries to 1. */
  lemma SelfDivide(a: seq<real>)
    requires NonZero(a)
    ensures Pointwise(Divide, a, a) == Constant(|a|, 1.0)
  {
    forall k | 0 <= k < |a| ensures Apply(Divide, a[k], a[k]) == 1.0 {
      assert a[k] != 0.0;
    }
  }

  /** The loop behind every compound operator with a vector: a[k] op= b[k]. */
  method CombineInPlace(a: array<real>, op: Op, b: seq<real>)
    requires a.Length == |b| && (op.Divide? ==> NonZero(b))
    modifies a
    ensures a[..] == Pointwise(op, old(a[..]), b)
  {
    var k := 0;
    while k < a.Length
      invariant 0 <= k <= a.Length
      invariant forall e :: 0 <= e < k ==> a[e] == Apply(op, old(a[e]), b[e])
      invariant forall e :: k <= e < a.Length ==> a[e] == old(a[e])
    {
      a[k] := Apply(op, a[k], b[k]);
      k := k + 1;
    }
  }

  /** The loop behind every compound operator with a number: a[k] op= t. */
  method ScalarInPlace(a: array<real>, op: Op, t: real)
    requires op.Divide? ==> t != 0.0
    modifies a
    ensures a[..] == WithScalar(op, old(a[..]), t)
  {
    var k := 0;
    while k < a.Length
      invariant 0 <= k <= a.Length
      invariant forall e :: 0 <= e < k ==> a[e] == Apply(op, old(a[e]), t)
      invariant forall e :: k <= e < a.Length ==> a[e] == old(a[e])
    {
      a[k] := Apply(op, a[k], t);
      k := k + 1;
    }
  }

  /** Assignment of a number to every entry. */
  method FillInPlace(a: array<real>, v: real)
    modifies a
    ensures a[..] == Constant(a.Length, v)
  {
    var k := 0;
    while k < a.Length
      invariant 0 <= k <= a.Length
      invariant forall e :: 0 <= e < k ==> a[e] == v
    {
      a[k] := v;
      k := k + 1;
    }
  }

  /** The set of degrees of freedom of the elements whose attribute is in
      attrs. */
  ghost predicate Covered(d: nat, attributes: seq<int>, vdofs: seq<seq<nat>>, attrs: set<int>, upto: nat)
    requires upto <= |attributes| == |vdofs|
  {
    exists i :: 0 <= i < upto && attributes[i] in attrs && d in vdofs[i]
  }

  // ----- the space and the grid function -----

  /** A finite element space: its mesh (a submesh when sub is set), vector
      dimension, vertex count and ordering. */
  class FESpace {
    const mesh: Mesh
    const sub: SubMesh?
    const vdim: nat
    const nv: nat
    const ordering: Ordering

    constructor (mesh: Mesh, sub: SubMesh?, vdim: nat, ordering: Ordering)
      ensures this.mesh == mesh && this.sub == sub && this.vdim == vdim && this.ordering == ordering
      ensures nv == |mesh.vertices|
    {
      this.mesh, this.sub, this.vdim, this.ordering := mesh, sub, vdim, ordering;
      nv := |mesh.vertices|;
    }

    /** The space describes its mesh as it is now, and a submesh space's
        mesh is the submesh's own mesh. */
    predicate Valid()
      reads this, mesh, sub, if sub != null then {sub.mesh, sub.parent} else {}
    {
      nv == |mesh.vertices| && (sub != null ==> sub.mesh == mesh && sub.Valid())
    }
  }

  class GridFunction {
    const fes: FESpace
    /** The coefficient vector (one entry per degree of freedom). */
    const data: array<real>

    /** A new grid function on fes is zero everywhere. */
    constructor (fes: FESpace)
      ensures this.fes == fes && fresh(data) && data.Length == fes.vdim * fes.nv
      ensures data[..] == Constant(fes.vdim * fes.nv, 0.0)
    {
      this.fes := fes;
      data := new real[fes.vdim * fes.nv](_ => 0.0);
    }

    /** The vector has the size of the space. */
    predicate Sized()
    {
      data.Length == fes.vdim * fes.nv
    }

    /** operator+=(double). */
    method AddScalar(t: real)
      modifies data
      ensures data[..] == WithScalar(Plus, old(data[..]), t)
    {
      ScalarInPlace(data, Plus, t);
    }

    /** operator-=(double). */
    method SubtractScalar(t: real)
      modifies data
      ensures data[..] == WithScalar(Minus, old(data[..]), t)
    {
      ScalarInPlace(data, Minus, t);
    }

    /** operator*=(double). */
    method Scale(t: real)
      modifies data
      ensures data[..] == WithScalar(Times, old(data[..]), t)
    {
      ScalarInPlace(data, Times, t);
    }

    /** operator/=(double). */
    method DivideScalar(t: real)
      requires t != 0.0
      modifies data
      ensures data[..] == WithScalar(Divide, old(data[..]), t)
    {
      ScalarInPlace(data, Divide, t);
    }

    /** operator=(double). */
    method Assign(v: real)
      modifies data
      ensures data[..] == Constant(data.Length, v)
    {
      FillInPlace(data, v);
    }

    /** operator+=(rhs): x += x doubles x; otherwise both must live in the
        same space and rhs is added entry by entry. */
    method AddAssign(rhs: GridFunction)
      requires Sized() && rhs.Sized()
      requires rhs != this ==> rhs.fes == fes && rhs.data != data
      modifies data
      ensures rhs == this ==> data[..] == WithScalar(Times, old(data[..]), 2.0)
      ensures rhs != this ==> data[..] == Pointwise(Plus, old(data[..]), old(rhs.data[..]))
    {
      if rhs == this {
        Scale(2.0);
      } else {
        CombineInPlace(data, Plus, rhs.data[..]);
      }
    }

    /** operator-=(rhs): x -= x sets x to 0. */
    method SubtractAssign(rhs: GridFunction)
      requires Sized() && rhs.Sized()
      requires rhs != this ==> rhs.fes == fes && rhs.data != data
      modifies data
      ensures rhs == this ==> data[..] == Constant(data.Length, 0.0)
      ensures rhs != this ==> data[..] == Pointwise(Minus, old(data[..]), old(rhs.data[..]))
    {
      if rhs == this {
        Assign(0.0);
      } else {
        CombineInPlace(data, Minus, rhs.data[..]);
      }
    }

    /** operator*=(rhs): x *= x squares every entry. */
    method MultiplyAssign(rhs: GridFunction)
      requires Sized() && rhs.Sized()
      requires rhs != this ==> rhs.fes == fes && rhs.data != data
      modifies data
      ensures rhs == this ==> forall k :: 0 <= k < data.Length ==> data[k] == old(data[k]) * old(data[k])
      ensures rhs != this ==> data[..] == Pointwise(Times, old(data[..]), old(rhs.data[..]))
    {
      if rhs == this {
        var k := 0;
        while k < data.Length
          invariant 0 <= k <= data.Length
          invariant forall e :: 0 <= e < k ==> data[e] == old(data[e]) * old(data[e])
          invariant forall e :: k <= e < data.Length ==> data[e] == old(data[e])
        {
          data[k] := data[k] * data[k];
          k := k + 1;
        }
      } else {
        CombineInPlace(data, Times, rhs.data[..]);
      }
    }

    /** operator/=(rhs): x /= x sets x to 1. */
    method DivideAssign(rhs: GridFunction)
      requires Sized() && rhs.Sized()
      requires rhs != this ==> rhs.fes == fes && rhs.data != data && NonZero(rhs.data[..])
      modifies data
      ensures rhs == this ==> data[..] == Constant(data.Length, 1.0)
      ensures rhs != this ==> data[..] == Pointwise(Divide, old(data[..]), old(rhs.data[..]))
    {
      if rhs == this {
        Assign(1.0);
      } else {
        CombineInPlace(data, Divide, rhs.data[..]);
      }
    }

    /** ProjectCoefficient on a list of degrees of freedom: each takes the
        value of the interpolant there. */
    method ProjectOn(values: seq<real>, dofs: seq<nat>)
      requires |values| == data.Length
      requires forall k :: 0 <= k < |dofs| ==> dofs[k] < data.Length
      modifies data
      ensures forall d :: 0 <= d < data.Length ==> data[d] == if d in dofs then values[d] else old(data[d])
    {
      var k := 0;
      while k < |dofs|
        invariant 0 <= k <= |dofs|
        invariant forall d :: 0 <= d < data.Length ==> data[d] == if d in dofs[..k] then values[d] else old(data[d])
      {
        data[dofs[k]] := values[dofs[k]];
        assert dofs[..k + 1] == dofs[..k] + [dofs[k]];
        k := k + 1;
      }
      assert dofs[..k] == dofs;
    }

    /** project(s, attrs): a scalar or vector function is interpolated,
        everywhere when attrs is empty and otherwise on the degrees of
        freedom of the elements whose attribute is in attrs; a matrix
        function raises. `values` is the interpolant on the whole space,
        `attributes[i]` and `vdofs[i]` the attribute and degrees of freedom
        of element i. */
    method Project(t: RangeShapes.RangeType, values: seq<real>, attributes: seq<int>,
                   vdofs: seq<seq<nat>>, attrs: set<int>) returns (status: Result<()>)
      requires |values| == data.Length && |attributes| == |vdofs|
      requires forall i, k :: 0 <= i < |vdofs| && 0 <= k < |vdofs[i]| ==> vdofs[i][k] < data.Length
      modifies data
      ensures status.Err? <==> t.Matrix?
      ensures t.Matrix? ==> data[..] == old(data[..])
      ensures !t.Matrix? && attrs == {} ==> data[..] == values
      ensures !t.Matrix? && attrs != {} ==> forall d :: 0 <= d < data.Length ==>
        data[d] == if Covered(d, attributes, vdofs, attrs, |vdofs|) then values[d] else old(data[d])
    {
      if t.Matrix? {
        return Err("Unexpected range type: expected Scalar or Vector, got Matrix");
      }
      if |attrs| == 0 {
        var k := 0;
        while k < data.Length
          invariant 0 <= k <= data.Length
          invariant forall e :: 0 <= e < k ==> data[e] == values[e]
        {
          data[k] := values[k];
          k := k + 1;
        }
        return Ok(());
      }
      var i := 0;
      while i < |vdofs|
        invariant 0 <= i <= |vdofs|
        invariant forall d :: 0 <= d < data.Length ==>
          data[d] == if Covered(d, attributes, vdofs, attrs, i) then values[d] else old(data[d])
      {
        if attributes[i] in attrs {
          ProjectOn(values, vdofs[i]);
        }
        i := i + 1;
      }
      return Ok(());
    }

    /** getRangeShape: vdim by 1. */
    function GetRangeShape(): (s: RangeShapes.RangeShape)
      ensures s.width == 1 && s.height == fes.vdim
      ensures RangeShapes.Valid(s) <==> fes.vdim > 0
    {
      RangeShapes.RangeShape(fes.vdim, 1)
    }

    /** x(), y(), z(): the component with that index, which must exist. */
    function X(): (c: nat)
      requires fes.vdim >= 1
      ensures c < fes.vdim
    {
      0
    }

    function Y(): (c: nat)
      requires fes.vdim >= 2
      ensures c < fes.vdim
    {
      1
    }

    function Z(): (c: nat)
      requires fes.vdim >= 3
      ensures c < fes.vdim
    {
      2
    }

    /** The source vector lives on a submesh whose parent carries dst. */
    predicate SubmeshToParent(dst: GridFunction)
    {
      fes.sub != null && dst.fes.mesh == fes.sub.parent
    }

    /** dst lives on a submesh whose parent carries the source vector. */
    predicate ParentToSubmesh(dst: GridFunction)
    {
      dst.fes.sub != null && fes.mesh == dst.fes.sub.parent
    }

    /** transfer(dst): from a submesh to its parent, vertex j's values go
        to the parent vertex it maps to; from a parent to a submesh, each
        parent vertex the map knows sends its values to its submesh vertex
        and every other slot keeps its value; any other pair of meshes
        raises. Both copies use the source space's ordering. */
    method Transfer(dst: GridFunction) returns (status: Result<()>)
      requires fes.Valid() && dst.fes.Valid() && Sized() && dst.Sized()
      requires fes.vdim == dst.fes.vdim && dst.data != data
      requires SubmeshToParent(dst) ==> forall j :: j < fes.nv ==> j in fes.sub.s2pv.left
      modifies dst.data
      ensures status.Err? <==> !SubmeshToParent(dst) && !ParentToSubmesh(dst)
      ensures status.Err? ==> dst.data[..] == old(dst.data[..])
      ensures SubmeshToParent(dst) ==>
        Transferred(dst.data[..], old(dst.data[..]), data[..], fes.sub.s2pv.left,
                    fes.ordering, fes.nv, dst.fes.nv, fes.vdim)
      ensures !SubmeshToParent(dst) && ParentToSubmesh(dst) ==>
        Transferred(dst.data[..], old(dst.data[..]), data[..], dst.fes.sub.s2pv.right,
                    fes.ordering, fes.nv, dst.fes.nv, fes.vdim)
    {
      if SubmeshToParent(dst) {
        var submesh := fes.sub;
        assert submesh.mesh == fes.mesh && dst.fes.mesh == submesh.parent;
        BimapMapsInto(submesh.s2pv, fes.nv, dst.fes.nv);
        CopyThrough(dst.data, data[..], submesh.s2pv.left, fes.ordering, fes.nv, dst.fes.nv, fes.vdim);
        return Ok(());
      } else if ParentToSubmesh(dst) {
        var submesh := dst.fes.sub;
        assert submesh.mesh == dst.fes.mesh && fes.mesh == submesh.parent;
        BimapMapsInto(submesh.s2pv, dst.fes.nv, fes.nv);
        CopyThrough(dst.data, data[..], submesh.s2pv.right, fes.ordering, fes.nv, dst.fes.nv, fes.vdim);
        return Ok(());
      } else {
        return Err("Unimplemented. Sorry.");
      }
    }
  }

  /** The range type of a grid function: Scalar for one component, Vector
      for more. */
  lemma GridFunctionRangeType(gf: GridFunction)
    requires gf.fes.vdim > 0
    ensures RangeShapes.GetRangeType(gf.GetRangeShape()) == if gf.fes.vdim == 1 then RangeShapes.Scalar else RangeShapes.Vector
  {
  }
}
