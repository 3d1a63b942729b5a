/** MMG solutions (MMG5_Sol) and the copies between them and grid
    functions. MMG keeps `size` reals per point in a 1-based buffer m: the
    values of point p (1-based) are m[p * size .. p * size + size), so block
    0 is never used. A grid function lays out its vector either by nodes
    (component c of vertex p at p + c * n) or by components (at
    p * vdim + c). */
module MmgSolutions {
  import opened Layout
  import opened GridFunctions

  // ---- the point-major layout of a grid function vector ----

  /** The grid function slot holding entry k of the point-major layout. */
  function SourceSlot(o: Ordering, k: nat, n: nat, vdim: nat): (s: nat)
    requires k < n * vdim
    ensures s < n * vdim
  {
    assert n * vdim == vdim * n;
    Decompose(k, vdim, n);
    SlotInRange(o, k / vdim, k % vdim, n, vdim);
    Slot(o, k / vdim, k % vdim, n, vdim)
  }

  /** The vector of a grid function over n vertices rewritten point after
      point, the components of one point side by side, as MMG stores it. */
  function Interleaved(data: seq<real>, o: Ordering, n: nat, vdim: nat): (r: seq<real>)
    requires |data| == n * vdim
    ensures |r| == n * vdim
  {
    seq(n * vdim, k requires 0 <= k < n * vdim => data[SourceSlot(o, k, n, vdim)])
  }

  /** The point and component of grid function slot k. */
  function PointOfSlot(o: Ordering, k: nat, n: nat, vdim: nat): (pc: (nat, nat))
    requires k < n * vdim
    ensures pc.0 < n && pc.1 < vdim && Slot(o, pc.0, pc.1, n, vdim) == k
  {
    match o
    case ByNodes =>
      Decompose(k, n, vdim);
      (k % n, k / n)
    case ByVDim =>
      assert n * vdim == vdim * n;
      Decompose(k, vdim, n);
      (k / vdim, k % vdim)
  }

  /** The point-major entry holding grid function slot k. */
  function TargetSlot(o: Ordering, k: nat, n: nat, vdim: nat): (t: nat)
    requires k < n * vdim
    ensures t < n * vdim
  {
    var pc := PointOfSlot(o, k, n, vdim);
    SlotBound(pc.1, pc.0, vdim, n);
    assert vdim * n == n * vdim;
    pc.0 * vdim + pc.1
  }

  /** A point-major vector read back into the grid function's ordering. */
  function Deinterleaved(vals: seq<real>, o: Ordering, n: nat, vdim: nat): (r: seq<real>)
    requires |vals| == n * vdim
    ensures |r| == n * vdim
  {
    seq(n * vdim, k requires 0 <= k < n * vdim => vals[TargetSlot(o, k, n, vdim)])
  }

  /** Component c of point p lands at p * vdim + c. */
  lemma InterleavedAt(data: seq<real>, o: Ordering, n: nat, vdim: nat, p: nat, c: nat)
    requires |data| == n * vdim && p < n && c < vdim
    ensures Slot(o, p, c, n, vdim) < n * vdim
    ensures p * vdim + c < n * vdim
    ensures Interleaved(data, o, n, vdim)[p * vdim + c] == data[Slot(o, p, c, n, vdim)]
  {
    SlotInRange(o, p, c, n, vdim);
    SlotBound(c, p, vdim, n);
    assert vdim * n == n * vdim;
    Split(c, p, vdim);
  }

  /** Reading back the point-major layout gives the grid function vector. */
  lemma DeinterleavedInterleaved(data: seq<real>, o: Ordering, n: nat, vdim: nat)
    requires |data| == n * vdim
    ensures Deinterleaved(Interleaved(data, o, n, vdim), o, n, vdim) == data
  {
    var r := Deinterleaved(Interleaved(data, o, n, vdim), o, n, vdim);
    forall k | 0 <= k < n * vdim ensures r[k] == data[k] {
      var pc := PointOfSlot(o, k, n, vdim);
      InterleavedAt(data, o, n, vdim, pc.0, pc.1);
    }
  }

  /** And laying out a read-back vector gives the point-major one. */
  lemma InterleavedDeinterleaved(vals: seq<real>, o: Ordering, n: nat, vdim: nat)
    requires |vals| == n * vdim
    ensures Interleaved(Deinterleaved(vals, o, n, vdim), o, n, vdim) == vals
  {
    var d := Deinterleaved(vals, o, n, vdim);
    var r := Interleaved(d, o, n, vdim);
    forall k | 0 <= k < n * vdim ensures r[k] == vals[k] {
      assert n * vdim == vdim * n;
      Decompose(k, vdim, n);
      var p, c := k / vdim, k % vdim;
      InterleavedAt(d, o, n, vdim, p, c);
      SlotInRange(o, p, c, n, vdim);
      var pc := PointOfSlot(o, Slot(o, p, c, n, vdim), n, vdim);
      SlotInjective(o, p, c, pc.0, pc.1, n, vdim);
    }
  }

  /** With components side by side the vector is already point-major. */
  lemma InterleavedByVDim(data: seq<real>, n: nat, vdim: nat)
    requires |data| == n * vdim
    ensures Interleaved(data, ByVDim, n, vdim) == data
  {
    var r := Interleaved(data, ByVDim, n, vdim);
    forall k | 0 <= k < n * vdim ensures r[k] == data[k] {
      assert n * vdim == vdim * n;
      Decompose(k, vdim, n);
      InterleavedAt(data, ByVDim, n, vdim, k / vdim, k % vdim);
    }
  }

  /** A scalar vector is the same in every layout. */
  lemma InterleavedScalar(data: seq<real>, o: Ordering, n: nat)
    requires |data| == n
    ensures Interleaved(data, o, n, 1) == data
  {
    var r := Interleaved(data, o, n, 1);
    forall k | 0 <= k < n ensures r[k] == data[k] {
      InterleavedAt(data, o, n, 1, k, 0);
    }
  }

  // ---- writing a block into a buffer ----

  /** Buffer b with t[..q] written from position lo on. */
  function Overlay(b: seq<real>, t: seq<real>, lo: nat, q: nat): (r: seq<real>)
    requires q <= |t| && lo + |t| <= |b|
    ensures |r| == |b|
  {
    b[..lo] + t[..q] + b[lo + q..]
  }

  lemma OverlayStep(b: seq<real>, t: seq<real>, lo: nat, q: nat)
    requires q < |t| && lo + |t| <= |b|
    ensures Overlay(b, t, lo, q)[lo + q := t[q]] == Overlay(b, t, lo, q + 1)
  {
    var u := Overlay(b, t, lo, q)[lo + q := t[q]];
    var w := Overlay(b, t, lo, q + 1);
    forall k | 0 <= k < |b| ensures u[k] == w[k] {
      if k < lo {
      } else if k < lo + q {
        assert u[k] == t[k - lo];
      } else if k == lo + q {
      } else {
        assert w[k] == b[k];
      }
    }
  }

  /** Everything of t written, the rest of the buffer as it was. */
  lemma OverlayWhole(b: seq<real>, t: seq<real>, lo: nat)
    requires lo + |t| <= |b|
    ensures Overlay(b, t, lo, |t|)[lo..lo + |t|] == t
    ensures Overlay(b, t, lo, |t|)[..lo] == b[..lo]
    ensures Overlay(b, t, lo, |t|)[lo + |t|..] == b[lo + |t|..]
  {
    assert t[..|t|] == t;
  }

  /** A zeroed buffer of k entries, as MMG5_SAFE_CALLOC returns. */
  function Zeros(k: nat): (r: seq<real>)
    ensures |r| == k && forall i :: 0 <= i < k ==> r[i] == 0.0
  {
    seq(k, _ => 0.0)
  }

  /** std::copy(src, src + |src|, a + lo). */
  method CopyInto(a: array<real>, lo: nat, src: seq<real>)
    requires lo + |src| <= a.Length
    modifies a
    ensures a[..] == Overlay(old(a[..]), src, lo, |src|)
  {
    ghost var b := a[..];
    var q := 0;
    while q < |src|
      invariant 0 <= q <= |src|
      invariant a[..] == Overlay(b, src, lo, q)
    {
      OverlayStep(b, src, lo, q);
      a[lo + q] := src[q];
      q := q + 1;
    }
  }

  /** The index arithmetic of one step of the node-ordering loop. */
  lemma NodeStep(i: nat, j: nat, n: nat, vdim: nat)
    requires i < n && j < vdim
    ensures (i + 1) * vdim + j == vdim + (i * vdim + j)
    ensures i * vdim + j < n * vdim
    ensures i + j * n == Slot(ByNodes, i, j, n, vdim)
  {
    SlotBound(j, i, vdim, n);
    assert vdim * n == n * vdim;
  }

  /** After row i, the next row starts at (i + 1) * vdim. */
  lemma NextRow(i: nat, n: nat, vdim: nat)
    requires i < n
    ensures i * vdim + vdim == (i + 1) * vdim <= n * vdim
  {
    MulLe(i + 1, n, vdim);
  }

  /** vals is the point-major layout of data: component c of point p at
      p * vdim + c. */
  ghost predicate PointMajor(vals: seq<real>, data: seq<real>, o: Ordering, n: nat, vdim: nat)
    requires |data| == n * vdim
  {
    |vals| == n * vdim &&
    forall p: nat, c: nat :: p < n && c < vdim ==>
      Slot(o, p, c, n, vdim) < |data| && p * vdim + c < |vals| && vals[p * vdim + c] == data[Slot(o, p, c, n, vdim)]
  }

  lemma InterleavedPointMajor(data: seq<real>, o: Ordering, n: nat, vdim: nat)
    requires |data| == n * vdim
    ensures PointMajor(Interleaved(data, o, n, vdim), data, o, n, vdim)
  {
    forall p: nat, c: nat | p < n && c < vdim
      ensures Slot(o, p, c, n, vdim) < |data| && p * vdim + c < n * vdim
      ensures Interleaved(data, o, n, vdim)[p * vdim + c] == data[Slot(o, p, c, n, vdim)]
    {
      InterleavedAt(data, o, n, vdim, p, c);
    }
  }

  lemma PointMajorAt(vals: seq<real>, data: seq<real>, o: Ordering, n: nat, vdim: nat, p: nat, c: nat)
    requires |data| == n * vdim && PointMajor(vals, data, o, n, vdim) && p < n && c < vdim
    ensures Slot(o, p, c, n, vdim) < |data| && p * vdim + c < |vals| && vals[p * vdim + c] == data[Slot(o, p, c, n, vdim)]
  {
  }

  /** The node-ordering loop of both conversions: component j of point i
      goes to m[(i + 1) * vdim + j], read from data[i + j * n]. */
  method CopyByNodes(a: array<real>, data: seq<real>, n: nat, vdim: nat)
    requires |data| == n * vdim && vdim + n * vdim <= a.Length
    modifies a
    ensures a[..] == Overlay(old(a[..]), Interleaved(data, ByNodes, n, vdim), vdim, n * vdim)
  {
    InterleavedPointMajor(data, ByNodes, n, vdim);
    CopyPoints(a, data, n, vdim, Interleaved(data, ByNodes, n, vdim));
  }

  /** The outer loop, over the points. */
  method CopyPoints(a: array<real>, data: seq<real>, n: nat, vdim: nat, ghost target: seq<real>)
    requires |data| == n * vdim && vdim + n * vdim <= a.Length && PointMajor(target, data, ByNodes, n, vdim)
    modifies a
    ensures a[..] == Overlay(old(a[..]), target, vdim, n * vdim)
  {
    ghost var b := a[..];
    var i := 0;
    ghost var row := 0;
    while i < n
      invariant 0 <= i <= n && row == i * vdim && row <= n * vdim
      invariant a[..] == Overlay(b, target, vdim, row)
    {
      NextRow(i, n, vdim);
      CopyPoint(a, data, n, vdim, i, b, target, row);
      i := i + 1;
      row := row + vdim;
    }
  }

  /** The inner loop: the vdim components of point i, component j from
      data[i + j * n] to m[(i + 1) * vdim + j]. */
  method CopyPoint(a: array<real>, data: seq<real>, n: nat, vdim: nat, i: nat, ghost b: seq<real>, ghost target: seq<real>, ghost row: nat)
    requires |data| == n * vdim && i < n && row == i * vdim && PointMajor(target, data, ByNodes, n, vdim)
    requires row + vdim <= |target| && vdim + |target| <= |b| == a.Length && a[..] == Overlay(b, target, vdim, row)
    modifies a
    ensures a[..] == Overlay(b, target, vdim, row + vdim)
  {
    NextBlock(i, vdim);
    var j := 0;
    while j < vdim
      invariant 0 <= j <= vdim
      invariant a[..] == Overlay(b, target, vdim, row + j)
    {
      PointMajorAt(target, data, ByNodes, n, vdim, i, j);
      OverlayStep(b, target, vdim, row + j);
      a[(i + 1) * vdim + j] := data[i + j * n];
      j := j + 1;
    }
  }

  lemma NextBlock(p: nat, n: nat)
    ensures (p + 1) * n == p * n + n
  {
  }

  // ---- the solution ----

  /** MMG5_Sol: point count np, its initial copy npi, the capacity npmax,
      the entry size (1 for a scalar solution, the dimension for a vector
      one) and the 1-based value buffer m (null until allocated). */
  class MmgSol {
    var np: nat
    var npi: nat
    var npmax: nat
    const size: nat
    var m: array?<real>

    /** A solution with no points and no buffer. */
    constructor Empty(size: nat)
      ensures this.size == size && np == 0 && npi == 0 && npmax == 0 && m == null
    {
      this.size := size;
      np, npi, npmax, m := 0, 0, 0, null;
    }

    /** A solution with n points and room for them behind the unused
        block 0. */
    constructor (n: nat, size: nat)
      ensures this.size == size && np == n && npi == n && npmax == n
      ensures m != null && fresh(m) && m.Length == size * (n + 1)
    {
      this.size := size;
      np, npi, npmax := n, n, n;
      m := new real[size * (n + 1)](_ => 0.0);
    }

    /** The buffer, when there is one, holds np points. */
    predicate Valid()
      reads this
    {
      m != null ==> size * (np + 1) <= m.Length
    }
  }

  /** std::max of (int) (1.5 * np) and the three NPMAX constants. */
  function NpMax(np: nat, npmax2D: nat, npmax3D: nat, npmaxS: nat): (r: nat)
    ensures r >= (3 * np) / 2 && r >= npmax2D && r >= npmax3D && r >= npmaxS
    ensures r == (3 * np) / 2 || r == npmax2D || r == npmax3D || r == npmaxS
  {
    var a := if (3 * np) / 2 >= npmax2D then (3 * np) / 2 else npmax2D;
    var b := if a >= npmax3D then a else npmax3D;
    if b >= npmaxS then b else npmaxS
  }

  // ---- grid function to MMG ----

  /** Cast from a scalar grid function vector: an empty vector gives the
      empty solution, otherwise one with a point per entry holding it. */
  method ScalarFromData(data: seq<real>) returns (res: MmgSol)
    ensures fresh(res) && res.size == 1 && res.Valid()
    ensures |data| == 0 ==> res.np == 0 && res.m == null
    ensures |data| > 0 ==> res.np == |data| && res.m != null && fresh(res.m) && res.m[1..|data| + 1] == data
  {
    if |data| == 0 {
      res := new MmgSol.Empty(1);
    } else {
      res := new MmgSol(|data|, 1);
      ghost var b := res.m[..];
      CopyInto(res.m, 1, data);
      OverlayWhole(b, data, 1);
    }
  }

  /** Cast from a grid function of vector dimension 1. */
  method ScalarFromGridFunction(gf: GridFunction) returns (res: MmgSol)
    requires gf.fes.vdim == 1
    ensures fresh(res) && res.size == 1 && res.Valid()
    ensures gf.data.Length == 0 ==> res.np == 0 && res.m == null
    ensures gf.data.Length > 0 ==>
      res.np == gf.data.Length && res.m != null && fresh(res.m) && res.m[1..gf.data.Length + 1] == gf.data[..]
  {
    res := ScalarFromData(gf.data[..]);
  }

  /** Cast from a grid function of vector dimension 2: n = size / 2 points
      of two components each, in point-major order. */
  method Vector2DFromGridFunction(gf: GridFunction) returns (res: MmgSol)
    requires gf.fes.vdim == 2 && gf.data.Length % 2 == 0
    ensures fresh(res) && res.size == 2 && res.Valid()
    ensures gf.data.Length == 0 ==> res.np == 0 && res.m == null
    ensures gf.data.Length > 0 ==> var n := gf.data.Length / 2;
      res.np == n && res.m != null && fresh(res.m)
      && res.m[2..2 * (n + 1)] == Interleaved(gf.data[..], gf.fes.ordering, n, 2)
  {
    var data := gf.data[..];
    if |data| == 0 {
      res := new MmgSol.Empty(2);
      return;
    }
    var n := |data| / 2;
    assert |data| == n * 2;
    res := new MmgSol(n, 2);
    ghost var b := res.m[..];
    match gf.fes.ordering
    case ByNodes =>
      CopyByNodes(res.m, data, n, 2);
    case ByVDim =>
      CopyInto(res.m, 2, data);
      InterleavedByVDim(data, n, 2);
    OverlayWhole(b, Interleaved(data, gf.fes.ordering, n, 2), 2);
  }

  /** MMG5::copySolution(grid function, sol). A grid function with no
      data leaves the solution as it is. Otherwise the solution gets
      n = size / vdim points, a capacity of at least one and a half times
      that, a zeroed buffer for the capacity when it had none, and the
      values point after point from block 1 on. */
  method CopyFromGridFunction(gf: GridFunction, dst: MmgSol, npmax2D: nat, npmax3D: nat, npmaxS: nat)
    requires gf.data.Length > 0 ==> gf.fes.vdim > 0 && gf.data.Length % gf.fes.vdim == 0 && dst.size == gf.fes.vdim
    requires gf.data.Length > 0 && dst.m != null ==> dst.size * (gf.data.Length / gf.fes.vdim + 1) <= dst.m.Length
    requires dst.m != gf.data
    modifies dst, dst.m
    ensures gf.data.Length == 0 ==> dst.np == old(dst.np) && dst.npi == old(dst.npi) && dst.npmax == old(dst.npmax)
    ensures gf.data.Length == 0 ==> dst.m == old(dst.m) && (dst.m != null ==> dst.m[..] == old(dst.m[..]))
    ensures gf.data.Length > 0 ==> dst.np == gf.data.Length / gf.fes.vdim && dst.npi == dst.np
    ensures gf.data.Length > 0 ==> gf.data.Length == dst.np * gf.fes.vdim
    ensures gf.data.Length > 0 ==> dst.npmax == NpMax(dst.np, npmax2D, npmax3D, npmaxS)
    ensures gf.data.Length > 0 ==> dst.Valid() && dst.m != null
    ensures gf.data.Length > 0 && old(dst.m) == null ==> fresh(dst.m) && dst.m.Length == dst.size * (dst.npmax + 1)
    ensures gf.data.Length > 0 && old(dst.m) != null ==> dst.m == old(dst.m)
    ensures gf.data.Length > 0 ==> dst.size * (dst.np + 1) == dst.size + gf.data.Length
    ensures gf.data.Length > 0 ==>
      dst.m[dst.size..dst.size * (dst.np + 1)] == Interleaved(gf.data[..], gf.fes.ordering, dst.np, gf.fes.vdim)
    ensures gf.data.Length > 0 && old(dst.m) != null ==>
      dst.m[..] == Overlay(old(dst.m[..]), Interleaved(gf.data[..], gf.fes.ordering, dst.np, gf.fes.vdim), dst.size, gf.data.Length)
    ensures gf.data.Length > 0 && old(dst.m) == null ==>
      dst.m[..] == Overlay(Zeros(dst.m.Length), Interleaved(gf.data[..], gf.fes.ordering, dst.np, gf.fes.vdim), dst.size, gf.data.Length)
  {
    var data := gf.data[..];
    if |data| == 0 {
      return;
    }
    var vdim := gf.fes.vdim;
    var n := |data| / vdim;
    assert |data| == n * vdim;
    CopyPointsInto(dst, data, gf.fes.ordering, n, vdim, npmax2D, npmax3D, npmaxS);
  }

  /** copySolution once the point count n = size / vdim is known. */
  method CopyPointsInto(dst: MmgSol, data: seq<real>, o: Ordering, n: nat, vdim: nat, npmax2D: nat, npmax3D: nat, npmaxS: nat)
    requires |data| == n * vdim && vdim > 0 && dst.size == vdim
    requires dst.m != null ==> vdim * (n + 1) <= dst.m.Length
    modifies dst, dst.m
    ensures dst.np == n && dst.npi == n && dst.npmax == NpMax(n, npmax2D, npmax3D, npmaxS)
    ensures dst.Valid() && dst.m != null && vdim * (n + 1) == vdim + |data|
    ensures old(dst.m) == null ==> fresh(dst.m) && dst.m.Length == vdim * (dst.npmax + 1)
    ensures old(dst.m) != null ==> dst.m == old(dst.m)
    ensures dst.m[vdim..vdim * (n + 1)] == Interleaved(data, o, n, vdim)
    ensures old(dst.m) != null ==> dst.m[..] == Overlay(old(dst.m[..]), Interleaved(data, o, n, vdim), vdim, |data|)
    ensures old(dst.m) == null ==> dst.m[..] == Overlay(Zeros(dst.m.Length), Interleaved(data, o, n, vdim), vdim, |data|)
  {
    dst.np := n;
    dst.npi := n;
    dst.npmax := NpMax(n, npmax2D, npmax3D, npmaxS);
    if dst.m == null {
      MulLe(n + 1, dst.npmax + 1, vdim);
      assert (n + 1) * vdim == vdim * (n + 1) && (dst.npmax + 1) * vdim == vdim * (dst.npmax + 1);
      dst.m := new real[vdim * (dst.npmax + 1)](_ => 0.0);
      assert dst.m[..] == Zeros(dst.m.Length);
    }
    assert vdim * (n + 1) == vdim + n * vdim;
    FillPoints(dst.m, data, o, n, vdim);
  }

  /** The copy loops of copySolution: the values of data in ordering o,
      point after point, from block 1 of a on. */
  method FillPoints(a: array<real>, data: seq<real>, o: Ordering, n: nat, vdim: nat)
    requires |data| == n * vdim && vdim >= 1 && vdim + n * vdim <= a.Length
    modifies a
    ensures a[..] == Overlay(old(a[..]), Interleaved(data, o, n, vdim), vdim, n * vdim)
    ensures a[vdim..vdim + n * vdim] == Interleaved(data, o, n, vdim)
  {
    ghost var b := a[..];
    ghost var target := Interleaved(data, o, n, vdim);
    if vdim == 1 {
      CopyInto(a, 1, data);
      InterleavedScalar(data, o, n);
    } else {
      match o
      case ByNodes =>
        CopyByNodes(a, data, n, vdim);
      case ByVDim =>
        CopyInto(a, vdim, data);
        InterleavedByVDim(data, n, vdim);
    }
    OverlayWhole(b, target, vdim);
  }

  // ---- MMG to grid function ----

  /** The values of a scalar solution, m[1..np], as a new coefficient
      vector; the casts to IncompleteGridFunction and
      MMG5::copySolution(sol, grid function) both make it. */
  method ScalarToData(sol: MmgSol) returns (data: array<real>)
    requires sol.size == 1 && sol.Valid() && (sol.np > 0 ==> sol.m != null)
    ensures fresh(data) && data.Length == sol.np
    ensures sol.m != null ==> data[..] == sol.m[1..sol.np + 1]
  {
    data := new real[sol.np];
    if sol.np == 0 {
      return;
    }
    var m := sol.m;
    var i := 0;
    while i < sol.np
      invariant 0 <= i <= sol.np
      invariant data[..i] == m[1..i + 1]
    {
      data[i] := m[i + 1];
      assert data[..i + 1] == data[..i] + [data[i]];
      assert m[1..i + 2] == m[1..i + 1] + [m[i + 1]];
      i := i + 1;
    }
    assert data[..] == data[..i];
  }
}
