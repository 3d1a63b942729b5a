/** The two shape-function operators of the rank-3 family: a scalar basis
    repeated in each of vdim components, and the Jacobian of such a vector
    basis. Degree of freedom `dof` stands for local basis function dof % n in
    component dof / n, where n is the number of scalar basis functions. */
module ShapeOperators {
  import opened Dense
  import opened Rank3
  import opened Layout

  /** Entry (row, 0, dof) of the scalar shape operator. */
  function ScalarShapeEntry(shape: seq<real>, vdim: nat, row: nat, dof: nat): real
    requires row < vdim && dof < |shape| * vdim
  {
    if dof / |shape| == row then shape[dof % |shape|] else 0.0
  }

  /** Entry (row, col, dof) of the Jacobian shape operator; dshape holds one
      gradient row of width sdim per scalar basis function. */
  function JacobianShapeEntry(dshape: Matrix, sdim: nat, vdim: nat, row: nat, col: nat, dof: nat): real
    requires IsMatrix(dshape, |dshape|, sdim) && row < sdim && col < vdim && dof < |dshape| * vdim
  {
    if dof / |dshape| == col then dshape[dof % |dshape|][row] else 0.0
  }

  /** Dof k + i * n of the scalar shape operator is shape function k in
      component i and zero in every other component. */
  lemma ScalarShapeEntryLayout(shape: seq<real>, vdim: nat, row: nat, k: nat, i: nat)
    requires row < vdim && k < |shape| && i < vdim
    ensures k + i * |shape| < |shape| * vdim
    ensures ScalarShapeEntry(shape, vdim, row, k + i * |shape|) == if row == i then shape[k] else 0.0
  {
    Split(k, i, |shape|);
    SlotBound(k, i, |shape|, vdim);
  }

  /** Dof k + i * n of the Jacobian operator is the gradient of shape
      function k placed in column i. */
  lemma JacobianShapeEntryLayout(dshape: Matrix, sdim: nat, vdim: nat, row: nat, col: nat, k: nat, i: nat)
    requires IsMatrix(dshape, |dshape|, sdim) && row < sdim && col < vdim && k < |dshape| && i < vdim
    ensures k + i * |dshape| < |dshape| * vdim
    ensures JacobianShapeEntry(dshape, sdim, vdim, row, col, k + i * |dshape|) == if col == i then dshape[k][row] else 0.0
  {
    Split(k, i, |dshape|);
    SlotBound(k, i, |dshape|, vdim);
  }

  /** Entry s of a vector of length n filled with value s. */
  function Filled(n: nat, s: real): (v: seq<real>)
    ensures |v| == n && forall i :: 0 <= i < n ==> v[i] == s
  {
    seq(n, _ => s)
  }

  function ScaledVector(v: seq<real>, s: real): (w: seq<real>)
    ensures |w| == |v| && forall i :: 0 <= i < |v| ==> w[i] == s * v[i]
  {
    seq(|v|, i requires 0 <= i < |v| => s * v[i])
  }

  /** The scalar shape operator: vdim rows, one column, n * vdim dofs. */
  class ScalarShapeOperator {
    var shape: seq<real>
    const vdim: nat

    constructor (shape: seq<real>, vdim: nat)
      ensures this.shape == shape && this.vdim == vdim
    {
      this.shape := shape;
      this.vdim := vdim;
    }

    function DofCount(): nat
      reads this
    {
      |shape| * vdim
    }

    function Entry(row: nat, col: nat, dof: nat): (x: real)
      reads this
      requires row < vdim && col == 0 && dof < DofCount()
    {
      ScalarShapeEntry(shape, vdim, row, dof)
    }

    /** The operator as a dense tensor. */
    function Dense(): (t: Tensor)
      reads this
      ensures Valid(t) && t.rows == vdim && t.cols == 1 && Dofs(t) == DofCount()
      ensures forall i, d :: 0 <= i < vdim && 0 <= d < DofCount() ==> At(t, i, 0, d) == Entry(i, 0, d)
    {
      var sh, n := shape, DofCount();
      Tensor(vdim, 1, seq(n, d requires 0 <= d < n =>
        seq(vdim, i requires 0 <= i < vdim => [ScalarShapeEntry(sh, vdim, i, d)])))
    }

    /** operator*=(s): scales the stored shape values. */
    method Scale(s: real)
      modifies this
      ensures shape == ScaledVector(old(shape), s)
      ensures forall i, d :: 0 <= i < vdim && 0 <= d < DofCount() ==> Entry(i, 0, d) == s * old(Entry(i, 0, d))
    {
      shape := ScaledVector(shape, s);
    }

    /** operator=(s): sets every stored shape value to s. */
    method Fill(s: real)
      modifies this
      ensures shape == Filled(|old(shape)|, s)
    {
      shape := Filled(|shape|, s);
    }

    /** The VectorDot override: dof k + i * n of the result is
        shape(k) * rhs(i); this is the generic contraction of the dense
        operator along its rows. */
    method VectorDot(v: seq<real>) returns (r: array3<real>)
      requires |v| == vdim
      requires Allocatable(1, 1, DofCount())
      ensures VectorDotDefined(Dense(), v)
      ensures r.Length0 == 1 && r.Length1 == 1 && r.Length2 == DofCount()
      ensures forall d :: 0 <= d < DofCount() ==> r[0, 0, d] == At(VectorDotOf(Dense(), v), 0, 0, d)
    {
      r := OuterProduct(shape, vdim, v);
      forall d | 0 <= d < DofCount() ensures r[0, 0, d] == At(VectorDotOf(Dense(), v), 0, 0, d) {
        VectorDotAgrees(v, d);
      }
    }

    /** The generic contraction of the dense operator, at dof d. */
    lemma VectorDotAgrees(v: seq<real>, d: nat)
      requires |v| == vdim && d < DofCount()
      ensures VectorDotDefined(Dense(), v)
      ensures At(VectorDotOf(Dense(), v), 0, 0, d) == shape[d % |shape|] * v[d / |shape|]
    {
      var n := |shape|;
      Decompose(d, n, vdim);
      var i, k := d / n, d % n;
      var t := Dense();
      var col := t.slices[d];
      assert IsMatrix(col, vdim, 1);
      assert forall j :: 0 <= j < vdim ==> col[j][0] == ScalarShapeEntry(shape, vdim, j, d);
      assert col[i][0] == shape[k];
      if vdim == 1 {
        assert RowTimes(col, 1, v, 1) == col[0][0] * v[0];
      } else {
        OneHotColumn(col, vdim, v, i, vdim);
      }
    }
  }

  /** A column with a single non-zero entry, at row i, contracts to that
      entry times v[i]. */
  lemma {:induction false} OneHotColumn(m: Matrix, rows: nat, v: seq<real>, i: nat, upto: nat)
    requires IsMatrix(m, rows, 1) && upto <= rows && rows <= |v| && i < rows
    requires forall j :: 0 <= j < rows && j != i ==> m[j][0] == 0.0
    ensures ColumnTimes(m, rows, v, upto) == if i < upto then m[i][0] * v[i] else 0.0
  {
    if upto > 0 {
      OneHotColumn(m, rows, v, i, upto - 1);
    }
  }

  /** A square matrix with a single non-zero diagonal entry, at i, has that
      entry as its diagonal sum. */
  lemma {:induction false} OneHotDiagonal(m: Matrix, n: nat, i: nat, upto: nat)
    requires IsMatrix(m, n, n) && upto <= n && i < n
    requires forall j :: 0 <= j < n && j != i ==> m[j][j] == 0.0
    ensures DiagSum(m, n, upto) == if i < upto then m[i][i] else 0.0
  {
    if upto > 0 {
      OneHotDiagonal(m, n, i, upto - 1);
    }
  }

  /** Entry k of the column-major storage of an n-row matrix. */
  function ColumnMajor(m: Matrix, n: nat, width: nat, k: nat): real
    requires IsMatrix(m, n, width) && k < n * width
  {
    Decompose(k, n, width);
    m[k % n][k / n]
  }

  /** The Jacobian shape operator: sdim rows, vdim columns, n * vdim dofs. */
  class JacobianShapeOperator {
    var dshape: Matrix
    const sdim: nat
    const vdim: nat

    predicate Valid()
      reads this
    {
      IsMatrix(dshape, |dshape|, sdim)
    }

    constructor (dshape: Matrix, sdim: nat, vdim: nat)
      requires IsMatrix(dshape, |dshape|, sdim)
      ensures Valid() && this.dshape == dshape && this.sdim == sdim && this.vdim == vdim
    {
      this.dshape := dshape;
      this.sdim := sdim;
      this.vdim := vdim;
    }

    function DofCount(): nat
      reads this
    {
      |dshape| * vdim
    }

    function Entry(row: nat, col: nat, dof: nat): real
      reads this
      requires Valid() && row < sdim && col < vdim && dof < DofCount()
    {
      JacobianShapeEntry(dshape, sdim, vdim, row, col, dof)
    }

    function Dense(): (t: Tensor)
      reads this
      requires Valid()
      ensures Rank3.Valid(t) && t.rows == sdim && t.cols == vdim && Dofs(t) == DofCount()
      ensures forall i, j, d :: 0 <= i < sdim && 0 <= j < vdim && 0 <= d < DofCount() ==> At(t, i, j, d) == Entry(i, j, d)
    {
      var ds, n := dshape, DofCount();
      Tensor(sdim, vdim, seq(n, d requires 0 <= d < n =>
        seq(sdim, i requires 0 <= i < sdim => seq(vdim, j requires 0 <= j < vdim => JacobianShapeEntry(ds, sdim, vdim, i, j, d)))))
    }

    /** operator*=(s): scales the stored gradients. */
    method Scale(s: real)
      requires Valid()
      modifies this
      ensures Valid() && dshape == Scaled(old(dshape), s)
      ensures forall i, j, d :: 0 <= i < sdim && 0 <= j < vdim && 0 <= d < DofCount() ==>
        Entry(i, j, d) == s * old(Entry(i, j, d))
    {
      dshape := Scaled(dshape, s);
    }

    /** operator=(s): sets every stored gradient entry to s. */
    method Fill(s: real)
      requires Valid()
      modifies this
      ensures Valid() && |dshape| == |old(dshape)|
      ensures forall i, j :: 0 <= i < |dshape| && 0 <= j < sdim ==> dshape[i][j] == s
    {
      dshape := seq(|dshape|, _ => Filled(sdim, s));
    }

    /** The Trace override reads the gradients' column-major storage; this is
        the diagonal sum of the dense operator. */
    method Trace() returns (r: array3<real>)
      requires Valid() && sdim == vdim
      requires Allocatable(1, 1, DofCount())
      ensures r.Length0 == 1 && r.Length1 == 1 && r.Length2 == DofCount()
      ensures forall d :: 0 <= d < DofCount() ==> r[0, 0, d] == At(TraceOf(Dense()), 0, 0, d)
    {
      r := new real[1, 1, DofCount()];
      var k := 0;
      while k < DofCount()
        invariant 0 <= k <= DofCount()
        invariant forall d :: 0 <= d < k ==> r[0, 0, d] == At(TraceOf(Dense()), 0, 0, d)
      {
        TraceAgrees(k);
        r[0, 0, k] := ColumnMajor(dshape, |dshape|, sdim, k);
        k := k + 1;
      }
    }

    /** The diagonal sum of dof d is gradient entry (d % n, d / n), which is
        storage slot d. */
    lemma TraceAgrees(d: nat)
      requires Valid() && sdim == vdim && d < DofCount()
      ensures At(TraceOf(Dense()), 0, 0, d) == ColumnMajor(dshape, |dshape|, sdim, d)
    {
      Decompose(d, |dshape|, vdim);
      var t := Dense();
      OneHotDiagonal(t.slices[d], sdim, d / |dshape|, sdim);
    }
  }
}
