/** Rank-3 basis tensors: a rows x cols x dofs array, one rows x cols matrix
    per degree of freedom (as a DenseTensor stores it). The generic
    operations read the operator entry by entry and fill a fresh dense
    tensor through index loops. */
module Rank3 {
  import opened Dense

  /** slices[k] is the rows x cols matrix of degree of freedom k. */
  datatype Tensor = Tensor(rows: nat, cols: nat, slices: seq<Matrix>)

  predicate Valid(t: Tensor)
  {
    forall k :: 0 <= k < |t.slices| ==> IsMatrix(t.slices[k], t.rows, t.cols)
  }

  function Dofs(t: Tensor): nat
  {
    |t.slices|
  }

  /** DenseRank3Operator(rows, cols, dofs), which every generic operation
      below allocates for its result, asserts that all three are positive. */
  predicate Allocatable(rows: int, cols: int, dofs: int)
  {
    rows > 0 && cols > 0 && dofs > 0
  }

  /** operator()(row, col, dof). */
  function At(t: Tensor, i: nat, j: nat, k: nat): real
    requires Valid(t) && i < t.rows && j < t.cols && k < Dofs(t)
  {
    t.slices[k][i][j]
  }

  // ----- the operations as values -----

  function TraceOf(t: Tensor): (r: Tensor)
    requires Valid(t) && t.rows == t.cols
    ensures Valid(r) && r.rows == 1 && r.cols == 1 && Dofs(r) == Dofs(t)
  {
    Tensor(1, 1, seq(Dofs(t), k requires 0 <= k < Dofs(t) => [[DiagSum(t.slices[k], t.rows, t.rows)]]))
  }

  function TransposeOf(t: Tensor): (r: Tensor)
    requires Valid(t)
    ensures Valid(r) && r.rows == t.cols && r.cols == t.rows && Dofs(r) == Dofs(t)
  {
    Tensor(t.cols, t.rows, seq(Dofs(t), k requires 0 <= k < Dofs(t) => Transposed(t.slices[k], t.rows, t.cols)))
  }

  predicate SameShape(a: Tensor, b: Tensor)
  {
    a.rows == b.rows && a.cols == b.cols && Dofs(a) == Dofs(b)
  }

  function SumOf(a: Tensor, b: Tensor): (r: Tensor)
    requires Valid(a) && Valid(b) && SameShape(a, b)
    ensures Valid(r) && SameShape(r, a)
  {
    Tensor(a.rows, a.cols, seq(Dofs(a), k requires 0 <= k < Dofs(a) => Plus(a.slices[k], b.slices[k], a.rows, a.cols)))
  }

  /** A 1 x 1 operator times a rows x cols matrix: slice k is lhs scaled by
      the operator's value at k. */
  function ScalarMatrixMultOf(t: Tensor, lhs: Matrix, rows: nat, cols: nat): (r: Tensor)
    requires Valid(t) && t.rows == 1 && t.cols == 1 && IsMatrix(lhs, rows, cols)
    ensures Valid(r) && r.rows == rows && r.cols == cols && Dofs(r) == Dofs(t)
  {
    Tensor(rows, cols, seq(Dofs(t), k requires 0 <= k < Dofs(t) => Scaled(lhs, t.slices[k][0][0])))
  }

  /** A 1 x 1 operator times a vector: a |v| x 1 operator. */
  function ScalarVectorMultOf(t: Tensor, v: seq<real>): (r: Tensor)
    requires Valid(t) && t.rows == 1 && t.cols == 1
    ensures Valid(r) && r.rows == |v| && r.cols == 1 && Dofs(r) == Dofs(t)
  {
    Tensor(|v|, 1, seq(Dofs(t), k requires 0 <= k < Dofs(t) => ColumnTimesScalar(v, t.slices[k][0][0])))
  }

  /** The |v| x 1 matrix of v[i] * s. */
  function ColumnTimesScalar(v: seq<real>, s: real): (m: Matrix)
    ensures IsMatrix(m, |v|, 1)
    ensures forall i :: 0 <= i < |v| ==> m[i][0] == v[i] * s
  {
    seq(|v|, i requires 0 <= i < |v| => [v[i] * s])
  }

  /** The intended left product: slice l is lhs * slice l. */
  function LeftMultOf(lhs: Matrix, rows: nat, t: Tensor): (r: Tensor)
    requires Valid(t) && IsMatrix(lhs, rows, t.rows)
    ensures Valid(r) && r.rows == rows && r.cols == t.cols && Dofs(r) == Dofs(t)
  {
    Tensor(rows, t.cols, seq(Dofs(t), l requires 0 <= l < Dofs(t) => Product(lhs, t.slices[l], rows, t.rows, t.cols)))
  }

  /** The intended right product: slice l is slice l * rhs. */
  function RightMultOf(t: Tensor, rhs: Matrix, cols: nat): (r: Tensor)
    requires Valid(t) && IsMatrix(rhs, t.cols, cols)
    ensures Valid(r) && r.rows == t.rows && r.cols == cols && Dofs(r) == Dofs(t)
  {
    Tensor(t.rows, cols, seq(Dofs(t), l requires 0 <= l < Dofs(t) => Product(t.slices[l], rhs, t.rows, t.cols, cols)))
  }

  /** What the generic LeftMatrixMult loop leaves in entry (i, j, l): the
      inner loop assigns instead of adding, so only its last term, k = n - 1,
      survives. An empty inner loop writes nothing; the entry is then taken
      as 0. */
  function LeftMultAsWrittenEntry(lhs: Matrix, rows: nat, t: Tensor, i: nat, j: nat, l: nat): real
    requires Valid(t) && IsMatrix(lhs, rows, t.rows) && i < rows && j < t.cols && l < Dofs(t)
  {
    if t.rows == 0 then 0.0 else lhs[i][t.rows - 1] * t.slices[l][t.rows - 1][j]
  }

  function RightMultAsWrittenEntry(t: Tensor, rhs: Matrix, cols: nat, i: nat, j: nat, l: nat): real
    requires Valid(t) && IsMatrix(rhs, t.cols, cols) && i < t.rows && j < cols && l < Dofs(t)
  {
    if t.cols == 0 then 0.0 else t.slices[l][i][t.cols - 1] * rhs[t.cols - 1][j]
  }

  /** m[0][j] * v[j] summed over j < upto. */
  function RowTimes(m: Matrix, cols: nat, v: seq<real>, upto: nat): real
    requires IsMatrix(m, 1, cols) && upto <= cols && cols <= |v|
  {
    if upto == 0 then 0.0 else RowTimes(m, cols, v, upto - 1) + m[0][upto - 1] * v[upto - 1]
  }

  /** m[j][0] * v[j] summed over j < upto. */
  function ColumnTimes(m: Matrix, rows: nat, v: seq<real>, upto: nat): real
    requires IsMatrix(m, rows, 1) && upto <= rows && rows <= |v|
  {
    if upto == 0 then 0.0 else ColumnTimes(m, rows, v, upto - 1) + m[upto - 1][0] * v[upto - 1]
  }

  /** VectorDot needs a row or a column operator and a long enough vector. */
  predicate VectorDotDefined(t: Tensor, v: seq<real>)
  {
    Valid(t) && (t.rows == 1 || t.cols == 1) && (if t.rows == 1 then t.cols <= |v| else t.rows <= |v|)
  }

  /** A row operator is dotted along its columns; otherwise (a column) along
      its rows. */
  function VectorDotOf(t: Tensor, v: seq<real>): (r: Tensor)
    requires VectorDotDefined(t, v)
    ensures Valid(r) && r.rows == 1 && r.cols == 1 && Dofs(r) == Dofs(t)
  {
    Tensor(1, 1, seq(Dofs(t), k requires 0 <= k < Dofs(t) =>
      [[if t.rows == 1 then RowTimes(t.slices[k], t.cols, v, t.cols) else ColumnTimes(t.slices[k], t.rows, v, t.rows)]]))
  }

  function MatrixDotOf(t: Tensor, m: Matrix): (r: Tensor)
    requires Valid(t) && IsMatrix(m, t.rows, t.cols)
    ensures Valid(r) && r.rows == 1 && r.cols == 1 && Dofs(r) == Dofs(t)
  {
    Tensor(1, 1, seq(Dofs(t), k requires 0 <= k < Dofs(t) => [[Frobenius(t.slices[k], m, t.rows, t.cols, t.rows)]]))
  }

  /** The dofs(a) x dofs(b) matrix of entrywise inner products of slices. */
  function OperatorDotOf(a: Tensor, b: Tensor): (m: Matrix)
    requires Valid(a) && Valid(b) && a.rows == b.rows && a.cols == b.cols
    ensures IsMatrix(m, Dofs(a), Dofs(b))
  {
    seq(Dofs(a), i requires 0 <= i < Dofs(a) =>
      seq(Dofs(b), j requires 0 <= j < Dofs(b) => Frobenius(a.slices[i], b.slices[j], a.rows, a.cols, a.rows)))
  }

  function AddedToVector(v: seq<real>, t: Tensor): (w: seq<real>)
    requires Valid(t) && t.rows == 1 && t.cols == 1 && Dofs(t) == |v|
    ensures |w| == |v|
  {
    seq(|v|, i requires 0 <= i < |v| => v[i] + t.slices[i][0][0])
  }

  // ----- properties of the operations -----

  /** Transposing twice gives the operator back. */
  lemma TransposeInvolution(t: Tensor)
    requires Valid(t)
    ensures TransposeOf(TransposeOf(t)) == t
  {
    var tt := TransposeOf(TransposeOf(t));
    forall k | 0 <= k < Dofs(t) ensures tt.slices[k] == t.slices[k] {
      TransposedTwice(t.slices[k], t.rows, t.cols);
    }
  }

  /** Transposing does not change the trace. */
  lemma TraceOfTranspose(t: Tensor)
    requires Valid(t) && t.rows == t.cols
    ensures TraceOf(TransposeOf(t)) == TraceOf(t)
  {
    var a, b := TraceOf(TransposeOf(t)), TraceOf(t);
    forall k | 0 <= k < Dofs(t) ensures a.slices[k] == b.slices[k] {
      DiagSumTransposed(t.slices[k], t.rows, t.rows);
    }
  }

  /** The trace is the matrix dot with the identity. */
  lemma TraceIsMatrixDotWithIdentity(t: Tensor)
    requires Valid(t) && t.rows == t.cols
    ensures MatrixDotOf(t, Identity(t.rows)) == TraceOf(t)
  {
    var a, b := MatrixDotOf(t, Identity(t.rows)), TraceOf(t);
    forall k | 0 <= k < Dofs(t) ensures a.slices[k] == b.slices[k] {
      FrobeniusIdentity(t.slices[k], t.rows, t.rows);
    }
  }

  lemma SumCommutes(a: Tensor, b: Tensor)
    requires Valid(a) && Valid(b) && SameShape(a, b)
    ensures SumOf(a, b) == SumOf(b, a)
  {
    var x, y := SumOf(a, b), SumOf(b, a);
    forall k | 0 <= k < Dofs(a) ensures x.slices[k] == y.slices[k] {
      forall i | 0 <= i < a.rows ensures x.slices[k][i] == y.slices[k][i] {
      }
    }
  }

  /** Each entry of the sum is the sum of the entries. */
  lemma SumEntries(a: Tensor, b: Tensor)
    requires Valid(a) && Valid(b) && SameShape(a, b)
    ensures forall i, j, k :: 0 <= i < a.rows && 0 <= j < a.cols && 0 <= k < Dofs(a) ==>
      At(SumOf(a, b), i, j, k) == At(a, i, j, k) + At(b, i, j, k)
  {
  }

  /** Swapping the operands of OperatorDot transposes the result. */
  lemma OperatorDotSymmetric(a: Tensor, b: Tensor)
    requires Valid(a) && Valid(b) && a.rows == b.rows && a.cols == b.cols
    ensures OperatorDotOf(b, a) == Transposed(OperatorDotOf(a, b), Dofs(a), Dofs(b))
  {
    var x, y := OperatorDotOf(b, a), Transposed(OperatorDotOf(a, b), Dofs(a), Dofs(b));
    forall j | 0 <= j < Dofs(b) ensures x[j] == y[j] {
      forall i | 0 <= i < Dofs(a) ensures x[j][i] == y[j][i] {
        FrobeniusSymmetric(a.slices[i], b.slices[j], a.rows, a.cols, a.rows);
      }
    }
  }

  /** Column j of OperatorDot(a, b) is a's matrix dot with slice j of b. */
  lemma OperatorDotIsMatrixDot(a: Tensor, b: Tensor, j: nat)
    requires Valid(a) && Valid(b) && a.rows == b.rows && a.cols == b.cols && j < Dofs(b)
    ensures forall i :: 0 <= i < Dofs(a) ==> OperatorDotOf(a, b)[i][j] == MatrixDotOf(a, b.slices[j]).slices[i][0][0]
  {
  }

  /** The vector as a one-column matrix. */
  function Column(v: seq<real>): (m: Matrix)
    ensures IsMatrix(m, |v|, 1)
  {
    seq(|v|, i requires 0 <= i < |v| => [v[i]])
  }

  /** ScalarVectorMult is ScalarMatrixMult on the vector as a column. */
  lemma ScalarVectorIsColumnMatrix(t: Tensor, v: seq<real>)
    requires Valid(t) && t.rows == 1 && t.cols == 1
    ensures ScalarVectorMultOf(t, v) == ScalarMatrixMultOf(t, Column(v), |v|, 1)
  {
    var x, y := ScalarVectorMultOf(t, v), ScalarMatrixMultOf(t, Column(v), |v|, 1);
    forall k | 0 <= k < Dofs(t) ensures x.slices[k] == y.slices[k] {
      forall i | 0 <= i < |v| ensures x.slices[k][i] == y.slices[k][i] {
        assert |y.slices[k][i]| == 1 && y.slices[k][i][0] == t.slices[k][0][0] * v[i];

      }
    }
  }

  lemma {:induction false} ColumnOfTransposedRow(m: Matrix, cols: nat, v: seq<real>, upto: nat)
    requires IsMatrix(m, 1, cols) && upto <= cols && cols <= |v|
    ensures ColumnTimes(Transposed(m, 1, cols), cols, v, upto) == RowTimes(m, cols, v, upto)
  {
    if upto > 0 {
      ColumnOfTransposedRow(m, cols, v, upto - 1);
    }
  }

  /** Dotting a row operator or its transposed column gives the same values. */
  lemma VectorDotOfTranspose(t: Tensor, v: seq<real>)
    requires VectorDotDefined(t, v) && t.rows == 1
    ensures VectorDotDefined(TransposeOf(t), v)
    ensures VectorDotOf(TransposeOf(t), v) == VectorDotOf(t, v)
  {
    var x, y := VectorDotOf(TransposeOf(t), v), VectorDotOf(t, v);
    forall k | 0 <= k < Dofs(t) ensures x.slices[k] == y.slices[k] {
      var tt := TransposeOf(t);
      assert x.slices[k] == [[if tt.rows == 1 then RowTimes(tt.slices[k], tt.cols, v, tt.cols)
                                else ColumnTimes(tt.slices[k], tt.rows, v, tt.rows)]];
      assert y.slices[k] == [[RowTimes(t.slices[k], t.cols, v, t.cols)]];
      assert tt.slices[k] == Transposed(t.slices[k], 1, t.cols);
      if t.cols == 1 {
        var m := t.slices[k];
        assert RowTimes(Transposed(m, 1, 1), 1, v, 1) == Transposed(m, 1, 1)[0][0] * v[0];
        assert RowTimes(m, 1, v, 1) == m[0][0] * v[0];
        assert Transposed(m, 1, 1)[0][0] == m[0][0];
        assert x.slices[k][0][0] == RowTimes(Transposed(m, 1, 1), 1, v, 1);
        assert y.slices[k][0][0] == RowTimes(m, 1, v, 1);
        assert |x.slices[k][0]| == 1 && |y.slices[k][0]| == 1;
        assert x.slices[k][0][0] == y.slices[k][0][0];
      } else {
        ColumnOfTransposedRow(t.slices[k], t.cols, v, t.cols);
      }
    }
  }

  /** The intended products are neutral for the identity. */
  lemma MultIdentity(t: Tensor)
    requires Valid(t)
    ensures LeftMultOf(Identity(t.rows), t.rows, t) == t
    ensures RightMultOf(t, Identity(t.cols), t.cols) == t
  {
    var x, y := LeftMultOf(Identity(t.rows), t.rows, t), RightMultOf(t, Identity(t.cols), t.cols);
    forall l | 0 <= l < Dofs(t) ensures x.slices[l] == t.slices[l] && y.slices[l] == t.slices[l] {
      ProductIdentity(t.slices[l], t.rows, t.cols);
    }
  }

  /** With a single inner index the as-written loops are exact. */
  lemma AsWrittenMultExactForOneInnerIndex(t: Tensor, lhs: Matrix, rows: nat, rhs: Matrix, cols: nat)
    requires Valid(t)
    requires t.rows == 1 && IsMatrix(lhs, rows, 1)
    requires t.cols == 1 && IsMatrix(rhs, 1, cols)
    ensures forall i, j, l :: 0 <= i < rows && 0 <= j < 1 && 0 <= l < Dofs(t) ==>
      LeftMultAsWrittenEntry(lhs, rows, t, i, j, l) == At(LeftMultOf(lhs, rows, t), i, j, l)
    ensures forall i, j, l :: 0 <= i < 1 && 0 <= j < cols && 0 <= l < Dofs(t) ==>
      RightMultAsWrittenEntry(t, rhs, cols, i, j, l) == At(RightMultOf(t, rhs, cols), i, j, l)
  {
    forall i, j, l | 0 <= i < rows && 0 <= j < 1 && 0 <= l < Dofs(t)
      ensures LeftMultAsWrittenEntry(lhs, rows, t, i, j, l) == At(LeftMultOf(lhs, rows, t), i, j, l)
    {
      assert ProductEntry(lhs, t.slices[l], rows, 1, 1, i, j, 1) == lhs[i][0] * t.slices[l][0][j];
    }
    forall i, j, l | 0 <= i < 1 && 0 <= j < cols && 0 <= l < Dofs(t)
      ensures RightMultAsWrittenEntry(t, rhs, cols, i, j, l) == At(RightMultOf(t, rhs, cols), i, j, l)
    {
      assert ProductEntry(t.slices[l], rhs, 1, 1, cols, i, j, 1) == t.slices[l][i][0] * rhs[0][j];
    }
  }

  /** The as-written loops lose terms: with the 2 x 2 identity on the left of
      the one-dof 2 x 1 operator (1, 0), entry (0, 0, 0) should be 1. */
  lemma LeftMultAsWrittenLosesTerms()
    ensures var t := Tensor(2, 1, [[[1.0], [0.0]]]);
      Valid(t) && LeftMultAsWrittenEntry(Identity(2), 2, t, 0, 0, 0) == 0.0
      && At(LeftMultOf(Identity(2), 2, t), 0, 0, 0) == 1.0
  {
    var t := Tensor(2, 1, [[[1.0], [0.0]]]);
    MultIdentity(t);
  }

  /** Likewise on the right: the 1 x 2 operator (1, 0) times the identity. */
  lemma RightMultAsWrittenLosesTerms()
    ensures var t := Tensor(1, 2, [[[1.0, 0.0]]]);
      Valid(t) && RightMultAsWrittenEntry(t, Identity(2), 2, 0, 0, 0) == 0.0
      && At(RightMultOf(t, Identity(2), 2), 0, 0, 0) == 1.0
  {
    var t := Tensor(1, 2, [[[1.0, 0.0]]]);
    MultIdentity(t);
  }

  /** Adding two operators to a vector one after the other adds their sum. */
  lemma AddedToVectorTwice(v: seq<real>, a: Tensor, b: Tensor)
    requires Valid(a) && Valid(b) && SameShape(a, b) && a.rows == 1 && a.cols == 1 && Dofs(a) == |v|
    ensures AddedToVector(AddedToVector(v, a), b) == AddedToVector(v, SumOf(a, b))
  {
  }

  // ----- the index loops -----

  /** Trace(): a zeroed 1 x 1 x dofs result, then result(0, 0, k) += A(i, i, k). */
  method Trace(t: Tensor) returns (r: array3<real>)
    requires Valid(t) && t.rows == t.cols
    requires Allocatable(1, 1, Dofs(t))
    ensures r.Length0 == 1 && r.Length1 == 1 && r.Length2 == Dofs(t)
    ensures forall k :: 0 <= k < Dofs(t) ==> r[0, 0, k] == At(TraceOf(t), 0, 0, k)
  {
    r := new real[1, 1, Dofs(t)]((_, _, _) => 0.0);
    var k := 0;
    while k < Dofs(t)
      invariant 0 <= k <= Dofs(t)
      invariant forall k' :: 0 <= k' < k ==> r[0, 0, k'] == DiagSum(t.slices[k'], t.rows, t.rows)
      invariant forall k' :: k <= k' < Dofs(t) ==> r[0, 0, k'] == 0.0
    {
      var i := 0;
      while i < t.rows
        invariant 0 <= i <= t.rows
        invariant forall k' :: 0 <= k' < k ==> r[0, 0, k'] == DiagSum(t.slices[k'], t.rows, t.rows)
        invariant r[0, 0, k] == DiagSum(t.slices[k], t.rows, i)
        invariant forall k' :: k < k' < Dofs(t) ==> r[0, 0, k'] == 0.0
      {
        r[0, 0, k] := r[0, 0, k] + At(t, i, i, k);
        i := i + 1;
      }
      k := k + 1;
    }
  }

  /** Transpose(): result(k, j, i) = A(j, k, i). */
  method Transpose(t: Tensor) returns (r: array3<real>)
    requires Valid(t)
    requires Allocatable(t.cols, t.rows, Dofs(t))
    ensures r.Length0 == t.cols && r.Length1 == t.rows && r.Length2 == Dofs(t)
    ensures forall a, b, c :: 0 <= a < t.cols && 0 <= b < t.rows && 0 <= c < Dofs(t) ==>
      r[a, b, c] == At(TransposeOf(t), a, b, c)
  {
    r := new real[t.cols, t.rows, Dofs(t)];
    var i := 0;
    while i < Dofs(t)
      invariant 0 <= i <= Dofs(t)
      invariant forall a, b, c :: 0 <= a < t.cols && 0 <= b < t.rows && 0 <= c < i ==> r[a, b, c] == At(t, b, a, c)
    {
      var j := 0;
      while j < t.rows
        invariant 0 <= j <= t.rows
        invariant forall a, b, c :: 0 <= a < t.cols && 0 <= b < t.rows && 0 <= c < i ==> r[a, b, c] == At(t, b, a, c)
        invariant forall a, b :: 0 <= a < t.cols && 0 <= b < j ==> r[a, b, i] == At(t, b, a, i)
      {
        var k := 0;
        while k < t.cols
          invariant 0 <= k <= t.cols
          invariant forall a, b, c :: 0 <= a < t.cols && 0 <= b < t.rows && 0 <= c < i ==> r[a, b, c] == At(t, b, a, c)
          invariant forall a, b :: 0 <= a < t.cols && 0 <= b < j ==> r[a, b, i] == At(t, b, a, i)
          invariant forall a :: 0 <= a < k ==> r[a, j, i] == At(t, j, a, i)
        {
          r[k, j, i] := At(t, j, k, i);
          k := k + 1;
        }
        j := j + 1;
      }
      i := i + 1;
    }
  }

  /** OperatorSum(rhs): result(i, j, k) = A(i, j, k) + rhs(i, j, k). */
  method OperatorSum(a: Tensor, b: Tensor) returns (r: array3<real>)
    requires Valid(a) && Valid(b) && SameShape(a, b)
    requires Allocatable(a.rows, a.cols, Dofs(a))
    ensures r.Length0 == a.rows && r.Length1 == a.cols && r.Length2 == Dofs(a)
    ensures forall i, j, k :: 0 <= i < a.rows && 0 <= j < a.cols && 0 <= k < Dofs(a) ==>
      r[i, j, k] == At(SumOf(a, b), i, j, k)
  {
    r := new real[a.rows, a.cols, Dofs(a)];
    var k := 0;
    while k < Dofs(a)
      invariant 0 <= k <= Dofs(a)
      invariant forall i, j, c :: 0 <= i < a.rows && 0 <= j < a.cols && 0 <= c < k ==> r[i, j, c] == At(a, i, j, c) + At(b, i, j, c)
    {
      var i := 0;
      while i < a.rows
        invariant 0 <= i <= a.rows
        invariant forall i, j, c :: 0 <= i < a.rows && 0 <= j < a.cols && 0 <= c < k ==> r[i, j, c] == At(a, i, j, c) + At(b, i, j, c)
        invariant forall i', j :: 0 <= i' < i && 0 <= j < a.cols ==> r[i', j, k] == At(a, i', j, k) + At(b, i', j, k)
      {
        var j := 0;
        while j < a.cols
          invariant 0 <= j <= a.cols
          invariant forall i, j, c :: 0 <= i < a.rows && 0 <= j < a.cols && 0 <= c < k ==> r[i, j, c] == At(a, i, j, c) + At(b, i, j, c)
          invariant forall i', j :: 0 <= i' < i && 0 <= j < a.cols ==> r[i', j, k] == At(a, i', j, k) + At(b, i', j, k)
          invariant forall j' :: 0 <= j' < j ==> r[i, j', k] == At(a, i, j', k) + At(b, i, j', k)
        {
          r[i, j, k] := At(a, i, j, k) + At(b, i, j, k);
          j := j + 1;
        }
        i := i + 1;
      }
      k := k + 1;
    }
  }

  /** ScalarMatrixMult(lhs): slice i is set to lhs and scaled by A(0, 0, i). */
  method ScalarMatrixMult(t: Tensor, lhs: Matrix, rows: nat, cols: nat) returns (r: array3<real>)
    requires Valid(t) && t.rows == 1 && t.cols == 1 && IsMatrix(lhs, rows, cols)
    requires Allocatable(rows, cols, Dofs(t))
    ensures r.Length0 == rows && r.Length1 == cols && r.Length2 == Dofs(t)
    ensures forall a, b, c :: 0 <= a < rows && 0 <= b < cols && 0 <= c < Dofs(t) ==>
      r[a, b, c] == At(ScalarMatrixMultOf(t, lhs, rows, cols), a, b, c)
  {
    r := new real[rows, cols, Dofs(t)];
    var i := 0;
    while i < Dofs(t)
      invariant 0 <= i <= Dofs(t)
      invariant forall a, b, c :: 0 <= a < rows && 0 <= b < cols && 0 <= c < i ==> r[a, b, c] == At(t, 0, 0, c) * lhs[a][b]
    {
      ScalarFill(r, t, lhs, rows, cols, i);
      i := i + 1;
    }
  }

  /** Slice i of ScalarMatrixMult. */
  method ScalarFill(r: array3<real>, t: Tensor, lhs: Matrix, rows: nat, cols: nat, i: nat)
    requires Valid(t) && t.rows == 1 && t.cols == 1 && IsMatrix(lhs, rows, cols) && i < Dofs(t)
    requires r.Length0 == rows && r.Length1 == cols && r.Length2 == Dofs(t)
    modifies r
    ensures forall a, b, c :: 0 <= a < rows && 0 <= b < cols && 0 <= c < Dofs(t) ==>
      r[a, b, c] == if c == i then At(t, 0, 0, i) * lhs[a][b] else old(r[a, b, c])
  {
    var a := 0;
    while a < rows
      invariant 0 <= a <= rows
      invariant forall a', b, c :: 0 <= a' < rows && 0 <= b < cols && 0 <= c < Dofs(t) ==>
        r[a', b, c] == if c == i && a' < a then At(t, 0, 0, i) * lhs[a'][b] else old(r[a', b, c])
    {
      var b := 0;
      while b < cols
        invariant 0 <= b <= cols
        invariant forall a', b', c :: 0 <= a' < rows && 0 <= b' < cols && 0 <= c < Dofs(t) ==>
          r[a', b', c] == if c == i && (a' < a || (a' == a && b' < b)) then At(t, 0, 0, i) * lhs[a'][b'] else old(r[a', b', c])
      {
        r[a, b, i] := lhs[a][b];
        r[a, b, i] := r[a, b, i] * At(t, 0, 0, i);
        b := b + 1;
      }
      a := a + 1;
    }
  }

  /** ScalarVectorMult(lhs): result(i, 0, l) = lhs(i) * A(0, 0, l). */
  method ScalarVectorMult(t: Tensor, v: seq<real>) returns (r: array3<real>)
    requires Valid(t) && t.rows == 1 && t.cols == 1
    requires Allocatable(|v|, 1, Dofs(t))
    ensures r.Length0 == |v| && r.Length1 == 1 && r.Length2 == Dofs(t)
    ensures forall a, c :: 0 <= a < |v| && 0 <= c < Dofs(t) ==> r[a, 0, c] == At(ScalarVectorMultOf(t, v), a, 0, c)
  {
    r := new real[|v|, 1, Dofs(t)];
    var l := 0;
    while l < Dofs(t)
      invariant 0 <= l <= Dofs(t)
      invariant forall a, c :: 0 <= a < |v| && 0 <= c < l ==> r[a, 0, c] == v[a] * At(t, 0, 0, c)
    {
      var i := 0;
      while i < |v|
        invariant 0 <= i <= |v|
        invariant forall a, c :: 0 <= a < |v| && 0 <= c < l ==> r[a, 0, c] == v[a] * At(t, 0, 0, c)
        invariant forall a :: 0 <= a < i ==> r[a, 0, l] == v[a] * At(t, 0, 0, l)
      {
        r[i, 0, l] := v[i] * At(t, 0, 0, l);
        i := i + 1;
      }
      l := l + 1;
    }
  }

  /** AddToVector(vec): vec[i] += A(0, 0, i). */
  method AddToVector(t: Tensor, vec: array<real>)
    requires Valid(t) && t.rows == 1 && t.cols == 1 && Dofs(t) == vec.Length
    modifies vec
    ensures vec[..] == AddedToVector(old(vec[..]), t)
  {
    var i := 0;
    while i < Dofs(t)
      invariant 0 <= i <= Dofs(t)
      invariant forall a :: 0 <= a < i ==> vec[a] == old(vec[a]) + At(t, 0, 0, a)
      invariant forall a :: i <= a < vec.Length ==> vec[a] == old(vec[a])
    {
      vec[i] := vec[i] + At(t, 0, 0, i);
      i := i + 1;
    }
  }

  /** LeftMatrixMult(lhs) as written: the innermost loop assigns
      result(i, j, l) = lhs(i, k) * A(k, j, l) for each k in turn. Unwritten
      entries are taken as 0. */
  method LeftMatrixMult(lhs: Matrix, rows: nat, t: Tensor) returns (r: array3<real>)
    requires Valid(t) && IsMatrix(lhs, rows, t.rows)
    requires Allocatable(rows, t.cols, Dofs(t))
    ensures r.Length0 == rows && r.Length1 == t.cols && r.Length2 == Dofs(t)
    ensures forall a, b, c :: 0 <= a < rows && 0 <= b < t.cols && 0 <= c < Dofs(t) ==>
      r[a, b, c] == LeftMultAsWrittenEntry(lhs, rows, t, a, b, c)
  {
    var n := t.rows;
    r := new real[rows, t.cols, Dofs(t)]((_, _, _) => 0.0);
    var l := 0;
    while l < Dofs(t)
      invariant 0 <= l <= Dofs(t)
      invariant forall a, b, c :: 0 <= a < rows && 0 <= b < t.cols && 0 <= c < l ==> r[a, b, c] == LeftMultAsWrittenEntry(lhs, rows, t, a, b, c)
      invariant forall a, b, c :: 0 <= a < rows && 0 <= b < t.cols && l <= c < Dofs(t) ==> r[a, b, c] == 0.0
    {
      var i := 0;
      while i < rows
        invariant 0 <= i <= rows
        invariant forall a, b, c :: 0 <= a < rows && 0 <= b < t.cols && 0 <= c < l ==> r[a, b, c] == LeftMultAsWrittenEntry(lhs, rows, t, a, b, c)
        invariant forall a, b :: 0 <= a < i && 0 <= b < t.cols ==> r[a, b, l] == LeftMultAsWrittenEntry(lhs, rows, t, a, b, l)
        invariant forall a, b, c :: i <= a < rows && 0 <= b < t.cols && l <= c < Dofs(t) ==> r[a, b, c] == 0.0
        invariant forall a, b, c :: 0 <= a < rows && 0 <= b < t.cols && l < c < Dofs(t) ==> r[a, b, c] == 0.0
      {
        var j := 0;
        while j < t.cols
          invariant 0 <= j <= t.cols
          invariant forall a, b, c :: 0 <= a < rows && 0 <= b < t.cols && 0 <= c < l ==> r[a, b, c] == LeftMultAsWrittenEntry(lhs, rows, t, a, b, c)
          invariant forall a, b :: 0 <= a < i && 0 <= b < t.cols ==> r[a, b, l] == LeftMultAsWrittenEntry(lhs, rows, t, a, b, l)
          invariant forall b :: 0 <= b < j ==> r[i, b, l] == LeftMultAsWrittenEntry(lhs, rows, t, i, b, l)
          invariant forall b :: j <= b < t.cols ==> r[i, b, l] == 0.0
          invariant forall a, b, c :: i < a < rows && 0 <= b < t.cols && l <= c < Dofs(t) ==> r[a, b, c] == 0.0
          invariant forall a, b, c :: 0 <= a < rows && 0 <= b < t.cols && l < c < Dofs(t) ==> r[a, b, c] == 0.0
        {
          LeftInnerLoop(r, lhs, rows, t, i, j, l);
          j := j + 1;
        }
        i := i + 1;
      }
      l := l + 1;
    }
  }

  /** The innermost loop of LeftMatrixMult on entry (i, j, l). */
  method LeftInnerLoop(r: array3<real>, lhs: Matrix, rows: nat, t: Tensor, i: nat, j: nat, l: nat)
    requires Valid(t) && IsMatrix(lhs, rows, t.rows) && i < rows && j < t.cols && l < Dofs(t)
    requires r.Length0 == rows && r.Length1 == t.cols && r.Length2 == Dofs(t) && r[i, j, l] == 0.0
    modifies r
    ensures r[i, j, l] == LeftMultAsWrittenEntry(lhs, rows, t, i, j, l)
    ensures forall a, b, c :: 0 <= a < r.Length0 && 0 <= b < r.Length1 && 0 <= c < r.Length2 && (a, b, c) != (i, j, l) ==>
      r[a, b, c] == old(r[a, b, c])
  {
    var k := 0;
    while k < t.rows
      invariant 0 <= k <= t.rows
      invariant r[i, j, l] == if k == 0 then 0.0 else lhs[i][k - 1] * At(t, k - 1, j, l)
      invariant forall a, b, c :: 0 <= a < r.Length0 && 0 <= b < r.Length1 && 0 <= c < r.Length2 && (a, b, c) != (i, j, l) ==>
        r[a, b, c] == old(r[a, b, c])
    {
      r[i, j, l] := lhs[i][k] * At(t, k, j, l);
      k := k + 1;
    }
  }

  /** RightMatrixMult(rhs) as written: the innermost loop assigns
      result(i, j, l) = A(i, k, l) * rhs(k, j) for each k in turn. */
  method RightMatrixMult(t: Tensor, rhs: Matrix, cols: nat) returns (r: array3<real>)
    requires Valid(t) && IsMatrix(rhs, t.cols, cols)
    requires Allocatable(t.rows, cols, Dofs(t))
    ensures r.Length0 == t.rows && r.Length1 == cols && r.Length2 == Dofs(t)
    ensures forall a, b, c :: 0 <= a < t.rows && 0 <= b < cols && 0 <= c < Dofs(t) ==>
      r[a, b, c] == RightMultAsWrittenEntry(t, rhs, cols, a, b, c)
  {
    r := new real[t.rows, cols, Dofs(t)]((_, _, _) => 0.0);
    var l := 0;
    while l < Dofs(t)
      invariant 0 <= l <= Dofs(t)
      invariant forall a, b, c :: 0 <= a < t.rows && 0 <= b < cols && 0 <= c < l ==> r[a, b, c] == RightMultAsWrittenEntry(t, rhs, cols, a, b, c)
      invariant forall a, b, c :: 0 <= a < t.rows && 0 <= b < cols && l <= c < Dofs(t) ==> r[a, b, c] == 0.0
    {
      var i := 0;
      while i < t.rows
        invariant 0 <= i <= t.rows
        invariant forall a, b, c :: 0 <= a < t.rows && 0 <= b < cols && 0 <= c < l ==> r[a, b, c] == RightMultAsWrittenEntry(t, rhs, cols, a, b, c)
        invariant forall a, b :: 0 <= a < i && 0 <= b < cols ==> r[a, b, l] == RightMultAsWrittenEntry(t, rhs, cols, a, b, l)
        invariant forall a, b, c :: i <= a < t.rows && 0 <= b < cols && l <= c < Dofs(t) ==> r[a, b, c] == 0.0
        invariant forall a, b, c :: 0 <= a < t.rows && 0 <= b < cols && l < c < Dofs(t) ==> r[a, b, c] == 0.0
      {
        var j := 0;
        while j < cols
          invariant 0 <= j <= cols
          invariant forall a, b, c :: 0 <= a < t.rows && 0 <= b < cols && 0 <= c < l ==> r[a, b, c] == RightMultAsWrittenEntry(t, rhs, cols, a, b, c)
          invariant forall a, b :: 0 <= a < i && 0 <= b < cols ==> r[a, b, l] == RightMultAsWrittenEntry(t, rhs, cols, a, b, l)
          invariant forall b :: 0 <= b < j ==> r[i, b, l] == RightMultAsWrittenEntry(t, rhs, cols, i, b, l)
          invariant forall b :: j <= b < cols ==> r[i, b, l] == 0.0
          invariant forall a, b, c :: i < a < t.rows && 0 <= b < cols && l <= c < Dofs(t) ==> r[a, b, c] == 0.0
          invariant forall a, b, c :: 0 <= a < t.rows && 0 <= b < cols && l < c < Dofs(t) ==> r[a, b, c] == 0.0
        {
          RightInnerLoop(r, t, rhs, cols, i, j, l);
          j := j + 1;
        }
        i := i + 1;
      }
      l := l + 1;
    }
  }

  /** The innermost loop of RightMatrixMult on entry (i, j, l). */
  method RightInnerLoop(r: array3<real>, t: Tensor, rhs: Matrix, cols: nat, i: nat, j: nat, l: nat)
    requires Valid(t) && IsMatrix(rhs, t.cols, cols) && i < t.rows && j < cols && l < Dofs(t)
    requires r.Length0 == t.rows && r.Length1 == cols && r.Length2 == Dofs(t) && r[i, j, l] == 0.0
    modifies r
    ensures r[i, j, l] == RightMultAsWrittenEntry(t, rhs, cols, i, j, l)
    ensures forall a, b, c :: 0 <= a < r.Length0 && 0 <= b < r.Length1 && 0 <= c < r.Length2 && (a, b, c) != (i, j, l) ==>
      r[a, b, c] == old(r[a, b, c])
  {
    var k := 0;
    while k < t.cols
      invariant 0 <= k <= t.cols
      invariant r[i, j, l] == if k == 0 then 0.0 else At(t, i, k - 1, l) * rhs[k - 1][j]
      invariant forall a, b, c :: 0 <= a < r.Length0 && 0 <= b < r.Length1 && 0 <= c < r.Length2 && (a, b, c) != (i, j, l) ==>
        r[a, b, c] == old(r[a, b, c])
    {
      r[i, j, l] := At(t, i, k, l) * rhs[k][j];
      k := k + 1;
    }
  }

  /** LeftMatrixMult(lhs) with the innermost loop accumulating, as the
      dense operator's own override computes it: each slice is lhs * A_l. */
  method LeftMatrixMultSummed(lhs: Matrix, rows: nat, t: Tensor) returns (r: array3<real>)
    requires Valid(t) && IsMatrix(lhs, rows, t.rows)
    requires Allocatable(rows, t.cols, Dofs(t))
    ensures r.Length0 == rows && r.Length1 == t.cols && r.Length2 == Dofs(t)
    ensures forall a, b, c :: 0 <= a < rows && 0 <= b < t.cols && 0 <= c < Dofs(t) ==>
      r[a, b, c] == LeftMultOf(lhs, rows, t).slices[c][a][b]
  {
    r := new real[rows, t.cols, Dofs(t)]((_, _, _) => 0.0);
    var l := 0;
    while l < Dofs(t)
      invariant 0 <= l <= Dofs(t)
      invariant forall a, b, c :: 0 <= a < rows && 0 <= b < t.cols && 0 <= c < Dofs(t) ==>
        r[a, b, c] == if c < l then LeftMultOf(lhs, rows, t).slices[c][a][b] else 0.0
    {
      LeftFill(r, lhs, rows, t, l);
      l := l + 1;
    }
  }

  /** Slice l of LeftMatrixMultSummed. */
  method LeftFill(r: array3<real>, lhs: Matrix, rows: nat, t: Tensor, l: nat)
    requires Valid(t) && IsMatrix(lhs, rows, t.rows) && l < Dofs(t)
    requires r.Length0 == rows && r.Length1 == t.cols && r.Length2 == Dofs(t)
    requires forall a, b :: 0 <= a < rows && 0 <= b < t.cols ==> r[a, b, l] == 0.0
    modifies r
    ensures forall a, b, c :: 0 <= a < rows && 0 <= b < t.cols && 0 <= c < Dofs(t) ==>
      r[a, b, c] == if c == l then LeftMultOf(lhs, rows, t).slices[l][a][b] else old(r[a, b, c])
  {
    var i := 0;
    while i < rows
      invariant 0 <= i <= rows
      invariant forall a, b, c :: 0 <= a < rows && 0 <= b < t.cols && 0 <= c < Dofs(t) ==>
        r[a, b, c] == if c == l && a < i then LeftMultOf(lhs, rows, t).slices[l][a][b] else old(r[a, b, c])
    {
      LeftFillRow(r, lhs, rows, t, i, l);
      i := i + 1;
    }
  }

  /** Row i of slice l of LeftMatrixMultSummed. */
  method LeftFillRow(r: array3<real>, lhs: Matrix, rows: nat, t: Tensor, i: nat, l: nat)
    requires Valid(t) && IsMatrix(lhs, rows, t.rows) && i < rows && l < Dofs(t)
    requires r.Length0 == rows && r.Length1 == t.cols && r.Length2 == Dofs(t)
    requires forall b :: 0 <= b < t.cols ==> r[i, b, l] == 0.0
    modifies r
    ensures forall a, b, c :: 0 <= a < rows && 0 <= b < t.cols && 0 <= c < Dofs(t) ==>
      r[a, b, c] == if a == i && c == l then LeftMultOf(lhs, rows, t).slices[l][i][b] else old(r[a, b, c])
  {
    var j := 0;
    while j < t.cols
      invariant 0 <= j <= t.cols
      invariant forall a, b, c :: 0 <= a < rows && 0 <= b < t.cols && 0 <= c < Dofs(t) ==>
        r[a, b, c] == if a == i && c == l && b < j then LeftMultOf(lhs, rows, t).slices[l][i][b] else old(r[a, b, c])
    {
      LeftInnerSum(r, lhs, rows, t, i, j, l);
      j := j + 1;
    }
  }

  /** The accumulating innermost loop of LeftMatrixMultSummed on entry (i, j, l). */
  method LeftInnerSum(r: array3<real>, lhs: Matrix, rows: nat, t: Tensor, i: nat, j: nat, l: nat)
    requires Valid(t) && IsMatrix(lhs, rows, t.rows) && i < rows && j < t.cols && l < Dofs(t)
    requires r.Length0 == rows && r.Length1 == t.cols && r.Length2 == Dofs(t) && r[i, j, l] == 0.0
    modifies r
    ensures r[i, j, l] == LeftMultOf(lhs, rows, t).slices[l][i][j]
    ensures forall a, b, c :: 0 <= a < r.Length0 && 0 <= b < r.Length1 && 0 <= c < r.Length2 && (a, b, c) != (i, j, l) ==>
      r[a, b, c] == old(r[a, b, c])
  {
    var k := 0;
    while k < t.rows
      invariant 0 <= k <= t.rows
      invariant r[i, j, l] == ProductEntry(lhs, t.slices[l], rows, t.rows, t.cols, i, j, k)
      invariant forall a, b, c :: 0 <= a < r.Length0 && 0 <= b < r.Length1 && 0 <= c < r.Length2 && (a, b, c) != (i, j, l) ==>
        r[a, b, c] == old(r[a, b, c])
    {
      r[i, j, l] := r[i, j, l] + lhs[i][k] * At(t, k, j, l);
      k := k + 1;
    }
  }

  /** RightMatrixMult(rhs) with the innermost loop accumulating: each slice
      is A_l * rhs. */
  method RightMatrixMultSummed(t: Tensor, rhs: Matrix, cols: nat) returns (r: array3<real>)
    requires Valid(t) && IsMatrix(rhs, t.cols, cols)
    requires Allocatable(t.rows, cols, Dofs(t))
    ensures r.Length0 == t.rows && r.Length1 == cols && r.Length2 == Dofs(t)
    ensures forall a, b, c :: 0 <= a < t.rows && 0 <= b < cols && 0 <= c < Dofs(t) ==>
      r[a, b, c] == RightMultOf(t, rhs, cols).slices[c][a][b]
  {
    r := new real[t.rows, cols, Dofs(t)]((_, _, _) => 0.0);
    var l := 0;
    while l < Dofs(t)
      invariant 0 <= l <= Dofs(t)
      invariant forall a, b, c :: 0 <= a < t.rows && 0 <= b < cols && 0 <= c < Dofs(t) ==>
        r[a, b, c] == if c < l then RightMultOf(t, rhs, cols).slices[c][a][b] else 0.0
    {
      RightFill(r, t, rhs, cols, l);
      l := l + 1;
    }
  }

  /** Slice l of RightMatrixMultSummed. */
  method RightFill(r: array3<real>, t: Tensor, rhs: Matrix, cols: nat, l: nat)
    requires Valid(t) && IsMatrix(rhs, t.cols, cols) && l < Dofs(t)
    requires r.Length0 == t.rows && r.Length1 == cols && r.Length2 == Dofs(t)
    requires forall a, b :: 0 <= a < t.rows && 0 <= b < cols ==> r[a, b, l] == 0.0
    modifies r
    ensures forall a, b, c :: 0 <= a < t.rows && 0 <= b < cols && 0 <= c < Dofs(t) ==>
      r[a, b, c] == if c == l then RightMultOf(t, rhs, cols).slices[l][a][b] else old(r[a, b, c])
  {
    var i := 0;
    while i < t.rows
      invariant 0 <= i <= t.rows
      invariant forall a, b, c :: 0 <= a < t.rows && 0 <= b < cols && 0 <= c < Dofs(t) ==>
        r[a, b, c] == if c == l && a < i then RightMultOf(t, rhs, cols).slices[l][a][b] else old(r[a, b, c])
    {
      RightFillRow(r, t, rhs, cols, i, l);
      i := i + 1;
    }
  }

  /** Row i of slice l of RightMatrixMultSummed. */
  method RightFillRow(r: array3<real>, t: Tensor, rhs: Matrix, cols: nat, i: nat, l: nat)
    requires Valid(t) && IsMatrix(rhs, t.cols, cols) && i < t.rows && l < Dofs(t)
    requires r.Length0 == t.rows && r.Length1 == cols && r.Length2 == Dofs(t)
    requires forall b :: 0 <= b < cols ==> r[i, b, l] == 0.0
    modifies r
    ensures forall a, b, c :: 0 <= a < t.rows && 0 <= b < cols && 0 <= c < Dofs(t) ==>
      r[a, b, c] == if a == i && c == l then RightMultOf(t, rhs, cols).slices[l][i][b] else old(r[a, b, c])
  {
    var j := 0;
    while j < cols
      invariant 0 <= j <= cols
      invariant forall a, b, c :: 0 <= a < t.rows && 0 <= b < cols && 0 <= c < Dofs(t) ==>
        r[a, b, c] == if a == i && c == l && b < j then RightMultOf(t, rhs, cols).slices[l][i][b] else old(r[a, b, c])
    {
      RightInnerSum(r, t, rhs, cols, i, j, l);
      j := j + 1;
    }
  }

  /** The accumulating innermost loop of RightMatrixMultSummed on entry (i, j, l). */
  method RightInnerSum(r: array3<real>, t: Tensor, rhs: Matrix, cols: nat, i: nat, j: nat, l: nat)
    requires Valid(t) && IsMatrix(rhs, t.cols, cols) && i < t.rows && j < cols && l < Dofs(t)
    requires r.Length0 == t.rows && r.Length1 == cols && r.Length2 == Dofs(t) && r[i, j, l] == 0.0
    modifies r
    ensures r[i, j, l] == RightMultOf(t, rhs, cols).slices[l][i][j]
    ensures forall a, b, c :: 0 <= a < r.Length0 && 0 <= b < r.Length1 && 0 <= c < r.Length2 && (a, b, c) != (i, j, l) ==>
      r[a, b, c] == old(r[a, b, c])
  {
    var k := 0;
    while k < t.cols
      invariant 0 <= k <= t.cols
      invariant r[i, j, l] == ProductEntry(t.slices[l], rhs, t.rows, t.cols, cols, i, j, k)
      invariant forall a, b, c :: 0 <= a < r.Length0 && 0 <= b < r.Length1 && 0 <= c < r.Length2 && (a, b, c) != (i, j, l) ==>
        r[a, b, c] == old(r[a, b, c])
    {
      r[i, j, l] := r[i, j, l] + At(t, i, k, l) * rhs[k][j];
      k := k + 1;
    }
  }

  /** VectorDot(rhs): each slice's single row (or column) dotted with rhs. */
  method VectorDot(t: Tensor, v: seq<real>) returns (r: array3<real>)
    requires VectorDotDefined(t, v)
    requires Allocatable(1, 1, Dofs(t))
    ensures r.Length0 == 1 && r.Length1 == 1 && r.Length2 == Dofs(t)
    ensures forall k :: 0 <= k < Dofs(t) ==> r[0, 0, k] == At(VectorDotOf(t, v), 0, 0, k)
  {
    r := new real[1, 1, Dofs(t)]((_, _, _) => 0.0);
    var i := 0;
    while i < Dofs(t)
      invariant 0 <= i <= Dofs(t)
      invariant forall k :: 0 <= k < i ==> r[0, 0, k] == At(VectorDotOf(t, v), 0, 0, k)
      invariant forall k :: i <= k < Dofs(t) ==> r[0, 0, k] == 0.0
    {
      var j := 0;
      if t.rows == 1 {
        while j < t.cols
          invariant 0 <= j <= t.cols
          invariant forall k :: 0 <= k < i ==> r[0, 0, k] == At(VectorDotOf(t, v), 0, 0, k)
          invariant forall k :: i < k < Dofs(t) ==> r[0, 0, k] == 0.0
          invariant r[0, 0, i] == RowTimes(t.slices[i], t.cols, v, j)
        {
          r[0, 0, i] := r[0, 0, i] + At(t, 0, j, i) * v[j];
          j := j + 1;
        }
      } else {
        while j < t.rows
          invariant 0 <= j <= t.rows
          invariant forall k :: 0 <= k < i ==> r[0, 0, k] == At(VectorDotOf(t, v), 0, 0, k)
          invariant forall k :: i < k < Dofs(t) ==> r[0, 0, k] == 0.0
          invariant r[0, 0, i] == ColumnTimes(t.slices[i], t.rows, v, j)
        {
          r[0, 0, i] := r[0, 0, i] + At(t, j, 0, i) * v[j];
          j := j + 1;
        }
      }
      i := i + 1;
    }
  }

  /** MatrixDot(rhs): each slice's entrywise inner product with rhs. */
  method MatrixDot(t: Tensor, m: Matrix) returns (r: array3<real>)
    requires Valid(t) && IsMatrix(m, t.rows, t.cols)
    requires Allocatable(1, 1, Dofs(t))
    ensures r.Length0 == 1 && r.Length1 == 1 && r.Length2 == Dofs(t)
    ensures forall k :: 0 <= k < Dofs(t) ==> r[0, 0, k] == At(MatrixDotOf(t, m), 0, 0, k)
  {
    r := new real[1, 1, Dofs(t)]((_, _, _) => 0.0);
    var k := 0;
    while k < Dofs(t)
      invariant 0 <= k <= Dofs(t)
      invariant forall c :: 0 <= c < k ==> r[0, 0, c] == At(MatrixDotOf(t, m), 0, 0, c)
      invariant forall c :: k <= c < Dofs(t) ==> r[0, 0, c] == 0.0
    {
      var i := 0;
      while i < t.rows
        invariant 0 <= i <= t.rows
        invariant forall c :: 0 <= c < k ==> r[0, 0, c] == At(MatrixDotOf(t, m), 0, 0, c)
        invariant forall c :: k < c < Dofs(t) ==> r[0, 0, c] == 0.0
        invariant r[0, 0, k] == Frobenius(t.slices[k], m, t.rows, t.cols, i)
      {
        var j := 0;
        while j < t.cols
          invariant 0 <= j <= t.cols
          invariant forall c :: 0 <= c < k ==> r[0, 0, c] == At(MatrixDotOf(t, m), 0, 0, c)
          invariant forall c :: k < c < Dofs(t) ==> r[0, 0, c] == 0.0
          invariant r[0, 0, k] == Frobenius(t.slices[k], m, t.rows, t.cols, i) + RowInner(t.slices[k], m, t.rows, t.cols, i, j)
        {
          r[0, 0, k] := r[0, 0, k] + At(t, i, j, k) * m[i][j];
          j := j + 1;
        }
        i := i + 1;
      }
      k := k + 1;
    }
  }

  /** OperatorDot(rhs): the dofs x dofs matrix of entrywise inner products. */
  method OperatorDot(a: Tensor, b: Tensor) returns (r: array2<real>)
    requires Valid(a) && Valid(b) && a.rows == b.rows && a.cols == b.cols
    ensures r.Length0 == Dofs(a) && r.Length1 == Dofs(b)
    ensures forall i, j :: 0 <= i < Dofs(a) && 0 <= j < Dofs(b) ==> r[i, j] == OperatorDotOf(a, b)[i][j]
  {
    r := new real[Dofs(a), Dofs(b)]((_, _) => 0.0);
    var i := 0;
    while i < Dofs(a)
      invariant 0 <= i <= Dofs(a)
      invariant forall x, y :: 0 <= x < Dofs(a) && 0 <= y < Dofs(b) ==>
        r[x, y] == if x < i then OperatorDotOf(a, b)[x][y] else 0.0
    {
      OperatorDotRow(r, a, b, i);
      i := i + 1;
    }
  }

  /** Row i of OperatorDot. */
  method OperatorDotRow(r: array2<real>, a: Tensor, b: Tensor, i: nat)
    requires Valid(a) && Valid(b) && a.rows == b.rows && a.cols == b.cols && i < Dofs(a)
    requires r.Length0 == Dofs(a) && r.Length1 == Dofs(b)
    requires forall y :: 0 <= y < Dofs(b) ==> r[i, y] == 0.0
    modifies r
    ensures forall x, y :: 0 <= x < r.Length0 && 0 <= y < r.Length1 ==>
      r[x, y] == if x == i then OperatorDotOf(a, b)[i][y] else old(r[x, y])
  {
    var j := 0;
    while j < Dofs(b)
      invariant 0 <= j <= Dofs(b)
      invariant forall x, y :: 0 <= x < r.Length0 && 0 <= y < r.Length1 ==>
        r[x, y] == if x == i && y < j then OperatorDotOf(a, b)[i][y] else old(r[x, y])
    {
      SliceInner(r, a, b, i, j);
      j := j + 1;
    }
  }

  /** The two inner loops of OperatorDot on entry (i, j). */
  method SliceInner(r: array2<real>, a: Tensor, b: Tensor, i: nat, j: nat)
    requires Valid(a) && Valid(b) && a.rows == b.rows && a.cols == b.cols && i < Dofs(a) && j < Dofs(b)
    requires r.Length0 == Dofs(a) && r.Length1 == Dofs(b) && r[i, j] == 0.0
    modifies r
    ensures r[i, j] == OperatorDotOf(a, b)[i][j]
    ensures forall x, y :: 0 <= x < r.Length0 && 0 <= y < r.Length1 && (x, y) != (i, j) ==> r[x, y] == old(r[x, y])
  {
    var l := 0;
    while l < a.rows
      invariant 0 <= l <= a.rows
      invariant r[i, j] == Frobenius(a.slices[i], b.slices[j], a.rows, a.cols, l)
      invariant forall x, y :: 0 <= x < r.Length0 && 0 <= y < r.Length1 && (x, y) != (i, j) ==> r[x, y] == old(r[x, y])
    {
      SliceRowInner(r, a, b, i, j, l);
      l := l + 1;
    }
  }

  /** The innermost loop of OperatorDot: row l of the two slices. */
  method SliceRowInner(r: array2<real>, a: Tensor, b: Tensor, i: nat, j: nat, l: nat)
    requires Valid(a) && Valid(b) && a.rows == b.rows && a.cols == b.cols && i < Dofs(a) && j < Dofs(b) && l < a.rows
    requires r.Length0 == Dofs(a) && r.Length1 == Dofs(b)
    modifies r
    ensures r[i, j] == old(r[i, j]) + RowInner(a.slices[i], b.slices[j], a.rows, a.cols, l, a.cols)
    ensures forall x, y :: 0 <= x < r.Length0 && 0 <= y < r.Length1 && (x, y) != (i, j) ==> r[x, y] == old(r[x, y])
  {
    var m := 0;
    while m < a.cols
      invariant 0 <= m <= a.cols
      invariant r[i, j] == old(r[i, j]) + RowInner(a.slices[i], b.slices[j], a.rows, a.cols, l, m)
      invariant forall x, y :: 0 <= x < r.Length0 && 0 <= y < r.Length1 && (x, y) != (i, j) ==> r[x, y] == old(r[x, y])
    {
      r[i, j] := r[i, j] + At(a, l, m, i) * At(b, l, m, j);
      m := m + 1;
    }
  }
}
