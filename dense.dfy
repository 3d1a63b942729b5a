/** Dense real matrices and vectors as values, with the sums the tensor and
    assembly operations are specified by. */
module Dense {

  type Matrix = seq<seq<real>>

  /** `m` has `rows` rows of `cols` entries each. */
  predicate IsMatrix(m: Matrix, rows: nat, cols: nat)
  {
    |m| == rows && forall i :: 0 <= i < rows ==> |m[i]| == cols
  }

  function Zeros(n: nat): (v: seq<real>)
    ensures |v| == n && forall i :: 0 <= i < n ==> v[i] == 0.0
  {
    seq(n, _ => 0.0)
  }

  function ZeroMatrix(rows: nat, cols: nat): (m: Matrix)
    ensures IsMatrix(m, rows, cols)
    ensures forall i, j :: 0 <= i < rows && 0 <= j < cols ==> m[i][j] == 0.0
  {
    seq(rows, _ => Zeros(cols))
  }

  /** Every entry of `m` multiplied by `s`. */
  function Scaled(m: Matrix, s: real): (r: Matrix)
    ensures |r| == |m|
    ensures forall i :: 0 <= i < |m| ==> |r[i]| == |m[i]|
    ensures forall i, j :: 0 <= i < |m| && 0 <= j < |m[i]| ==> r[i][j] == s * m[i][j]
  {
    seq(|m|, i requires 0 <= i < |m| => seq(|m[i]|, j requires 0 <= j < |m[i]| => s * m[i][j]))
  }

  /** The rows x cols matrix `m` read column by column. */
  function Transposed(m: Matrix, rows: nat, cols: nat): (t: Matrix)
    requires IsMatrix(m, rows, cols)
    ensures IsMatrix(t, cols, rows)
    ensures forall i, j :: 0 <= i < cols && 0 <= j < rows ==> t[i][j] == m[j][i]
  {
    seq(cols, i requires 0 <= i < cols => seq(rows, j requires 0 <= j < rows => m[j][i]))
  }

  lemma TransposedTwice(m: Matrix, rows: nat, cols: nat)
    requires IsMatrix(m, rows, cols)
    ensures Transposed(Transposed(m, rows, cols), cols, rows) == m
  {
    var t := Transposed(Transposed(m, rows, cols), cols, rows);
    forall i | 0 <= i < rows ensures t[i] == m[i] {
    }
  }

  function Identity(n: nat): (m: Matrix)
    ensures IsMatrix(m, n, n)
    ensures forall i, j :: 0 <= i < n && 0 <= j < n ==> m[i][j] == if i == j then 1.0 else 0.0
  {
    seq(n, i => seq(n, j => if i == j then 1.0 else 0.0))
  }

  /** Entrywise a + b. */
  function Plus(a: Matrix, b: Matrix, rows: nat, cols: nat): (m: Matrix)
    requires IsMatrix(a, rows, cols) && IsMatrix(b, rows, cols)
    ensures IsMatrix(m, rows, cols)
    ensures forall i, j :: 0 <= i < rows && 0 <= j < cols ==> m[i][j] == a[i][j] + b[i][j]
  {
    seq(rows, i requires 0 <= i < rows => seq(cols, j requires 0 <= j < cols => a[i][j] + b[i][j]))
  }

  /** m[i][i] summed over i < upto. */
  function DiagSum(m: Matrix, n: nat, upto: nat): real
    requires IsMatrix(m, n, n) && upto <= n
  {
    if upto == 0 then 0.0 else DiagSum(m, n, upto - 1) + m[upto - 1][upto - 1]
  }

  /** a[i][j] * b[i][j] summed over j < upto, on row i. */
  function RowInner(a: Matrix, b: Matrix, rows: nat, cols: nat, i: nat, upto: nat): real
    requires IsMatrix(a, rows, cols) && IsMatrix(b, rows, cols) && i < rows && upto <= cols
  {
    if upto == 0 then 0.0 else RowInner(a, b, rows, cols, i, upto - 1) + a[i][upto - 1] * b[i][upto - 1]
  }

  /** a[i][j] * b[i][j] summed over i < upto and all j: the entrywise
      (Frobenius) inner product when upto == rows. */
  function Frobenius(a: Matrix, b: Matrix, rows: nat, cols: nat, upto: nat): real
    requires IsMatrix(a, rows, cols) && IsMatrix(b, rows, cols) && upto <= rows
  {
    if upto == 0 then 0.0 else Frobenius(a, b, rows, cols, upto - 1) + RowInner(a, b, rows, cols, upto - 1, cols)
  }

  /** l[i][k] * m[k][j] summed over k < upto. */
  function ProductEntry(l: Matrix, m: Matrix, rows: nat, n: nat, cols: nat, i: nat, j: nat, upto: nat): real
    requires IsMatrix(l, rows, n) && IsMatrix(m, n, cols) && i < rows && j < cols && upto <= n
  {
    if upto == 0 then 0.0 else ProductEntry(l, m, rows, n, cols, i, j, upto - 1) + l[i][upto - 1] * m[upto - 1][j]
  }

  /** The matrix product of a rows x n and an n x cols matrix. */
  function Product(l: Matrix, m: Matrix, rows: nat, n: nat, cols: nat): (p: Matrix)
    requires IsMatrix(l, rows, n) && IsMatrix(m, n, cols)
    ensures IsMatrix(p, rows, cols)
    ensures forall i, j :: 0 <= i < rows && 0 <= j < cols ==> p[i][j] == ProductEntry(l, m, rows, n, cols, i, j, n)
  {
    seq(rows, i requires 0 <= i < rows => seq(cols, j requires 0 <= j < cols => ProductEntry(l, m, rows, n, cols, i, j, n)))
  }

  lemma {:induction false} RowInnerIdentity(m: Matrix, n: nat, i: nat, upto: nat)
    requires IsMatrix(m, n, n) && i < n && upto <= n
    ensures RowInner(m, Identity(n), n, n, i, upto) == if i < upto then m[i][i] else 0.0
  {
    if upto > 0 {
      RowInnerIdentity(m, n, i, upto - 1);
    }
  }

  /** Against the identity, the entrywise inner product is the trace. */
  lemma {:induction false} FrobeniusIdentity(m: Matrix, n: nat, upto: nat)
    requires IsMatrix(m, n, n) && upto <= n
    ensures Frobenius(m, Identity(n), n, n, upto) == DiagSum(m, n, upto)
  {
    if upto > 0 {
      FrobeniusIdentity(m, n, upto - 1);
      RowInnerIdentity(m, n, upto - 1, n);
    }
  }

  lemma {:induction false} RowInnerSymmetric(a: Matrix, b: Matrix, rows: nat, cols: nat, i: nat, upto: nat)
    requires IsMatrix(a, rows, cols) && IsMatrix(b, rows, cols) && i < rows && upto <= cols
    ensures RowInner(a, b, rows, cols, i, upto) == RowInner(b, a, rows, cols, i, upto)
  {
    if upto > 0 {
      RowInnerSymmetric(a, b, rows, cols, i, upto - 1);
    }
  }

  lemma {:induction false} FrobeniusSymmetric(a: Matrix, b: Matrix, rows: nat, cols: nat, upto: nat)
    requires IsMatrix(a, rows, cols) && IsMatrix(b, rows, cols) && upto <= rows
    ensures Frobenius(a, b, rows, cols, upto) == Frobenius(b, a, rows, cols, upto)
  {
    if upto > 0 {
      FrobeniusSymmetric(a, b, rows, cols, upto - 1);
      RowInnerSymmetric(a, b, rows, cols, upto - 1, cols);
    }
  }

  lemma {:induction false} ProductEntryIdentityLeft(m: Matrix, n: nat, cols: nat, i: nat, j: nat, upto: nat)
    requires IsMatrix(m, n, cols) && i < n && j < cols && upto <= n
    ensures ProductEntry(Identity(n), m, n, n, cols, i, j, upto) == if i < upto then m[i][j] else 0.0
  {
    if upto > 0 {
      ProductEntryIdentityLeft(m, n, cols, i, j, upto - 1);
    }
  }

  lemma {:induction false} ProductEntryIdentityRight(m: Matrix, rows: nat, n: nat, i: nat, j: nat, upto: nat)
    requires IsMatrix(m, rows, n) && i < rows && j < n && upto <= n
    ensures ProductEntry(m, Identity(n), rows, n, n, i, j, upto) == if j < upto then m[i][j] else 0.0
  {
    if upto > 0 {
      ProductEntryIdentityRight(m, rows, n, i, j, upto - 1);
    }
  }

  /** The identity is neutral on both sides of the product. */
  lemma ProductIdentity(m: Matrix, rows: nat, cols: nat)
    requires IsMatrix(m, rows, cols)
    ensures Product(Identity(rows), m, rows, rows, cols) == m
    ensures Product(m, Identity(cols), rows, cols, cols) == m
  {
    var l := Product(Identity(rows), m, rows, rows, cols);
    var r := Product(m, Identity(cols), rows, cols, cols);
    forall i | 0 <= i < rows ensures l[i] == m[i] && r[i] == m[i] {
      forall j | 0 <= j < cols ensures l[i][j] == m[i][j] && r[i][j] == m[i][j] {
        ProductEntryIdentityLeft(m, rows, cols, i, j, rows);
        ProductEntryIdentityRight(m, rows, cols, i, j, cols);
      }
    }
  }

  lemma {:induction false} DiagSumTransposed(m: Matrix, n: nat, upto: nat)
    requires IsMatrix(m, n, n) && upto <= n
    ensures DiagSum(Transposed(m, n, n), n, upto) == DiagSum(m, n, upto)
  {
    if upto > 0 {
      DiagSumTransposed(m, n, upto - 1);
    }
  }
}
