/** Scatter-adding local element matrices and vectors into global ones: a
    local entry (i, j) goes to global entry (rows[i], cols[j]) and is added
    to what is already there, so repeated indices accumulate. */
module Scatter {
  import opened Dense

  /** A local matrix together with the global rows and columns of its rows
      and columns. */
  datatype Block = Block(rows: seq<nat>, cols: seq<nat>, sub: Matrix)

  /** The block fits an R x C global matrix. */
  predicate BlockFits(b: Block, R: nat, C: nat)
  {
    (forall i :: 0 <= i < |b.rows| ==> b.rows[i] < R)
    && (forall j :: 0 <= j < |b.cols| ==> b.cols[j] < C)
    && IsMatrix(b.sub, |b.rows|, |b.cols|)
  }

  /** `v` added to entry (r, c). */
  function AddAt(m: Matrix, R: nat, C: nat, r: nat, c: nat, v: real): (m': Matrix)
    requires IsMatrix(m, R, C) && r < R && c < C
    ensures IsMatrix(m', R, C)
    ensures forall a, b :: 0 <= a < R && 0 <= b < C ==>
      m'[a][b] == m[a][b] + (if a == r && b == c then v else 0.0)
  {
    m[r := m[r][c := m[r][c] + v]]
  }

  /** What the first j entries of a local row placed at global row r and
      global columns cols add to global entry (a, b). */
  function RowShare(r: nat, cols: seq<nat>, row: seq<real>, j: nat, a: nat, b: nat): real
    requires j <= |cols| && j <= |row|
  {
    if j == 0 then 0.0
    else RowShare(r, cols, row, j - 1, a, b) + (if r == a && cols[j - 1] == b then row[j - 1] else 0.0)
  }

  /** The global matrix after adding the first j entries of a local row. */
  function AddRowPart(m: Matrix, R: nat, C: nat, r: nat, cols: seq<nat>, row: seq<real>, j: nat): (m': Matrix)
    requires IsMatrix(m, R, C) && r < R && j <= |cols| && j <= |row|
    requires forall k :: 0 <= k < |cols| ==> cols[k] < C
    ensures IsMatrix(m', R, C)
    ensures forall a, b :: 0 <= a < R && 0 <= b < C ==>
      m'[a][b] == m[a][b] + RowShare(r, cols, row, j, a, b)
  {
    if j == 0 then m
    else AddAt(AddRowPart(m, R, C, r, cols, row, j - 1), R, C, r, cols[j - 1], row[j - 1])
  }

  /** What the first i local rows of a block add to global entry (a, b). */
  function BlockShareRows(blk: Block, i: nat, a: nat, b: nat): real
    requires i <= |blk.rows| && IsMatrix(blk.sub, |blk.rows|, |blk.cols|)
  {
    if i == 0 then 0.0
    else BlockShareRows(blk, i - 1, a, b) + RowShare(blk.rows[i - 1], blk.cols, blk.sub[i - 1], |blk.cols|, a, b)
  }

  /** What a whole block adds to global entry (a, b): the sum of sub[i][j]
      over all (i, j) with rows[i] == a and cols[j] == b. */
  function BlockShare(blk: Block, a: nat, b: nat): real
    requires IsMatrix(blk.sub, |blk.rows|, |blk.cols|)
  {
    BlockShareRows(blk, |blk.rows|, a, b)
  }

  function AddRows(m: Matrix, R: nat, C: nat, blk: Block, i: nat): (m': Matrix)
    requires IsMatrix(m, R, C) && BlockFits(blk, R, C) && i <= |blk.rows|
    ensures IsMatrix(m', R, C)
    ensures forall a, b :: 0 <= a < R && 0 <= b < C ==>
      m'[a][b] == m[a][b] + BlockShareRows(blk, i, a, b)
  {
    if i == 0 then m
    else AddRowPart(AddRows(m, R, C, blk, i - 1), R, C, blk.rows[i - 1], blk.cols, blk.sub[i - 1], |blk.cols|)
  }

  /** AddSubMatrix(rows, cols, sub): every local entry added at its global
      position. */
  function AddSubMatrix(m: Matrix, R: nat, C: nat, blk: Block): (m': Matrix)
    requires IsMatrix(m, R, C) && BlockFits(blk, R, C)
    ensures IsMatrix(m', R, C)
    ensures forall a, b :: 0 <= a < R && 0 <= b < C ==> m'[a][b] == m[a][b] + BlockShare(blk, a, b)
  {
    AddRows(m, R, C, blk, |blk.rows|)
  }

  /** A block only touches the entries named by its rows and columns. */
  lemma {:induction false} BlockShareOutside(blk: Block, i: nat, a: nat, b: nat)
    requires i <= |blk.rows| && IsMatrix(blk.sub, |blk.rows|, |blk.cols|)
    requires (forall k :: 0 <= k < |blk.rows| ==> blk.rows[k] != a) || (forall k :: 0 <= k < |blk.cols| ==> blk.cols[k] != b)
    ensures BlockShareRows(blk, i, a, b) == 0.0
  {
    if i > 0 {
      BlockShareOutside(blk, i - 1, a, b);
      RowShareOutside(blk.rows[i - 1], blk.cols, blk.sub[i - 1], |blk.cols|, a, b);
    }
  }

  lemma {:induction false} RowShareOutside(r: nat, cols: seq<nat>, row: seq<real>, j: nat, a: nat, b: nat)
    requires j <= |cols| && j <= |row|
    requires r != a || (forall k :: 0 <= k < |cols| ==> cols[k] != b)
    ensures RowShare(r, cols, row, j, a, b) == 0.0
  {
    if j > 0 {
      RowShareOutside(r, cols, row, j - 1, a, b);
    }
  }

  /** All the blocks fit an R x C matrix. */
  predicate AllFit(bs: seq<Block>, R: nat, C: nat)
  {
    forall k :: 0 <= k < |bs| ==> BlockFits(bs[k], R, C)
  }

  lemma AllFitConcat(xs: seq<Block>, ys: seq<Block>, R: nat, C: nat)
    requires AllFit(xs, R, C) && AllFit(ys, R, C)
    ensures AllFit(xs + ys, R, C)
  {
    forall k | 0 <= k < |xs + ys| ensures BlockFits((xs + ys)[k], R, C) {
      if k < |xs| { assert (xs + ys)[k] == xs[k]; } else { assert (xs + ys)[k] == ys[k - |xs|]; }
    }
  }

  /** The sum of what all blocks add to entry (a, b). */
  function SharesOf(bs: seq<Block>, R: nat, C: nat, a: nat, b: nat): real
    requires AllFit(bs, R, C)
  {
    if bs == [] then 0.0
    else SharesOf(bs[..|bs| - 1], R, C, a, b) + BlockShare(bs[|bs| - 1], a, b)
  }

  /** The blocks added one after another, in order. Each global entry ends
      up as its starting value plus the sum of what every block adds to it. */
  function AddAll(m: Matrix, R: nat, C: nat, bs: seq<Block>): (m': Matrix)
    requires IsMatrix(m, R, C) && AllFit(bs, R, C)
    ensures IsMatrix(m', R, C)
    ensures forall a, b :: 0 <= a < R && 0 <= b < C ==> m'[a][b] == m[a][b] + SharesOf(bs, R, C, a, b)
  {
    if bs == [] then m
    else AddSubMatrix(AddAll(m, R, C, bs[..|bs| - 1]), R, C, bs[|bs| - 1])
  }

  /** Adding one more block at the end is one more AddSubMatrix. */
  lemma AddAllSnoc(m: Matrix, R: nat, C: nat, xs: seq<Block>, b: Block)
    requires IsMatrix(m, R, C) && AllFit(xs, R, C) && BlockFits(b, R, C)
    ensures AllFit(xs + [b], R, C)
    ensures AddAll(m, R, C, xs + [b]) == AddSubMatrix(AddAll(m, R, C, xs), R, C, b)
  {
    AllFitConcat(xs, [b], R, C);
    assert (xs + [b])[..|xs + [b]| - 1] == xs;
  }

  /** Shares of a concatenation add up. */
  lemma {:induction false} SharesOfConcat(xs: seq<Block>, ys: seq<Block>, R: nat, C: nat, a: nat, b: nat)
    requires AllFit(xs, R, C) && AllFit(ys, R, C)
    ensures AllFit(xs + ys, R, C)
    ensures SharesOf(xs + ys, R, C, a, b) == SharesOf(xs, R, C, a, b) + SharesOf(ys, R, C, a, b)
  {
    AllFitConcat(xs, ys, R, C);
    if ys != [] {
      var ys' := ys[..|ys| - 1];
      assert (xs + ys)[..|xs + ys| - 1] == xs + ys';
      assert AllFit(ys', R, C) by {
        forall k | 0 <= k < |ys'| ensures BlockFits(ys'[k], R, C) { assert ys'[k] == ys[k]; }
      }
      SharesOfConcat(xs, ys', R, C, a, b);
    } else {
      assert xs + ys == xs;
    }
  }

  /** Adding xs and then ys is adding xs + ys. */
  lemma AddAllConcat(m: Matrix, R: nat, C: nat, xs: seq<Block>, ys: seq<Block>)
    requires IsMatrix(m, R, C) && AllFit(xs, R, C) && AllFit(ys, R, C)
    ensures AllFit(xs + ys, R, C)
    ensures AddAll(AddAll(m, R, C, xs), R, C, ys) == AddAll(m, R, C, xs + ys)
  {
    SharesOfConcat(xs, ys, R, C, 0, 0);
    var lhs := AddAll(AddAll(m, R, C, xs), R, C, ys);
    var rhs := AddAll(m, R, C, xs + ys);
    forall a | 0 <= a < R ensures lhs[a] == rhs[a] {
      forall b | 0 <= b < C ensures lhs[a][b] == rhs[a][b] {
        SharesOfConcat(xs, ys, R, C, a, b);
      }
    }
  }

  // ----- vectors -----

  /** A local vector and the global positions of its entries. */
  datatype VectorBlock = VectorBlock(dofs: seq<nat>, vec: seq<real>)

  predicate VectorBlockFits(b: VectorBlock, n: nat)
  {
    (forall i :: 0 <= i < |b.dofs| ==> b.dofs[i] < n) && |b.vec| == |b.dofs|
  }

  /** What the first i local entries add to global entry a. */
  function VectorShare(b: VectorBlock, i: nat, a: nat): real
    requires i <= |b.dofs| && |b.vec| == |b.dofs|
  {
    if i == 0 then 0.0 else VectorShare(b, i - 1, a) + (if b.dofs[i - 1] == a then b.vec[i - 1] else 0.0)
  }

  function AddElementVectorPart(v: seq<real>, b: VectorBlock, i: nat): (v': seq<real>)
    requires VectorBlockFits(b, |v|) && i <= |b.dofs|
    ensures |v'| == |v|
    ensures forall a :: 0 <= a < |v| ==> v'[a] == v[a] + VectorShare(b, i, a)
  {
    if i == 0 then v
    else
      var w := AddElementVectorPart(v, b, i - 1);
      w[b.dofs[i - 1] := w[b.dofs[i - 1]] + b.vec[i - 1]]
  }

  /** AddElementVector(dofs, vec): each local entry added at its position. */
  function AddElementVector(v: seq<real>, b: VectorBlock): (v': seq<real>)
    requires VectorBlockFits(b, |v|)
    ensures |v'| == |v|
    ensures forall a :: 0 <= a < |v| ==> v'[a] == v[a] + VectorShare(b, |b.dofs|, a)
  {
    AddElementVectorPart(v, b, |b.dofs|)
  }

  predicate AllVectorsFit(bs: seq<VectorBlock>, n: nat)
  {
    forall k :: 0 <= k < |bs| ==> VectorBlockFits(bs[k], n)
  }

  lemma AllVectorsFitConcat(xs: seq<VectorBlock>, ys: seq<VectorBlock>, n: nat)
    requires AllVectorsFit(xs, n) && AllVectorsFit(ys, n)
    ensures AllVectorsFit(xs + ys, n)
  {
    forall k | 0 <= k < |xs + ys| ensures VectorBlockFits((xs + ys)[k], n) {
      if k < |xs| { assert (xs + ys)[k] == xs[k]; } else { assert (xs + ys)[k] == ys[k - |xs|]; }
    }
  }

  function VectorSharesOf(bs: seq<VectorBlock>, n: nat, a: nat): real
    requires AllVectorsFit(bs, n)
  {
    if bs == [] then 0.0
    else VectorSharesOf(bs[..|bs| - 1], n, a) + VectorShare(bs[|bs| - 1], |bs[|bs| - 1].dofs|, a)
  }

  /** The vector blocks added in order; each entry ends up as its start value
      plus everything the blocks add to it. */
  function AddAllVectors(v: seq<real>, bs: seq<VectorBlock>): (v': seq<real>)
    requires AllVectorsFit(bs, |v|)
    ensures |v'| == |v|
    ensures forall a :: 0 <= a < |v| ==> v'[a] == v[a] + VectorSharesOf(bs, |v|, a)
  {
    if bs == [] then v
    else AddElementVector(AddAllVectors(v, bs[..|bs| - 1]), bs[|bs| - 1])
  }

  /** Adding one more local vector at the end is one more AddElementVector. */
  lemma AddAllVectorsSnoc(v: seq<real>, xs: seq<VectorBlock>, b: VectorBlock)
    requires AllVectorsFit(xs, |v|) && VectorBlockFits(b, |v|)
    ensures AllVectorsFit(xs + [b], |v|)
    ensures AddAllVectors(v, xs + [b]) == AddElementVector(AddAllVectors(v, xs), b)
  {
    AllVectorsFitConcat(xs, [b], |v|);
    assert (xs + [b])[..|xs + [b]| - 1] == xs;
  }

  lemma {:induction false} VectorSharesOfConcat(xs: seq<VectorBlock>, ys: seq<VectorBlock>, n: nat, a: nat)
    requires AllVectorsFit(xs, n) && AllVectorsFit(ys, n)
    ensures AllVectorsFit(xs + ys, n)
    ensures VectorSharesOf(xs + ys, n, a) == VectorSharesOf(xs, n, a) + VectorSharesOf(ys, n, a)
  {
    assert AllVectorsFit(xs + ys, n) by {
      forall k | 0 <= k < |xs + ys| ensures VectorBlockFits((xs + ys)[k], n) {
        if k < |xs| { assert (xs + ys)[k] == xs[k]; } else { assert (xs + ys)[k] == ys[k - |xs|]; }
      }
    }
    if ys != [] {
      var ys' := ys[..|ys| - 1];
      assert (xs + ys)[..|xs + ys| - 1] == xs + ys';
      assert AllVectorsFit(ys', n) by {
        forall k | 0 <= k < |ys'| ensures VectorBlockFits(ys'[k], n) { assert ys'[k] == ys[k]; }
      }
      VectorSharesOfConcat(xs, ys', n, a);
    } else {
      assert xs + ys == xs;
    }
  }

  lemma AddAllVectorsConcat(v: seq<real>, xs: seq<VectorBlock>, ys: seq<VectorBlock>)
    requires AllVectorsFit(xs, |v|) && AllVectorsFit(ys, |v|)
    ensures AllVectorsFit(xs + ys, |v|)
    ensures AddAllVectors(AddAllVectors(v, xs), ys) == AddAllVectors(v, xs + ys)
  {
    VectorSharesOfConcat(xs, ys, |v|, 0);
    var lhs := AddAllVectors(AddAllVectors(v, xs), ys);
    var rhs := AddAllVectors(v, xs + ys);
    forall a | 0 <= a < |v| ensures lhs[a] == rhs[a] {
      VectorSharesOfConcat(xs, ys, |v|, a);
    }
  }
}
