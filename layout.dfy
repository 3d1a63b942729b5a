/** Flat index arithmetic: slot k + i * n of a buffer holding vdim blocks of
    n entries each, as used by the vector-valued layouts. */
module Layout {

  lemma MulLe(a: nat, b: nat, n: nat)
    requires a <= b
    ensures a * n <= b * n
  {
    var c := b - a;
    assert b * n == a * n + c * n;
  }

  /** Slot k + i * n is entry k of block i. */
  lemma Split(k: nat, i: nat, n: nat)
    requires k < n
    ensures (k + i * n) / n == i && (k + i * n) % n == k
  {
    var d := k + i * n;
    var q: int, r: int := d / n, d % n;
    assert (q - i) * n == k - r;
    QuotientUnique(q - i, n, k - r);
  }

  /** A multiple of n strictly between -n and n is zero. */
  lemma QuotientUnique(a: int, n: nat, c: int)
    requires a * n == c && -(n as int) < c < n
    ensures a == 0
  {
    var p := (if a > 0 then a else 1) - 1;
    var m := (if a < 0 then -a else 1) - 1;
    MulNonneg(p, n);
    MulNonneg(m, n);
    assert a > 0 ==> a * n == p * n + n;
    assert a < 0 ==> a * n == -(m * n) - n;
  }

  lemma {:induction false} MulNonneg(x: nat, n: nat)
    ensures x * n >= 0
  {
    if x > 0 {
      MulNonneg(x - 1, n);
      assert x * n == (x - 1) * n + n;
    }
  }

  /** Every slot below n * vdim is some entry of some block. */
  lemma Decompose(d: nat, n: nat, vdim: nat)
    requires d < n * vdim
    ensures n > 0 && d / n < vdim && d % n < n && d == d % n + (d / n) * n
  {
    assert n != 0;
    var q: int := d / n;
    assert (vdim - q) * n == vdim * n - q * n;
  }

  /** Entry k of block i lies inside the buffer. */
  lemma SlotBound(k: nat, i: nat, n: nat, vdim: nat)
    requires k < n && i < vdim
    ensures k + i * n < n * vdim
  {
    MulLe(i + 1, vdim, n);
    assert (i + 1) * n == i * n + n;
  }

  /** Slot k + i * n of the result receives shape(k) * v(i): block i is the
      vector shape scaled by v(i). */
  method OuterProduct(shape: seq<real>, vdim: nat, v: seq<real>) returns (r: array3<real>)
    requires |v| == vdim
    ensures r.Length0 == 1 && r.Length1 == 1 && r.Length2 == |shape| * vdim
    ensures forall e :: 0 <= e < r.Length2 ==> |shape| > 0 && r[0, 0, e] == shape[e % |shape|] * v[e / |shape|]
  {
    var n := |shape|;
    r := new real[1, 1, n * vdim];
    var i, base := 0, 0;
    while i < vdim
      invariant 0 <= i <= vdim && base == i * n && base <= r.Length2
      invariant forall e :: 0 <= e < base ==> n > 0 && r[0, 0, e] == shape[e % n] * v[e / n]
    {
      MulLe(i + 1, vdim, n);
      assert base + n == (i + 1) * n <= r.Length2;
      ScaledBlock(r, shape, v[i], base);
      BlockSlots(base, i, n);
      i, base := i + 1, base + n;
    }
    assert base == r.Length2;
  }

  /** The slots of block i are its entries 0 .. n - 1. */
  lemma BlockSlots(base: nat, i: nat, n: nat)
    requires base == i * n
    ensures forall e :: base <= e < base + n ==> e % n == e - base && e / n == i
  {
    forall e | base <= e < base + n ensures e % n == e - base && e / n == i {
      Split(e - base, i, n);
    }
  }

  /** The inner loop of OuterProduct: slots base .. base + n - 1 receive
      shape scaled by s; nothing else changes. */
  method ScaledBlock(r: array3<real>, shape: seq<real>, s: real, base: nat)
    requires r.Length0 == 1 && r.Length1 == 1 && base + |shape| <= r.Length2
    modifies r
    ensures forall e :: base <= e < base + |shape| ==> r[0, 0, e] == shape[e - base] * s
    ensures forall e :: 0 <= e < r.Length2 && !(base <= e < base + |shape|) ==> r[0, 0, e] == old(r[0, 0, e])
  {
    var k := 0;
    while k < |shape|
      invariant 0 <= k <= |shape|
      invariant forall e :: base <= e < base + k ==> r[0, 0, e] == shape[e - base] * s
      invariant forall e :: 0 <= e < r.Length2 && !(base <= e < base + k) ==> r[0, 0, e] == old(r[0, 0, e])
    {
      r[0, 0, base + k] := shape[k] * s;
      k := k + 1;
    }
  }
}
