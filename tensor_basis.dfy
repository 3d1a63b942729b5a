/** A tensor basis: one value per degree of freedom. The generic basis is an
    object filled once by its constructor; the scalar specialisation is a
    plain vector of reals whose arithmetic is given below as values. */
module TensorBases {

  /** TensorBasis<T>: `dofs` and the values f(0), ..., f(dofs - 1). */
  class TensorBasis<T> {
    const dofs: nat
    var basis: seq<T>

    predicate Valid()
      reads this
    {
      |basis| == dofs
    }

    /** The constructor pushes f(i) for i = 0, ..., dofs - 1. */
    constructor (dofs: nat, f: nat --> T)
      requires forall i :: 0 <= i < dofs ==> f.requires(i)
      ensures Valid() && this.dofs == dofs
      ensures forall i :: 0 <= i < dofs ==> basis[i] == f(i)
    {
      this.dofs := dofs;
      basis := [];
      new;
      var i := 0;
      while i < dofs
        invariant 0 <= i <= dofs && |basis| == i
        invariant forall j :: 0 <= j < i ==> basis[j] == f(j)
      {
        basis := basis + [f(i)];
        i := i + 1;
      }
    }

    /** operator()(i): defined only for i below the number of stored values. */
    function Get(i: nat): (x: T)
      reads this
      requires i < |basis|
      ensures x in basis
    {
      basis[i]
    }

    /** apply(f): a new basis with the same dofs holding f of each value. */
    method Apply<R>(f: T -> R) returns (b: TensorBasis<R>)
      requires Valid()
      ensures fresh(b) && b.Valid() && b.dofs == dofs
      ensures forall i :: 0 <= i < dofs ==> b.basis[i] == f(basis[i])
    {
      var values := basis;
      b := new TensorBasis(dofs, (i: nat) requires i < |values| => f(values[i]));
    }
  }

  /** The generic binary operators (+, - and * on two bases): both operands
      must have the same dofs, and the result combines them value by value. */
  method Combine<A, B, C>(lhs: TensorBasis<A>, rhs: TensorBasis<B>, op: (A, B) -> C) returns (b: TensorBasis<C>)
    requires lhs.Valid() && rhs.Valid() && lhs.dofs == rhs.dofs
    ensures fresh(b) && b.Valid() && b.dofs == lhs.dofs
    ensures forall i :: 0 <= i < lhs.dofs ==> b.basis[i] == op(lhs.basis[i], rhs.basis[i])
  {
    var l, r := lhs.basis, rhs.basis;
    b := new TensorBasis(lhs.dofs, (i: nat) requires i < |l| && i < |r| => op(l[i], r[i]));
  }

  // ----- the scalar basis: a vector of reals -----

  type Scalars = seq<real>

  /** Pointwise sum, the intended scalar operator+. */
  function Plus(lhs: Scalars, rhs: Scalars): (r: Scalars)
    requires |lhs| == |rhs|
    ensures |r| == |lhs| && forall i :: 0 <= i < |r| ==> r[i] == lhs[i] + rhs[i]
  {
    seq(|lhs|, i requires 0 <= i < |lhs| => lhs[i] + rhs[i])
  }

  /** Pointwise difference, the intended scalar operator-. */
  function Minus(lhs: Scalars, rhs: Scalars): (r: Scalars)
    requires |lhs| == |rhs|
    ensures |r| == |lhs| && forall i :: 0 <= i < |r| ==> r[i] == lhs[i] - rhs[i]
  {
    seq(|lhs|, i requires 0 <= i < |lhs| => lhs[i] - rhs[i])
  }

  function Negated(op: Scalars): (r: Scalars)
    ensures |r| == |op| && forall i :: 0 <= i < |r| ==> r[i] == -op[i]
  {
    seq(|op|, i requires 0 <= i < |op| => -op[i])
  }

  /** Pointwise product of two bases (the generic operator*). */
  function Times(lhs: Scalars, rhs: Scalars): (r: Scalars)
    requires |lhs| == |rhs|
    ensures |r| == |lhs| && forall i :: 0 <= i < |r| ==> r[i] == lhs[i] * rhs[i]
  {
    seq(|lhs|, i requires 0 <= i < |lhs| => lhs[i] * rhs[i])
  }

  /** s * basis and basis * s. */
  function Scaled(s: real, op: Scalars): (r: Scalars)
    ensures |r| == |op| && forall i :: 0 <= i < |r| ==> r[i] == s * op[i]
  {
    seq(|op|, i requires 0 <= i < |op| => s * op[i])
  }

  /** The intended scalar operator/: every value divided by s. */
  function Divided(op: Scalars, s: real): (r: Scalars)
    requires s != 0.0
    ensures |r| == |op| && forall i :: 0 <= i < |r| ==> r[i] == op[i] / s
  {
    seq(|op|, i requires 0 <= i < |op| => op[i] / s)
  }

  /** The scalar operator+ as written: it adds lhs to itself. */
  function PlusAsWritten(lhs: Scalars, rhs: Scalars): (r: Scalars)
    requires |lhs| == |rhs|
    ensures |r| == |lhs|
  {
    Plus(lhs, lhs)
  }

  /** The scalar operator- as written: it subtracts lhs from itself. */
  function MinusAsWritten(lhs: Scalars, rhs: Scalars): (r: Scalars)
    requires |lhs| == |rhs|
    ensures |r| == |lhs|
  {
    Minus(lhs, lhs)
  }

  /** The scalar operator/ as written: it multiplies by s. */
  function DividedAsWritten(op: Scalars, s: real): (r: Scalars)
    ensures |r| == |op|
  {
    Scaled(s, op)
  }

  // ----- properties -----

  /** Minus undoes Plus, and Negated is Minus from zero. */
  lemma MinusInvertsPlus(a: Scalars, b: Scalars)
    requires |a| == |b|
    ensures Minus(Plus(a, b), b) == a
    ensures Plus(Minus(a, b), b) == a
    ensures Plus(a, Negated(b)) == Minus(a, b)
  {
    assert Minus(Plus(a, b), b) == a;
    assert Plus(Minus(a, b), b) == a;
  }

  /** Dividing by s undoes scaling by s. */
  lemma DividedInvertsScaled(a: Scalars, s: real)
    requires s != 0.0
    ensures Divided(Scaled(s, a), s) == a
    ensures Scaled(s, Divided(a, s)) == a
  {
    var x, y := Divided(Scaled(s, a), s), Scaled(s, Divided(a, s));
    forall i | 0 <= i < |a| ensures x[i] == a[i] && y[i] == a[i] {
      assert x[i] == (s * a[i]) / s;
      assert y[i] == s * (a[i] / s);
    }
  }

  /** The scalar operator+ as written ignores rhs: with lhs = [0], rhs = [1]
      it gives [0] instead of [1]. */
  lemma PlusAsWrittenIgnoresRhs()
    ensures PlusAsWritten([0.0], [1.0]) == [0.0]
    ensures Plus([0.0], [1.0]) == [1.0]
  {
    assert PlusAsWritten([0.0], [1.0])[0] == 0.0;
    assert Plus([0.0], [1.0])[0] == 1.0;
  }

  /** As written, operator+ doubles lhs and operator- returns zeros, whatever
      rhs is; they agree with the intended operators only when rhs == lhs. */
  lemma AsWrittenAgreesOnlyOnEqualOperands(a: Scalars, b: Scalars)
    requires |a| == |b|
    ensures PlusAsWritten(a, b) == Plus(a, b) <==> a == b
    ensures MinusAsWritten(a, b) == Minus(a, b) <==> a == b
  {
    if PlusAsWritten(a, b) == Plus(a, b) {
      forall i | 0 <= i < |a| ensures a[i] == b[i] {
        assert PlusAsWritten(a, b)[i] == Plus(a, b)[i];
      }
    }
    if MinusAsWritten(a, b) == Minus(a, b) {
      forall i | 0 <= i < |a| ensures a[i] == b[i] {
        assert MinusAsWritten(a, b)[i] == Minus(a, b)[i];
      }
    }
  }

  /** The scalar operator/ as written: [1] / 2 gives [2] instead of [1/2]. */
  lemma DividedAsWrittenMultiplies()
    ensures DividedAsWritten([1.0], 2.0) == [2.0]
    ensures Divided([1.0], 2.0) == [0.5]
  {
    assert DividedAsWritten([1.0], 2.0)[0] == 2.0;
    assert Divided([1.0], 2.0)[0] == 0.5;
  }
}
