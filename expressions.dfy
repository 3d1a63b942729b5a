/** Expression trees of variational functions: the shape rules of products
    and sums, trace-domain propagation, the product's value, and the
    operators that chain integrators into lists.

    Each node owns private copies of its operands (they are cloned into
    std::unique_ptr objects when the node is built), so a tree is a value: no two
    nodes share an operand. */
module Expressions {
  import opened RangeShapes
  import opened Wrappers
  import Dense
  import FormList

  /** A function expression; `trace` is the node's trace domain, the
      attributes whose elements are read as the domain when the function is
      evaluated on a face. */
  datatype Expr =
    | Leaf(shape: RangeShape, trace: set<int>)
    | MultExpr(lhs: Expr, rhs: Expr, trace: set<int>)
    | SumExpr(lhs: Expr, rhs: Expr, trace: set<int>)

  /** getRangeShape: a product takes the shape of its right operand when the
      left one is scalar and of its left operand otherwise; a sum takes its
      left operand's. */
  function Shape(e: Expr): RangeShape
    decreases e, 1
  {
    match e
    case Leaf(s, _) => s
    case MultExpr(l, r, _) => if IsScalar(l) then Shape(r) else Shape(l)
    case SumExpr(l, _, _) => Shape(l)
  }

  predicate IsScalar(e: Expr)
    decreases e, 2
  {
    Valid(Shape(e)) && GetRangeType(Shape(e)) == Scalar
  }

  /** The trees the checked constructors can build: every leaf shape is
      valid, a product has a scalar operand and a sum has operands of equal
      shape. */
  predicate WellFormed(e: Expr)
  {
    match e
    case Leaf(s, _) => Valid(s)
    case MultExpr(l, r, _) => WellFormed(l) && WellFormed(r) && (IsScalar(l) || IsScalar(r))
    case SumExpr(l, r, _) => WellFormed(l) && WellFormed(r) && Shape(l) == Shape(r)
  }

  lemma {:induction false} WellFormedShapeValid(e: Expr)
    requires WellFormed(e)
    ensures Valid(Shape(e))
  {
    match e
    case Leaf(_, _) =>
    case MultExpr(l, r, _) => WellFormedShapeValid(l); WellFormedShapeValid(r);
    case SumExpr(l, _, _) => WellFormedShapeValid(l);
  }

  /** The Mult constructor (and operator*): it raises an incompatible-shape
      error unless at least one operand is scalar. */
  function MakeMult(lhs: Expr, rhs: Expr): (r: Result<Expr>)
    requires WellFormed(lhs) && WellFormed(rhs)
    ensures r.Ok? <==> IsScalar(lhs) || IsScalar(rhs)
    ensures r.Ok? ==> WellFormed(r.value) && r.value == MultExpr(lhs, rhs, {})
  {
    if !IsScalar(lhs) && !IsScalar(rhs) then Err("IncompatibleShapeException")
    else Ok(MultExpr(lhs, rhs, {}))
  }

  /** A product has the shape of its non-scalar operand, whichever side that
      is, and is scalar when both operands are; so the product's shape does
      not depend on the order of its operands. */
  lemma MultShapeIsNonScalarOperand(lhs: Expr, rhs: Expr)
    requires WellFormed(lhs) && WellFormed(rhs)
    requires MakeMult(lhs, rhs).Ok?
    ensures !IsScalar(lhs) ==> Shape(MakeMult(lhs, rhs).value) == Shape(lhs)
    ensures !IsScalar(rhs) ==> Shape(MakeMult(lhs, rhs).value) == Shape(rhs)
    ensures IsScalar(lhs) && IsScalar(rhs) ==> Shape(MakeMult(lhs, rhs).value) == RangeShape(1, 1)
    ensures MakeMult(rhs, lhs).Ok? && Shape(MakeMult(rhs, lhs).value) == Shape(MakeMult(lhs, rhs).value)
  {
  }

  /** The Sum constructor (and operator+ on functions): it raises a
      range-shape mismatch unless both operands have the same shape. */
  function MakeSum(lhs: Expr, rhs: Expr): (r: Result<Expr>)
    requires WellFormed(lhs) && WellFormed(rhs)
    ensures r.Ok? <==> Shape(lhs) == Shape(rhs)
    ensures r.Ok? ==> WellFormed(r.value) && r.value == SumExpr(lhs, rhs, {})
    ensures r.Ok? ==> Shape(r.value) == Shape(lhs) && Shape(r.value) == Shape(rhs)
  {
    if Shape(lhs) != Shape(rhs) then Err("RangeShapeMismatchException")
    else Ok(SumExpr(lhs, rhs, {}))
  }

  /** The terms a chain of sums adds up, left to right. */
  function Summands(e: Expr): (s: seq<Expr>)
    ensures |s| > 0
  {
    match e
    case SumExpr(l, r, _) => Summands(l) + Summands(r)
    case _ => [e]
  }

  /** Sum's `+= x`: the right operand becomes Sum(x, old right operand), which
      raises unless x has its shape; the left operand is left alone. */
  function SumAddAssign(e: Expr, x: Expr): (r: Result<Expr>)
    requires e.SumExpr? && WellFormed(e) && WellFormed(x)
    ensures r.Ok? <==> Shape(x) == Shape(e.rhs)
    ensures r.Ok? ==> r.value.SumExpr? && r.value.lhs == e.lhs && r.value.trace == e.trace
    ensures r.Ok? ==> r.value.rhs == SumExpr(x, e.rhs, {})
  {
    match MakeSum(x, e.rhs)
    case Ok(s) => Ok(SumExpr(e.lhs, s, e.trace))
    case Err(m) => Err(m)
  }

  /** `+= x` keeps the sum well formed and of the same shape, and adds x to
      its terms, just after the left operand's. */
  lemma AddAssignAddsTerm(e: Expr, x: Expr)
    requires e.SumExpr? && WellFormed(e) && WellFormed(x)
    requires SumAddAssign(e, x).Ok?
    ensures WellFormed(SumAddAssign(e, x).value)
    ensures Shape(SumAddAssign(e, x).value) == Shape(e)
    ensures Summands(SumAddAssign(e, x).value) == Summands(e.lhs) + Summands(x) + Summands(e.rhs)
  {
    var t := SumExpr(x, e.rhs, {});
    assert MakeSum(x, e.rhs) == Ok(t);
    var r := SumAddAssign(e, x).value;
    assert r == SumExpr(e.lhs, t, e.trace);
    assert WellFormed(t) && Shape(t) == Shape(e.rhs);
    assert Summands(t) == Summands(x) + Summands(e.rhs);
    assert Summands(r) == Summands(e.lhs) + Summands(t);
  }

  /** The tree with every trace domain replaced by `attrs`: traceOf sets the
      node's own trace domain and calls traceOf on both operands. */
  function TraceOf(e: Expr, attrs: set<int>): Expr
  {
    match e
    case Leaf(s, _) => Leaf(s, attrs)
    case MultExpr(l, r, _) => MultExpr(TraceOf(l, attrs), TraceOf(r, attrs), attrs)
    case SumExpr(l, r, _) => SumExpr(TraceOf(l, attrs), TraceOf(r, attrs), attrs)
  }

  /** Every node of `e` has trace domain `attrs`. */
  predicate AllTraced(e: Expr, attrs: set<int>)
  {
    e.trace == attrs &&
    match e
    case Leaf(_, _) => true
    case MultExpr(l, r, _) => AllTraced(l, attrs) && AllTraced(r, attrs)
    case SumExpr(l, r, _) => AllTraced(l, attrs) && AllTraced(r, attrs)
  }

  /** The tree with its trace domains forgotten: everything but the traces. */
  function Untraced(e: Expr): Expr
  {
    TraceOf(e, {})
  }

  /** traceOf reaches every node, changes nothing but trace domains, and so
      keeps shapes and well-formedness; tracing twice keeps the last set. */
  lemma {:induction false} TraceOfProperties(e: Expr, attrs: set<int>, other: set<int>)
    ensures AllTraced(TraceOf(e, attrs), attrs)
    ensures Untraced(TraceOf(e, attrs)) == Untraced(e)
    ensures Shape(TraceOf(e, attrs)) == Shape(e)
    ensures WellFormed(TraceOf(e, attrs)) == WellFormed(e)
    ensures TraceOf(TraceOf(e, other), attrs) == TraceOf(e, attrs)
  {
    match e
    case Leaf(_, _) =>
    case MultExpr(l, r, _) =>
      TraceOfProperties(l, attrs, other);
      TraceOfProperties(r, attrs, other);
      TraceOfProperties(l, {}, attrs);
      TraceOfProperties(r, {}, attrs);
    case SumExpr(l, r, _) =>
      TraceOfProperties(l, attrs, other);
      TraceOfProperties(r, attrs, other);
      TraceOfProperties(l, {}, attrs);
      TraceOfProperties(r, {}, attrs);
  }

  /** A function object whose expression tree the operators update in place. */
  class FunctionObject {
    var expr: Expr

    constructor (e: Expr)
      ensures expr == e
    {
      expr := e;
    }

    /** traceOf(attrs) on a product or a sum: self and both operands. */
    method TraceOfAttrs(attrs: set<int>) returns (self: FunctionObject)
      modifies this
      ensures expr == TraceOf(old(expr), attrs)
      ensures self == this
    {
      expr := TraceOf(expr, attrs);
      self := this;
    }

    /** Sum's `+=`: raises (returns false, leaving the object alone) when the
        new term has the wrong shape. */
    method AddAssign(x: Expr) returns (ok: bool)
      requires expr.SumExpr? && WellFormed(expr) && WellFormed(x)
      modifies this
      ensures ok <==> Shape(x) == Shape(old(expr).rhs)
      ensures ok ==> expr == SumAddAssign(old(expr), x).value
      ensures !ok ==> expr == old(expr)
    {
      var r := SumAddAssign(expr, x);
      ok := r.Ok?;
      if ok {
        expr := r.value;
      }
    }
  }

  /** The value of a product at a point, from the values of its operands
      there: the non-scalar (or right) operand's value scaled by the scalar
      operand's (0, 0) entry. */
  function MultValue(lhs: Expr, lhsValue: Dense.Matrix, rhs: Expr, rhsValue: Dense.Matrix): Dense.Matrix
    requires |lhsValue| > 0 && |lhsValue[0]| > 0 && |rhsValue| > 0 && |rhsValue[0]| > 0
  {
    if IsScalar(lhs) then Dense.Scaled(rhsValue, lhsValue[0][0])
    else Dense.Scaled(lhsValue, rhsValue[0][0])
  }

  /** The operand values have the shapes of the operands. */
  predicate ValuesFit(lhs: Expr, lhsValue: Dense.Matrix, rhs: Expr, rhsValue: Dense.Matrix)
  {
    Valid(Shape(lhs)) && Valid(Shape(rhs))
    && Dense.IsMatrix(lhsValue, Shape(lhs).height, Shape(lhs).width)
    && Dense.IsMatrix(rhsValue, Shape(rhs).height, Shape(rhs).width)
  }

  /** The product's value has the product's shape, and it does not depend on
      the order of the operands. */
  lemma MultValueCommutes(lhs: Expr, lhsValue: Dense.Matrix, rhs: Expr, rhsValue: Dense.Matrix)
    requires WellFormed(lhs) && WellFormed(rhs) && MakeMult(lhs, rhs).Ok?
    requires ValuesFit(lhs, lhsValue, rhs, rhsValue)
    ensures Dense.IsMatrix(MultValue(lhs, lhsValue, rhs, rhsValue),
                           Shape(MultExpr(lhs, rhs, {})).height, Shape(MultExpr(lhs, rhs, {})).width)
    ensures MultValue(lhs, lhsValue, rhs, rhsValue) == MultValue(rhs, rhsValue, lhs, lhsValue)
  {
    if IsScalar(lhs) && IsScalar(rhs) {
      var a := MultValue(lhs, lhsValue, rhs, rhsValue);
      var b := MultValue(rhs, rhsValue, lhs, lhsValue);
      assert |a| == 1 && |b| == 1 && |a[0]| == 1 && |b[0]| == 1;
      assert a[0][0] == b[0][0];
      assert a[0] == b[0];
    }
  }

  /** Row i of `value` multiplied by s in place. */
  method ScaleRow(value: array2<real>, i: nat, s: real)
    requires i < value.Length0
    modifies value
    ensures forall a, b :: 0 <= a < value.Length0 && 0 <= b < value.Length1 ==>
      value[a, b] == (if a == i then old(value[a, b]) * s else old(value[a, b]))
  {
    var j := 0;
    while j < value.Length1
      invariant 0 <= j <= value.Length1
      invariant forall a, b :: 0 <= a < value.Length0 && 0 <= b < value.Length1 ==>
        value[a, b] == (if a == i && b < j then old(value[a, b]) * s else old(value[a, b]))
    {
      value[i, j] := value[i, j] * s;
      j := j + 1;
    }
  }

  /** getValue of a product: the non-scalar operand writes its value into
      `value`, which is then scaled in place by the scalar operand's value. */
  method MultGetValue(lhs: Expr, lhsValue: Dense.Matrix, rhs: Expr, rhsValue: Dense.Matrix)
    returns (value: array2<real>)
    requires WellFormed(lhs) && WellFormed(rhs) && (IsScalar(lhs) || IsScalar(rhs))
    requires ValuesFit(lhs, lhsValue, rhs, rhsValue)
    ensures value.Length0 == Shape(MultExpr(lhs, rhs, {})).height
    ensures value.Length1 == Shape(MultExpr(lhs, rhs, {})).width
    ensures forall i, j :: 0 <= i < value.Length0 && 0 <= j < value.Length1 ==>
      value[i, j] == MultValue(lhs, lhsValue, rhs, rhsValue)[i][j]
  {
    var s: real;
    var other: Dense.Matrix;
    if IsScalar(lhs) {
      s := lhsValue[0][0];
      other := rhsValue;
    } else {
      s := rhsValue[0][0];
      other := lhsValue;
    }
    var h := Shape(MultExpr(lhs, rhs, {})).height;
    var w := Shape(MultExpr(lhs, rhs, {})).width;
    assert Dense.IsMatrix(other, h, w);
    value := new real[h, w]((i, j) requires 0 <= i < h && 0 <= j < w => other[i][j]);
    var i := 0;
    while i < h
      invariant 0 <= i <= h
      invariant forall a, b :: 0 <= a < h && 0 <= b < w ==>
        value[a, b] == (if a < i then s * other[a][b] else other[a][b])
    {
      ScaleRow(value, i, s);
      i := i + 1;
    }
  }

  /** bfi + bfi: a new list holding clones of both, left first. */
  method PlusIntegrators<T>(lhs: T, rhs: T) returns (res: FormList.List<T>)
    ensures fresh(res) && res.items == [lhs, rhs]
  {
    res := new FormList.List();
    res.Add(lhs);
    res.Add(rhs);
  }

  /** bfi + list: a copy of the list with the integrator added at the END. */
  method PlusIntegratorList<T>(lhs: T, rhs: FormList.List<T>) returns (res: FormList.List<T>)
    ensures fresh(res) && res.items == rhs.items + [lhs]
  {
    res := new FormList.List.Copy(rhs);
    res.Add(lhs);
  }

  /** list + bfi: a copy of the list with the integrator appended. */
  method PlusListIntegrator<T>(lhs: FormList.List<T>, rhs: T) returns (res: FormList.List<T>)
    ensures fresh(res) && res.items == lhs.items + [rhs]
  {
    res := new FormList.List.Copy(lhs);
    res.Add(rhs);
  }

  /** list + list: a copy of the left list followed by clones of the right
      list's elements, one add at a time. */
  method PlusLists<T>(lhs: FormList.List<T>, rhs: FormList.List<T>) returns (res: FormList.List<T>)
    ensures fresh(res) && res.items == lhs.items + rhs.items
    ensures |res.items| == |lhs.items| + |rhs.items|
  {
    res := new FormList.List.Copy(lhs);
    var i := 0;
    while i < |rhs.items|
      invariant 0 <= i <= |rhs.items|
      invariant res.items == lhs.items + rhs.items[..i]
    {
      res.Add(rhs.items[i]);
      i := i + 1;
      assert rhs.items[..i] == rhs.items[..i - 1] + [rhs.items[i - 1]];
    }
    assert rhs.items[..|rhs.items|] == rhs.items;
  }
}
