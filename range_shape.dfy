/** Range shapes of variational functions and the range-type classification
    and proxy dispatch built on them. */
module RangeShapes {

  /** The height and width of the value a function takes at a point. */
  datatype RangeShape = RangeShape(height: nat, width: nat)

  datatype RangeType = Scalar | Vector | Matrix

  /** A shape that the checked constructor can build. */
  predicate Valid(s: RangeShape) { s.height > 0 && s.width > 0 }

  /** The checked constructor: both dimensions must be positive. */
  function MakeShape(height: nat, width: nat): (s: RangeShape)
    requires height > 0 && width > 0
    ensures Valid(s) && s.height == height && s.width == width
  {
    RangeShape(height, width)
  }

  /** Swaps height and width. */
  function Transpose(s: RangeShape): (t: RangeShape)
    ensures t.height == s.width && t.width == s.height
    ensures Valid(s) <==> Valid(t)
  {
    RangeShape(s.width, s.height)
  }

  function Equal(a: RangeShape, b: RangeShape): bool
  {
    a.height == b.height && a.width == b.width
  }

  function NotEqual(a: RangeShape, b: RangeShape): bool
  {
    !Equal(a, b)
  }

  lemma TransposeInvolution(s: RangeShape)
    ensures Transpose(Transpose(s)) == s
  {
  }

  /** Shape equality is exactly datatype equality, and != is its negation. */
  lemma EqualIffSame(a: RangeShape, b: RangeShape)
    ensures Equal(a, b) <==> a == b
    ensures NotEqual(a, b) <==> a != b
  {
  }

  /** 1x1 is Scalar, a column (height above 1, width 1) is Vector, everything
      else, a row 1xn included, is Matrix. */
  function GetRangeType(s: RangeShape): (t: RangeType)
    requires Valid(s)
    ensures t == Scalar <==> s.height == 1 && s.width == 1
    ensures t == Vector <==> s.height > 1 && s.width == 1
    ensures t == Matrix <==> s.width > 1
  {
    if s.height == 1 && s.width == 1 then Scalar
    else if s.height > 1 && s.width == 1 then Vector
    else Matrix
  }

  /** The MFEM-side coefficient a function is wrapped into, with its size. */
  datatype Proxy =
    | ScalarProxy
    | VectorProxy(dim: nat)
    | MatrixProxy(height: nat, width: nat)

  /** The scalar proxy constructor only accepts a Scalar range. */
  function ScalarProxyOf(s: RangeShape): (p: Proxy)
    requires Valid(s) && GetRangeType(s) == Scalar
    ensures p.ScalarProxy?
  {
    ScalarProxy
  }

  /** The vector proxy takes the width of a row and the height otherwise;
      it only accepts a Vector range. */
  function VectorProxyOf(s: RangeShape): (p: Proxy)
    requires Valid(s) && GetRangeType(s) == Vector
    ensures p.VectorProxy? && p.dim == s.height
  {
    VectorProxy(if s.height == 1 then s.width else s.height)
  }

  function MatrixProxyOf(s: RangeShape): (p: Proxy)
    requires Valid(s) && GetRangeType(s) == Matrix
    ensures p == MatrixProxy(s.height, s.width)
  {
    MatrixProxy(s.height, s.width)
  }

  /** Dispatch on the range type. */
  function Build(s: RangeShape): (p: Proxy)
    requires Valid(s)
    ensures p.ScalarProxy? <==> GetRangeType(s) == Scalar
    ensures p.VectorProxy? <==> GetRangeType(s) == Vector
    ensures p.MatrixProxy? <==> GetRangeType(s) == Matrix
  {
    match GetRangeType(s)
    case Scalar => ScalarProxyOf(s)
    case Vector => VectorProxyOf(s)
    case Matrix => MatrixProxyOf(s)
  }

  /** The proxy's size always accounts for every entry of the value. */
  lemma BuildSize(s: RangeShape)
    requires Valid(s)
    ensures match Build(s)
      case ScalarProxy => s.height * s.width == 1
      case VectorProxy(d) => d == s.height * s.width
      case MatrixProxy(h, w) => h * w == s.height * s.width
  {
  }

  /** Transposing a column turns a Vector into a Matrix (a row), while Scalar
      and Matrix of at least two rows keep their type. */
  lemma TransposeRangeType(s: RangeShape)
    requires Valid(s)
    ensures GetRangeType(s) == Scalar ==> GetRangeType(Transpose(s)) == Scalar
    ensures GetRangeType(s) == Vector ==> GetRangeType(Transpose(s)) == Matrix
    ensures GetRangeType(Transpose(s)) == Vector ==> GetRangeType(s) == Matrix
  {
  }
}
