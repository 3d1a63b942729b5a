/** Integrators: the attribute filter they carry, the region they integrate
    over and the integration-order strategies of the integral classes. */
module Integrators {

  datatype Region = Domain | Boundary | Interface

  datatype IntegratorType = Bilinear | Linear

  /** What an order strategy reads from a finite element. */
  datatype FiniteElementInfo = FiniteElementInfo(order: int, isPk: bool, dim: int)

  /** What an order strategy reads at one element: the trial and test finite
      elements and the order of the element transformation's weight. */
  datatype ElementContext = ElementContext(trial: FiniteElementInfo, test: FiniteElementInfo, orderW: int)

  /** The integral of a dot product integrates the product of the trial and
      test shape functions together with the transformation weight. */
  function DefaultBilinearOrder(c: ElementContext): (r: int)
    ensures r - c.orderW == c.trial.order + c.test.order
  {
    c.trial.order + c.test.order + c.orderW
  }

  /** The order strategy installed by the Grad-Grad integral. */
  function GradGradOrder(c: ElementContext): (r: int)
    ensures c.trial.isPk ==> r == c.trial.order + c.test.order - 2
    ensures !c.trial.isPk ==> r == c.trial.order + c.test.order + c.trial.dim - 1
  {
    if c.trial.isPk then c.trial.order + c.test.order - 2
    else c.trial.order + c.test.order + c.trial.dim - 1
  }

  /** On Pk spaces of equal order p, the product of two gradients (each of
      degree p - 1) has degree 2p - 2, which is what the Grad-Grad strategy
      asks for, whereas the default strategy asks for 2 + orderW more. */
  lemma GradGradPkIsGradientDegree(c: ElementContext, p: int)
    requires c.trial.isPk && c.trial.order == p && c.test.order == p
    ensures GradGradOrder(c) == 2 * (p - 1)
    ensures DefaultBilinearOrder(c) - GradGradOrder(c) == 2 + c.orderW
  {
  }

  /** The default order of a linear integral: the test element's order plus
      the weight's order. */
  function DefaultLinearOrder(c: ElementContext): (r: int)
    ensures r - c.orderW == c.test.order
  {
    c.test.order + c.orderW
  }

  /** The order of the integral of Dot(f, v): twice the test element's order,
      with no weight term. */
  function DotLinearOrder(c: ElementContext): (r: int)
    ensures r == 2 * c.test.order
    ensures r == DefaultLinearOrder(c) + c.test.order - c.orderW
  {
    2 * c.test.order
  }

  /** With device assembly the Dot(f, v) order is twice the order of the first
      finite element of the test space, whatever the element. */
  function DotDeviceOrder(firstElementOrder: int): (r: int)
    ensures r % 2 == 0 && r / 2 == firstElementOrder
  {
    2 * firstElementOrder
  }

  /** An element with attribute `attr` is integrated by an integrator with
      attribute set `attrs` when the set is empty (meaning every attribute)
      or contains `attr`. */
  predicate AttributeMatches(attrs: set<int>, attr: int)
  {
    |attrs| == 0 || attr in attrs
  }

  lemma AttributeMatchesEmpty(attr: int)
    ensures AttributeMatches({}, attr)
  {
  }

  /** A bilinear integral (of the dot product of a trial and a test operator)
      over the domain, the boundary or the interface. */
  class BilinearIntegral {
    const region: Region
    /** The attributes to integrate over; empty means all of them. */
    var attrs: set<int>
    var intOrder: ElementContext -> int

    /** Integral: domain integration with the default order. */
    constructor Integral()
      ensures region == Domain && attrs == {} && intOrder == DefaultBilinearOrder
    {
      region := Domain;
      attrs := {};
      intOrder := DefaultBilinearOrder;
    }

    /** BoundaryIntegral: the same integrand on boundary faces. */
    constructor BoundaryIntegral()
      ensures region == Boundary && attrs == {} && intOrder == DefaultBilinearOrder
    {
      region := Boundary;
      attrs := {};
      intOrder := DefaultBilinearOrder;
    }

    /** InterfaceIntegral: the same integrand on interior faces. */
    constructor InterfaceIntegral()
      ensures region == Interface && attrs == {} && intOrder == DefaultBilinearOrder
    {
      region := Interface;
      attrs := {};
      intOrder := DefaultBilinearOrder;
    }

    /** The Grad-Grad specialization replaces the order strategy right after
        construction. */
    constructor GradGradIntegral()
      ensures region == Domain && attrs == {} && intOrder == GradGradOrder
    {
      region := Domain;
      attrs := {};
      intOrder := GradGradOrder;
    }

    /** The copy constructor copies region, attributes and order strategy. */
    constructor Copy(other: BilinearIntegral)
      ensures region == other.region && attrs == other.attrs && intOrder == other.intOrder
    {
      region := other.region;
      attrs := other.attrs;
      intOrder := other.intOrder;
    }

    function GetRegion(): (r: Region)
      ensures r == region
    {
      region
    }

    function GetType(): (t: IntegratorType)
      ensures t == Bilinear
    {
      Bilinear
    }

    function GetAttributes(): (s: set<int>)
      reads this
      ensures s == attrs
    {
      attrs
    }

    /** over(attrs): the set must not be empty; it replaces the old one. */
    method Over(newAttrs: set<int>) returns (self: BilinearIntegral)
      requires |newAttrs| > 0
      modifies this
      ensures attrs == newAttrs && intOrder == old(intOrder)
      ensures self == this
    {
      attrs := newAttrs;
      self := this;
    }

    /** over(attr) is over({attr}). */
    method OverAttribute(attr: int) returns (self: BilinearIntegral)
      modifies this
      ensures attrs == {attr} && intOrder == old(intOrder)
      ensures self == this
    {
      self := Over({attr});
    }

    method SetIntegrationOrder(order: ElementContext -> int) returns (self: BilinearIntegral)
      modifies this
      ensures intOrder == order && attrs == old(attrs)
      ensures self == this
    {
      intOrder := order;
      self := this;
    }

    function GetIntegrationOrder(c: ElementContext): (r: int)
      reads this
      ensures r == intOrder(c)
    {
      intOrder(c)
    }
  }

  /** A copy is independent of its original: restricting the copy leaves the
      original's attributes as they were. */
  method CopyThenOver(original: BilinearIntegral, newAttrs: set<int>) returns (c: BilinearIntegral)
    requires |newAttrs| > 0
    ensures c != original && c.attrs == newAttrs
    ensures c.region == original.region && c.intOrder == original.intOrder
  {
    c := new BilinearIntegral.Copy(original);
    var _ := c.Over(newAttrs);
  }

  /** A linear integral (of a test operator) over the domain or the boundary. */
  class LinearIntegral {
    const region: Region
    var attrs: set<int>
    var intOrder: ElementContext -> int

    constructor Integral()
      ensures region == Domain && attrs == {} && intOrder == DefaultLinearOrder
    {
      region := Domain;
      attrs := {};
      intOrder := DefaultLinearOrder;
    }

    constructor BoundaryIntegral()
      ensures region == Boundary && attrs == {} && intOrder == DefaultLinearOrder
    {
      region := Boundary;
      attrs := {};
      intOrder := DefaultLinearOrder;
    }

    /** The Dot(f, v) specialization installs twice the test order. */
    constructor DotIntegral()
      ensures region == Domain && attrs == {} && intOrder == DotLinearOrder
    {
      region := Domain;
      attrs := {};
      intOrder := DotLinearOrder;
    }

    function GetRegion(): (r: Region)
      ensures r == region
    {
      region
    }

    function GetType(): (t: IntegratorType)
      ensures t == Linear
    {
      Linear
    }

    function GetAttributes(): (s: set<int>)
      reads this
      ensures s == attrs
    {
      attrs
    }

    method Over(newAttrs: set<int>) returns (self: LinearIntegral)
      requires |newAttrs| > 0
      modifies this
      ensures attrs == newAttrs && intOrder == old(intOrder)
      ensures self == this
    {
      attrs := newAttrs;
      self := this;
    }

    method SetIntegrationOrder(order: ElementContext -> int) returns (self: LinearIntegral)
      modifies this
      ensures intOrder == order && attrs == old(attrs)
      ensures self == this
    {
      intOrder := order;
      self := this;
    }
  }

  /** What one call of the integral of a grid function asks of its linear
      form the first time and every later time. */
  datatype FormAction = Assemble | Update

  /** Integral of a (scalar) grid function: the linear form is assembled on
      the first computation and updated on every later one. */
  class GridFunctionIntegral {
    var assembled: bool
    /** The assembly calls made so far, in order. */
    var actions: seq<FormAction>

    ghost predicate Valid()
      reads this
    {
      (assembled <==> |actions| > 0)
      && (|actions| > 0 ==> actions[0] == Assemble)
      && (forall i :: 1 <= i < |actions| ==> actions[i] == Update)
    }

    /** The constructor requires a scalar finite-element space. */
    constructor (vectorDimension: nat)
      requires vectorDimension == 1
      ensures Valid() && !assembled && actions == []
    {
      assembled := false;
      actions := [];
    }

    /** compute(): assemble or update, then evaluate the form at the constant
        one; `formAtOne` stands for that evaluation. */
    method Compute(formAtOne: real) returns (v: real)
      requires Valid()
      modifies this
      ensures Valid() && assembled
      ensures actions == old(actions) + [if old(assembled) then Update else Assemble]
      ensures v == formAtOne
    {
      if assembled {
        actions := actions + [Update];
      } else {
        actions := actions + [Assemble];
      }
      assembled := true;
      v := formAtOne;
    }
  }
}
