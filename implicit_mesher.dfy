/** The parameters of MMG's level-set discretisation: the level, the removal
    of small parasitic components, the reference of the new boundary and
    how each material is split into an interior and an exterior part. */
module ImplicitMeshers {
  import opened Wrappers

  /** How one material reference is treated by the splitting. */
  datatype SplitRule = NoSplit | Split(interior: int, exterior: int)

  /** The split map with the rule for ref set (or overwritten). */
  function WithRule(m: map<int, SplitRule>, ref: int, s: SplitRule): (r: map<int, SplitRule>)
    ensures r.Keys == m.Keys + {ref}
    ensures r[ref] == s
    ensures forall k :: k in m && k != ref ==> r[k] == m[k]
  {
    m[ref := s]
  }

  /** Setting a rule twice keeps only the second one. */
  lemma {:induction false} WithRuleOverwrites(m: map<int, SplitRule>, ref: int, a: SplitRule, b: SplitRule)
    ensures WithRule(WithRule(m, ref, a), ref, b) == WithRule(m, ref, b)
  {
    var l, r := WithRule(WithRule(m, ref, a), ref, b), WithRule(m, ref, b);
    assert l.Keys == r.Keys;
    forall k | k in l ensures l[k] == r[k] {
      if k != ref {
        assert l[k] == WithRule(m, ref, a)[k];
      }
    }
  }

  /** Rules for different references can be set in either order. */
  lemma {:induction false} WithRuleCommutes(m: map<int, SplitRule>, r1: int, s1: SplitRule, r2: int, s2: SplitRule)
    requires r1 != r2
    ensures WithRule(WithRule(m, r1, s1), r2, s2) == WithRule(WithRule(m, r2, s2), r1, s1)
  {
    var l, r := WithRule(WithRule(m, r1, s1), r2, s2), WithRule(WithRule(m, r2, s2), r1, s1);
    assert l.Keys == r.Keys;
    forall k | k in l ensures l[k] == r[k] {
      if k != r1 && k != r2 {
        assert l[k] == WithRule(m, r1, s1)[k] == m[k];
        assert r[k] == WithRule(m, r2, s2)[k] == m[k];
      } else if k == r1 {
        assert l[k] == WithRule(m, r1, s1)[k];
      } else {
        assert r[k] == WithRule(m, r2, s2)[k];
      }
    }
  }

  /** ImplicitDomainMesher's settings. Each setter returns the mesher
      itself so that calls can be chained. */
  class ImplicitDomainMesher {
    var ls: real
    var split: map<int, SplitRule>
    var meshTheSurface: bool
    var rmc: Option<real>
    var isoref: Option<int>

    /** The defaults: level 0, a volume discretisation, no removal of
        parasitic components, no boundary reference and no split rules. */
    constructor ()
      ensures ls == 0.0 && split == map[] && !meshTheSurface && rmc == None && isoref == None
    {
      ls, split, meshTheSurface, rmc, isoref := 0.0, map[], false, None, None;
    }

    /** setLevelSet. */
    method SetLevelSet(value: real) returns (self: ImplicitDomainMesher)
      modifies this
      ensures self == this && ls == value
      ensures split == old(split) && meshTheSurface == old(meshTheSurface) && rmc == old(rmc) && isoref == old(isoref)
    {
      ls := value;
      self := this;
    }

    /** setRMC. */
    method SetRMC(value: real) returns (self: ImplicitDomainMesher)
      modifies this
      ensures self == this && rmc == Some(value)
      ensures ls == old(ls) && split == old(split) && meshTheSurface == old(meshTheSurface) && isoref == old(isoref)
    {
      rmc := Some(value);
      self := this;
    }

    /** setBoundaryReference. */
    method SetBoundaryReference(ref: int) returns (self: ImplicitDomainMesher)
      modifies this
      ensures self == this && isoref == Some(ref)
      ensures ls == old(ls) && split == old(split) && meshTheSurface == old(meshTheSurface) && rmc == old(rmc)
    {
      isoref := Some(ref);
      self := this;
    }

    /** split(ref, s): sets or overwrites the rule of ref. */
    method SplitReference(ref: int, interior: int, exterior: int) returns (self: ImplicitDomainMesher)
      modifies this
      ensures self == this && split == WithRule(old(split), ref, Split(interior, exterior))
      ensures ls == old(ls) && meshTheSurface == old(meshTheSurface) && rmc == old(rmc) && isoref == old(isoref)
    {
      split := split[ref := Split(interior, exterior)];
      self := this;
    }

    /** noSplit(ref): ref keeps its material. */
    method NoSplitReference(ref: int) returns (self: ImplicitDomainMesher)
      modifies this
      ensures self == this && split == WithRule(old(split), ref, NoSplit)
      ensures ls == old(ls) && meshTheSurface == old(meshTheSurface) && rmc == old(rmc) && isoref == old(isoref)
    {
      split := split[ref := NoSplit];
      self := this;
    }

    /** setSplit: a non-empty map replaces all rules. */
    method SetSplit(m: map<int, SplitRule>) returns (self: ImplicitDomainMesher)
      requires |m| > 0
      modifies this
      ensures self == this && split == m
      ensures ls == old(ls) && meshTheSurface == old(meshTheSurface) && rmc == old(rmc) && isoref == old(isoref)
    {
      split := m;
      self := this;
    }
  }
}
