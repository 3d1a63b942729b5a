/** The empty attribute set of an integrator means "every attribute". An
    integrator with an empty set is assembled as if it had been restricted
    with over({a}) once for each attribute a the mesh carries, and the
    restricted assemblies had been added together. Restricting an
    integrator to {a} keeps exactly the contributions of the simplices of
    attribute a. */
module AttributeUnion {
  import opened Dense
  import opened Scatter
  import opened Integrators
  import opened Assembly

  /** No integrator of the list has been restricted with over(). */
  predicate AppliesEverywhere(bs: seq<IntegratorView>)
  {
    forall b :: b in bs ==> b.attrs == {}
  }

  /** The attributes listed, each once: a finite set in a fixed order. */
  predicate Distinct(attrs: seq<int>)
  {
    forall p, q :: 0 <= p < q < |attrs| ==> attrs[p] != attrs[q]
  }

  /** Every integrator of the list restricted with over({a}). */
  function OverAll(bs: seq<IntegratorView>, a: int): (out: seq<IntegratorView>)
    ensures |out| == |bs|
    ensures forall k :: 0 <= k < |bs| ==> out[k] == bs[k].(attrs := {a})
  {
    if bs == [] then [] else OverAll(bs[..|bs| - 1], a) + [bs[|bs| - 1].(attrs := {a})]
  }

  /** The simplices of ss whose attribute is a, in their order. */
  function WithAttribute(ss: seq<Simplex>, a: int): seq<Simplex>
  {
    if ss == [] then []
    else WithAttribute(ss[..|ss| - 1], a) + (if ss[|ss| - 1].attr == a then [ss[|ss| - 1]] else [])
  }

  lemma {:induction false} WithAttributeMembers(ss: seq<Simplex>, a: int)
    ensures forall s :: s in WithAttribute(ss, a) <==> s in ss && s.attr == a
  {
    if ss != [] {
      WithAttributeMembers(ss[..|ss| - 1], a);
      assert forall s :: s in ss <==> s in ss[..|ss| - 1] || s == ss[|ss| - 1];
    }
  }

  lemma {:induction false} WithAttributeSnoc(ss: seq<Simplex>, s: Simplex, a: int)
    ensures WithAttribute(ss + [s], a) == WithAttribute(ss, a) + (if s.attr == a then [s] else [])
  {
    assert (ss + [s])[..|ss + [s]| - 1] == ss;
  }

  /** Restricting commutes with sorting the integrators by region. */
  lemma {:induction false} OfRegionOverAll(bs: seq<IntegratorView>, a: int, r: Region)
    ensures OfRegion(OverAll(bs, a), r) == OverAll(OfRegion(bs, r), a)
  {
    if bs != [] {
      var init, last := bs[..|bs| - 1], bs[|bs| - 1];
      OfRegionOverAll(init, a, r);
      var o := OverAll(bs, a);
      assert o[..|o| - 1] == OverAll(init, a);
      var kept := OfRegion(init, r);
      if last.region == r {
        assert (kept + [last])[..|kept + [last]| - 1] == kept;
      } else {
        assert OfRegion(bs, r) == kept;
      }
    }
  }

  // ----- bilinear forms -----

  /** The same bilinear problem with every integrator restricted to {a}.
      What an integrator computes on a simplex does not depend on its
      attribute set, so a restricted copy computes what its original does. */
  function RestrictedTo(inp: BilinearInput, a: int): BilinearInput
  {
    inp.(bfis := OverAll(inp.bfis, a),
         localMatrix := (b: IntegratorView, s: Simplex) => inp.localMatrix(b.(attrs := {}), s))
  }

  lemma RestrictedValid(inp: BilinearInput, a: int)
    requires ValidBilinearInput(inp) && AppliesEverywhere(inp.bfis)
    ensures ValidBilinearInput(RestrictedTo(inp, a))
  {
    var r := RestrictedTo(inp, a);
    forall s | SimplexFits(inp, s) ensures SimplexFits(r, s) {
      forall b' | b' in r.bfis
        ensures IsMatrix(r.localMatrix(b', s), |r.testDofs(s)|, |r.trialDofs(s)|)
      {
        var k :| 0 <= k < |inp.bfis| && r.bfis[k] == b';
        assert inp.bfis[k] in inp.bfis;
        assert b'.(attrs := {}) == inp.bfis[k];
      }
    }
  }

  /** On one simplex, the restricted integrators add what the originals add
      when the simplex has attribute a, and nothing otherwise. */
  lemma {:induction false} BlocksAtRestricted(inp: BilinearInput, s: Simplex, bs: seq<IntegratorView>, a: int)
    requires AppliesEverywhere(bs)
    ensures BlocksAt(RestrictedTo(inp, a), s, OverAll(bs, a)) == if s.attr == a then BlocksAt(inp, s, bs) else []
  {
    if bs != [] {
      var init, last := bs[..|bs| - 1], bs[|bs| - 1];
      assert last in bs;
      assert forall b :: b in init ==> b in bs;
      BlocksAtRestricted(inp, s, init, a);
      var o := OverAll(bs, a);
      assert o[..|o| - 1] == OverAll(init, a);
      assert last.(attrs := {a}).(attrs := {}) == last;
    }
  }

  /** Over a region, the restricted integrators add exactly the blocks of
      the simplices of attribute a. */
  lemma {:induction false} BlocksOverRestricted(inp: BilinearInput, ss: seq<Simplex>, bs: seq<IntegratorView>, a: int)
    requires AppliesEverywhere(bs)
    ensures BlocksOver(RestrictedTo(inp, a), ss, OverAll(bs, a)) == BlocksOver(inp, WithAttribute(ss, a), bs)
  {
    if ss != [] {
      var r, o := RestrictedTo(inp, a), OverAll(bs, a);
      var init, last := ss[..|ss| - 1], ss[|ss| - 1];
      var w := WithAttribute(init, a);
      var tail := if last.attr == a then BlocksAt(inp, last, bs) else [];
      calc {
        BlocksOver(r, ss, o);
        BlocksOver(r, init, o) + BlocksAt(r, last, o);
        { BlocksOverRestricted(inp, init, bs, a); BlocksAtRestricted(inp, last, bs, a); }
        BlocksOver(inp, w, bs) + tail;
        { BlocksOverSnoc(inp, w, last, bs, a); }
        BlocksOver(inp, w + (if last.attr == a then [last] else []), bs);
        { WithAttributeSnoc(init, last, a); assert init + [last] == ss; }
        BlocksOver(inp, WithAttribute(ss, a), bs);
      }
    }
  }

  lemma BlocksOverSnoc(inp: BilinearInput, w: seq<Simplex>, s: Simplex, bs: seq<IntegratorView>, a: int)
    ensures BlocksOver(inp, w + (if s.attr == a then [s] else []), bs)
      == BlocksOver(inp, w, bs) + (if s.attr == a then BlocksAt(inp, s, bs) else [])
  {
    if s.attr == a {
      assert (w + [s])[..|w + [s]| - 1] == w;
    } else {
      assert w + [] == w;
    }
  }

  lemma {:induction false} WithAttributeFits(inp: BilinearInput, ss: seq<Simplex>, a: int)
    requires forall k :: 0 <= k < |ss| ==> SimplexFits(inp, ss[k])
    ensures forall k :: 0 <= k < |WithAttribute(ss, a)| ==> SimplexFits(inp, WithAttribute(ss, a)[k])
  {
    WithAttributeMembers(ss, a);
    forall k | 0 <= k < |WithAttribute(ss, a)| ensures SimplexFits(inp, WithAttribute(ss, a)[k]) {
      var s := WithAttribute(ss, a)[k];
      assert s in WithAttribute(ss, a);
      var m :| 0 <= m < |ss| && ss[m] == s;
    }
  }

  /** What the blocks of the simplices of attribute a add to entry (i, j). */
  function AttributeShare(inp: BilinearInput, ss: seq<Simplex>, bs: seq<IntegratorView>, a: int, i: nat, j: nat): real
    requires forall k :: 0 <= k < |ss| ==> SimplexFits(inp, ss[k])
    requires forall b :: b in bs ==> b in inp.bfis
  {
    WithAttributeFits(inp, ss, a);
    BlocksOverFit(inp, WithAttribute(ss, a), bs);
    SharesOf(BlocksOver(inp, WithAttribute(ss, a), bs), inp.testSize, inp.trialSize, i, j)
  }

  /** One more simplex adds its blocks' share to the term of its own
      attribute. */
  lemma {:induction false} AttributeShareSnoc(inp: BilinearInput, ss: seq<Simplex>, s: Simplex, bs: seq<IntegratorView>,
                                              a: int, i: nat, j: nat)
    requires forall k :: 0 <= k < |ss + [s]| ==> SimplexFits(inp, (ss + [s])[k])
    requires forall b :: b in bs ==> b in inp.bfis
    ensures forall k :: 0 <= k < |ss| ==> SimplexFits(inp, ss[k])
    ensures SimplexFits(inp, s)
    ensures AllFit(BlocksAt(inp, s, bs), inp.testSize, inp.trialSize)
    ensures AttributeShare(inp, ss + [s], bs, a, i, j) == AttributeShare(inp, ss, bs, a, i, j)
      + (if s.attr == a then SharesOf(BlocksAt(inp, s, bs), inp.testSize, inp.trialSize, i, j) else 0.0)
  {
    assert forall k :: 0 <= k < |ss| ==> ss[k] == (ss + [s])[k];
    assert s == (ss + [s])[|ss|];
    BlocksAtFit(inp, s, bs);
    WithAttributeSnoc(ss, s, a);
    var w := WithAttribute(ss, a);
    WithAttributeFits(inp, ss, a);
    BlocksOverFit(inp, w, bs);
    if s.attr == a {
      assert (w + [s])[..|w + [s]| - 1] == w;
      assert BlocksOver(inp, w + [s], bs) == BlocksOver(inp, w, bs) + BlocksAt(inp, s, bs);
      SharesOfConcat(BlocksOver(inp, w, bs), BlocksAt(inp, s, bs), inp.testSize, inp.trialSize, i, j);
    } else {
      assert WithAttribute(ss + [s], a) == w;
    }
  }

  /** What the blocks of the simplices of each listed attribute add to entry
      (i, j), summed over the attributes. */
  function RegionShares(inp: BilinearInput, ss: seq<Simplex>, bs: seq<IntegratorView>, attrs: seq<int>, i: nat, j: nat): real
    requires forall k :: 0 <= k < |ss| ==> SimplexFits(inp, ss[k])
    requires forall b :: b in bs ==> b in inp.bfis
  {
    if attrs == [] then 0.0
    else RegionShares(inp, ss, bs, attrs[..|attrs| - 1], i, j) + AttributeShare(inp, ss, bs, attrs[|attrs| - 1], i, j)
  }

  lemma {:induction false} RegionSharesEmpty(inp: BilinearInput, bs: seq<IntegratorView>, attrs: seq<int>, i: nat, j: nat)
    requires forall b :: b in bs ==> b in inp.bfis
    ensures RegionShares(inp, [], bs, attrs, i, j) == 0.0
  {
    if attrs != [] {
      RegionSharesEmpty(inp, bs, attrs[..|attrs| - 1], i, j);
    }
  }

  /** One more simplex adds its blocks' share to the term of its own
      attribute, and to no other. */
  lemma {:induction false} RegionSharesSnoc(inp: BilinearInput, ss: seq<Simplex>, s: Simplex, bs: seq<IntegratorView>,
                                            attrs: seq<int>, i: nat, j: nat)
    requires forall k :: 0 <= k < |ss + [s]| ==> SimplexFits(inp, (ss + [s])[k])
    requires forall b :: b in bs ==> b in inp.bfis
    requires Distinct(attrs)
    ensures forall k :: 0 <= k < |ss| ==> SimplexFits(inp, ss[k])
    ensures AllFit(BlocksAt(inp, s, bs), inp.testSize, inp.trialSize)
    ensures RegionShares(inp, ss + [s], bs, attrs, i, j) == RegionShares(inp, ss, bs, attrs, i, j)
      + (if s.attr in attrs then SharesOf(BlocksAt(inp, s, bs), inp.testSize, inp.trialSize, i, j) else 0.0)
  {
    AttributeShareSnoc(inp, ss, s, bs, 0, i, j);
    if attrs != [] {
      var init, a := attrs[..|attrs| - 1], attrs[|attrs| - 1];
      RegionSharesSnoc(inp, ss, s, bs, init, i, j);
      AttributeShareSnoc(inp, ss, s, bs, a, i, j);
      assert s.attr in attrs <==> s.attr in init || s.attr == a;
      assert s.attr == a ==> s.attr !in init;
    }
  }

  /** Summing over a list of distinct attributes that holds every simplex's
      attribute gives what all the simplices add. */
  lemma {:induction false} RegionSharesTotal(inp: BilinearInput, ss: seq<Simplex>, bs: seq<IntegratorView>,
                                             attrs: seq<int>, i: nat, j: nat)
    requires forall k :: 0 <= k < |ss| ==> SimplexFits(inp, ss[k])
    requires forall b :: b in bs ==> b in inp.bfis
    requires Distinct(attrs)
    requires forall k :: 0 <= k < |ss| ==> ss[k].attr in attrs
    ensures AllFit(BlocksOver(inp, ss, bs), inp.testSize, inp.trialSize)
    ensures SharesOf(BlocksOver(inp, ss, bs), inp.testSize, inp.trialSize, i, j) == RegionShares(inp, ss, bs, attrs, i, j)
  {
    BlocksOverFit(inp, ss, bs);
    if ss == [] {
      RegionSharesEmpty(inp, bs, attrs, i, j);
    } else {
      var init, s := ss[..|ss| - 1], ss[|ss| - 1];
      RegionSharesTotal(inp, init, bs, attrs, i, j);
      assert init + [s] == ss;
      RegionSharesSnoc(inp, init, s, bs, attrs, i, j);
      BlocksOverFit(inp, init, bs);
      SharesOfConcat(BlocksOver(inp, init, bs), BlocksAt(inp, s, bs), inp.testSize, inp.trialSize, i, j);
    }
  }

  /** Entry (i, j) of the restricted assembly is what the three region loops
      add there from the simplices of attribute a. */
  lemma RestrictedEntry(inp: BilinearInput, a: int, i: nat, j: nat)
    requires ValidBilinearInput(inp) && AppliesEverywhere(inp.bfis)
    requires i < inp.testSize && j < inp.trialSize
    ensures ValidBilinearInput(RestrictedTo(inp, a))
    ensures forall b :: b in OfRegion(inp.bfis, Domain) ==> b in inp.bfis
    ensures forall b :: b in OfRegion(inp.bfis, Boundary) ==> b in inp.bfis
    ensures forall b :: b in OfRegion(inp.bfis, Interface) ==> b in inp.bfis
    ensures Assembled(RestrictedTo(inp, a))[i][j] ==
      RegionShares(inp, inp.elements, OfRegion(inp.bfis, Domain), [a], i, j)
      + RegionShares(inp, inp.boundary, OfRegion(inp.bfis, Boundary), [a], i, j)
      + RegionShares(inp, inp.interface, OfRegion(inp.bfis, Interface), [a], i, j)
  {
    var R, C := inp.testSize, inp.trialSize;
    RestrictedValid(inp, a);
    var r := RestrictedTo(inp, a);
    AssembledEntry(r, i, j);
    OfRegionMembers(inp.bfis, Domain);
    OfRegionMembers(inp.bfis, Boundary);
    OfRegionMembers(inp.bfis, Interface);
    var D, B, I := OfRegion(inp.bfis, Domain), OfRegion(inp.bfis, Boundary), OfRegion(inp.bfis, Interface);
    OfRegionOverAll(inp.bfis, a, Domain);
    OfRegionOverAll(inp.bfis, a, Boundary);
    OfRegionOverAll(inp.bfis, a, Interface);
    BlocksOverRestricted(inp, inp.elements, D, a);
    BlocksOverRestricted(inp, inp.boundary, B, a);
    BlocksOverRestricted(inp, inp.interface, I, a);
    var d := BlocksOver(inp, WithAttribute(inp.elements, a), D);
    var b := BlocksOver(inp, WithAttribute(inp.boundary, a), B);
    var f := BlocksOver(inp, WithAttribute(inp.interface, a), I);
    assert AllBlocks(r) == d + b + f;
    WithAttributeFits(inp, inp.elements, a);
    WithAttributeFits(inp, inp.boundary, a);
    WithAttributeFits(inp, inp.interface, a);
    BlocksOverFit(inp, WithAttribute(inp.elements, a), D);
    BlocksOverFit(inp, WithAttribute(inp.boundary, a), B);
    BlocksOverFit(inp, WithAttribute(inp.interface, a), I);
    SharesOfConcat(d, b, R, C, i, j);
    SharesOfConcat(d + b, f, R, C, i, j);
    assert [a][..0] == [];
  }

  /** Entry (i, j) of the restricted assemblies, added over the attributes. */
  function RestrictedSum(inp: BilinearInput, attrs: seq<int>, i: nat, j: nat): real
    requires ValidBilinearInput(inp) && AppliesEverywhere(inp.bfis)
    requires i < inp.testSize && j < inp.trialSize
  {
    if attrs == [] then 0.0
    else
      RestrictedValid(inp, attrs[|attrs| - 1]);
      RestrictedSum(inp, attrs[..|attrs| - 1], i, j) + Assembled(RestrictedTo(inp, attrs[|attrs| - 1]))[i][j]
  }

  lemma {:induction false} RestrictedSumRegions(inp: BilinearInput, attrs: seq<int>, i: nat, j: nat)
    requires ValidBilinearInput(inp) && AppliesEverywhere(inp.bfis)
    requires i < inp.testSize && j < inp.trialSize
    ensures forall b :: b in OfRegion(inp.bfis, Domain) ==> b in inp.bfis
    ensures forall b :: b in OfRegion(inp.bfis, Boundary) ==> b in inp.bfis
    ensures forall b :: b in OfRegion(inp.bfis, Interface) ==> b in inp.bfis
    ensures RestrictedSum(inp, attrs, i, j) ==
      RegionShares(inp, inp.elements, OfRegion(inp.bfis, Domain), attrs, i, j)
      + RegionShares(inp, inp.boundary, OfRegion(inp.bfis, Boundary), attrs, i, j)
      + RegionShares(inp, inp.interface, OfRegion(inp.bfis, Interface), attrs, i, j)
  {
    OfRegionMembers(inp.bfis, Domain);
    OfRegionMembers(inp.bfis, Boundary);
    OfRegionMembers(inp.bfis, Interface);
    if attrs != [] {
      var a := attrs[|attrs| - 1];
      RestrictedSumRegions(inp, attrs[..|attrs| - 1], i, j);
      RestrictedEntry(inp, a, i, j);
    }
  }

  /** Assembling integrators that apply everywhere gives, entry by entry,
      the sum of the assemblies of their copies restricted to each
      attribute, once the attributes listed cover every simplex visited. */
  lemma EmptyAttributesIsUnion(inp: BilinearInput, attrs: seq<int>, i: nat, j: nat)
    requires ValidBilinearInput(inp) && AppliesEverywhere(inp.bfis)
    requires Distinct(attrs)
    requires forall k :: 0 <= k < |inp.elements| ==> inp.elements[k].attr in attrs
    requires forall k :: 0 <= k < |inp.boundary| ==> inp.boundary[k].attr in attrs
    requires forall k :: 0 <= k < |inp.interface| ==> inp.interface[k].attr in attrs
    requires i < inp.testSize && j < inp.trialSize
    ensures Assembled(inp)[i][j] == RestrictedSum(inp, attrs, i, j)
  {
    var R, C := inp.testSize, inp.trialSize;
    AssembledEntry(inp, i, j);
    RestrictedSumRegions(inp, attrs, i, j);
    var D, B, I := OfRegion(inp.bfis, Domain), OfRegion(inp.bfis, Boundary), OfRegion(inp.bfis, Interface);
    RegionSharesTotal(inp, inp.elements, D, attrs, i, j);
    RegionSharesTotal(inp, inp.boundary, B, attrs, i, j);
    RegionSharesTotal(inp, inp.interface, I, attrs, i, j);
    var d, b, f := BlocksOver(inp, inp.elements, D), BlocksOver(inp, inp.boundary, B), BlocksOver(inp, inp.interface, I);
    SharesOfConcat(d, b, R, C, i, j);
    SharesOfConcat(d + b, f, R, C, i, j);
  }

  // ----- linear forms -----

  /** The same linear problem with every integrator restricted to {a}.
      What an integrator computes on a simplex does not depend on its
      attribute set, so a restricted copy computes what its original does. */
  function LinearRestrictedTo(inp: LinearInput, a: int): LinearInput
  {
    inp.(lfis := OverAll(inp.lfis, a),
         localVector := (b: IntegratorView, s: Simplex) => inp.localVector(b.(attrs := {}), s))
  }

  lemma LinearRestrictedValid(inp: LinearInput, a: int)
    requires ValidLinearInput(inp) && AppliesEverywhere(inp.lfis)
    ensures ValidLinearInput(LinearRestrictedTo(inp, a))
  {
    var r := LinearRestrictedTo(inp, a);
    forall s | LinearSimplexFits(inp, s) ensures LinearSimplexFits(r, s) {
      forall b' | b' in r.lfis
        ensures |r.localVector(b', s)| == |r.dofs(s)|
      {
        var k :| 0 <= k < |inp.lfis| && r.lfis[k] == b';
        assert inp.lfis[k] in inp.lfis;
        assert b'.(attrs := {}) == inp.lfis[k];
      }
    }
  }

  /** On one simplex, the restricted integrators add what the originals add
      when the simplex has attribute a, and nothing otherwise. */
  lemma {:induction false} VectorsAtRestricted(inp: LinearInput, s: Simplex, bs: seq<IntegratorView>, a: int)
    requires AppliesEverywhere(bs)
    ensures VectorsAt(LinearRestrictedTo(inp, a), s, OverAll(bs, a)) == if s.attr == a then VectorsAt(inp, s, bs) else []
  {
    if bs != [] {
      var init, last := bs[..|bs| - 1], bs[|bs| - 1];
      assert last in bs;
      assert forall b :: b in init ==> b in bs;
      VectorsAtRestricted(inp, s, init, a);
      var o := OverAll(bs, a);
      assert o[..|o| - 1] == OverAll(init, a);
      assert last.(attrs := {a}).(attrs := {}) == last;
    }
  }

  /** Over a region, the restricted integrators add exactly the blocks of
      the simplices of attribute a. */
  lemma {:induction false} VectorsOverRestricted(inp: LinearInput, ss: seq<Simplex>, bs: seq<IntegratorView>, a: int)
    requires AppliesEverywhere(bs)
    ensures VectorsOver(LinearRestrictedTo(inp, a), ss, OverAll(bs, a)) == VectorsOver(inp, WithAttribute(ss, a), bs)
  {
    if ss != [] {
      var r, o := LinearRestrictedTo(inp, a), OverAll(bs, a);
      var init, last := ss[..|ss| - 1], ss[|ss| - 1];
      var w := WithAttribute(init, a);
      var tail := if last.attr == a then VectorsAt(inp, last, bs) else [];
      calc {
        VectorsOver(r, ss, o);
        VectorsOver(r, init, o) + VectorsAt(r, last, o);
        { VectorsOverRestricted(inp, init, bs, a); VectorsAtRestricted(inp, last, bs, a); }
        VectorsOver(inp, w, bs) + tail;
        { LinearOverSnoc(inp, w, last, bs, a); }
        VectorsOver(inp, w + (if last.attr == a then [last] else []), bs);
        { WithAttributeSnoc(init, last, a); assert init + [last] == ss; }
        VectorsOver(inp, WithAttribute(ss, a), bs);
      }
    }
  }

  lemma LinearOverSnoc(inp: LinearInput, w: seq<Simplex>, s: Simplex, bs: seq<IntegratorView>, a: int)
    ensures VectorsOver(inp, w + (if s.attr == a then [s] else []), bs)
      == VectorsOver(inp, w, bs) + (if s.attr == a then VectorsAt(inp, s, bs) else [])
  {
    if s.attr == a {
      assert (w + [s])[..|w + [s]| - 1] == w;
    } else {
      assert w + [] == w;
    }
  }

  lemma {:induction false} LinearWithAttributeFits(inp: LinearInput, ss: seq<Simplex>, a: int)
    requires forall k :: 0 <= k < |ss| ==> LinearSimplexFits(inp, ss[k])
    ensures forall k :: 0 <= k < |WithAttribute(ss, a)| ==> LinearSimplexFits(inp, WithAttribute(ss, a)[k])
  {
    WithAttributeMembers(ss, a);
    forall k | 0 <= k < |WithAttribute(ss, a)| ensures LinearSimplexFits(inp, WithAttribute(ss, a)[k]) {
      var s := WithAttribute(ss, a)[k];
      assert s in WithAttribute(ss, a);
      var m :| 0 <= m < |ss| && ss[m] == s;
    }
  }

  /** What the blocks of the simplices of attribute a add to entry i. */
  function LinearAttributeShare(inp: LinearInput, ss: seq<Simplex>, bs: seq<IntegratorView>, a: int, i: nat): real
    requires forall k :: 0 <= k < |ss| ==> LinearSimplexFits(inp, ss[k])
    requires forall b :: b in bs ==> b in inp.lfis
  {
    LinearWithAttributeFits(inp, ss, a);
    VectorsOverFit(inp, WithAttribute(ss, a), bs);
    VectorSharesOf(VectorsOver(inp, WithAttribute(ss, a), bs), inp.size, i)
  }

  /** One more simplex adds its blocks' share to the term of its own
      attribute. */
  lemma {:induction false} LinearAttributeShareSnoc(inp: LinearInput, ss: seq<Simplex>, s: Simplex, bs: seq<IntegratorView>,
                                              a: int, i: nat)
    requires forall k :: 0 <= k < |ss + [s]| ==> LinearSimplexFits(inp, (ss + [s])[k])
    requires forall b :: b in bs ==> b in inp.lfis
    ensures forall k :: 0 <= k < |ss| ==> LinearSimplexFits(inp, ss[k])
    ensures LinearSimplexFits(inp, s)
    ensures AllVectorsFit(VectorsAt(inp, s, bs), inp.size)
    ensures LinearAttributeShare(inp, ss + [s], bs, a, i) == LinearAttributeShare(inp, ss, bs, a, i)
      + (if s.attr == a then VectorSharesOf(VectorsAt(inp, s, bs), inp.size, i) else 0.0)
  {
    assert forall k :: 0 <= k < |ss| ==> ss[k] == (ss + [s])[k];
    assert s == (ss + [s])[|ss|];
    VectorsAtFit(inp, s, bs);
    WithAttributeSnoc(ss, s, a);
    var w := WithAttribute(ss, a);
    LinearWithAttributeFits(inp, ss, a);
    VectorsOverFit(inp, w, bs);
    if s.attr == a {
      assert (w + [s])[..|w + [s]| - 1] == w;
      assert VectorsOver(inp, w + [s], bs) == VectorsOver(inp, w, bs) + VectorsAt(inp, s, bs);
      VectorSharesOfConcat(VectorsOver(inp, w, bs), VectorsAt(inp, s, bs), inp.size, i);
    } else {
      assert WithAttribute(ss + [s], a) == w;
    }
  }

  /** What the blocks of the simplices of each listed attribute add to entry
      i, summed over the attributes. */
  function LinearRegionShares(inp: LinearInput, ss: seq<Simplex>, bs: seq<IntegratorView>, attrs: seq<int>, i: nat): real
    requires forall k :: 0 <= k < |ss| ==> LinearSimplexFits(inp, ss[k])
    requires forall b :: b in bs ==> b in inp.lfis
  {
    if attrs == [] then 0.0
    else LinearRegionShares(inp, ss, bs, attrs[..|attrs| - 1], i) + LinearAttributeShare(inp, ss, bs, attrs[|attrs| - 1], i)
  }

  lemma {:induction false} LinearRegionSharesEmpty(inp: LinearInput, bs: seq<IntegratorView>, attrs: seq<int>, i: nat)
    requires forall b :: b in bs ==> b in inp.lfis
    ensures LinearRegionShares(inp, [], bs, attrs, i) == 0.0
  {
    if attrs != [] {
      LinearRegionSharesEmpty(inp, bs, attrs[..|attrs| - 1], i);
    }
  }

  /** One more simplex adds its blocks' share to the term of its own
      attribute, and to no other. */
  lemma {:induction false} LinearRegionSharesSnoc(inp: LinearInput, ss: seq<Simplex>, s: Simplex, bs: seq<IntegratorView>,
                                            attrs: seq<int>, i: nat)
    requires forall k :: 0 <= k < |ss + [s]| ==> LinearSimplexFits(inp, (ss + [s])[k])
    requires forall b :: b in bs ==> b in inp.lfis
    requires Distinct(attrs)
    ensures forall k :: 0 <= k < |ss| ==> LinearSimplexFits(inp, ss[k])
    ensures AllVectorsFit(VectorsAt(inp, s, bs), inp.size)
    ensures LinearRegionShares(inp, ss + [s], bs, attrs, i) == LinearRegionShares(inp, ss, bs, attrs, i)
      + (if s.attr in attrs then VectorSharesOf(VectorsAt(inp, s, bs), inp.size, i) else 0.0)
  {
    LinearAttributeShareSnoc(inp, ss, s, bs, 0, i);
    if attrs != [] {
      var init, a := attrs[..|attrs| - 1], attrs[|attrs| - 1];
      LinearRegionSharesSnoc(inp, ss, s, bs, init, i);
      LinearAttributeShareSnoc(inp, ss, s, bs, a, i);
      assert s.attr in attrs <==> s.attr in init || s.attr == a;
      assert s.attr == a ==> s.attr !in init;
    }
  }

  /** Summing over a list of distinct attributes that holds every simplex's
      attribute gives what all the simplices add. */
  lemma {:induction false} LinearRegionSharesTotal(inp: LinearInput, ss: seq<Simplex>, bs: seq<IntegratorView>,
                                             attrs: seq<int>, i: nat)
    requires forall k :: 0 <= k < |ss| ==> LinearSimplexFits(inp, ss[k])
    requires forall b :: b in bs ==> b in inp.lfis
    requires Distinct(attrs)
    requires forall k :: 0 <= k < |ss| ==> ss[k].attr in attrs
    ensures AllVectorsFit(VectorsOver(inp, ss, bs), inp.size)
    ensures VectorSharesOf(VectorsOver(inp, ss, bs), inp.size, i) == LinearRegionShares(inp, ss, bs, attrs, i)
  {
    VectorsOverFit(inp, ss, bs);
    if ss == [] {
      LinearRegionSharesEmpty(inp, bs, attrs, i);
    } else {
      var init, s := ss[..|ss| - 1], ss[|ss| - 1];
      LinearRegionSharesTotal(inp, init, bs, attrs, i);
      assert init + [s] == ss;
      LinearRegionSharesSnoc(inp, init, s, bs, attrs, i);
      VectorsOverFit(inp, init, bs);
      VectorSharesOfConcat(VectorsOver(inp, init, bs), VectorsAt(inp, s, bs), inp.size, i);
    }
  }

  /** Entry i of the restricted assembly is what the three region loops
      add there from the simplices of attribute a. */
  lemma LinearRestrictedEntry(inp: LinearInput, a: int, i: nat)
    requires ValidLinearInput(inp) && AppliesEverywhere(inp.lfis)
    requires i < inp.size
    ensures ValidLinearInput(LinearRestrictedTo(inp, a))
    ensures forall b :: b in OfRegion(inp.lfis, Domain) ==> b in inp.lfis
    ensures forall b :: b in OfRegion(inp.lfis, Boundary) ==> b in inp.lfis
    ensures forall b :: b in OfRegion(inp.lfis, Interface) ==> b in inp.lfis
    ensures AssembledVector(LinearRestrictedTo(inp, a))[i] ==
      LinearRegionShares(inp, inp.elements, OfRegion(inp.lfis, Domain), [a], i)
      + LinearRegionShares(inp, inp.boundary, OfRegion(inp.lfis, Boundary), [a], i)
      + LinearRegionShares(inp, inp.interface, OfRegion(inp.lfis, Interface), [a], i)
  {
    LinearRestrictedValid(inp, a);
    var r := LinearRestrictedTo(inp, a);
    AssembledVectorEntry(r, i);
    OfRegionMembers(inp.lfis, Domain);
    OfRegionMembers(inp.lfis, Boundary);
    OfRegionMembers(inp.lfis, Interface);
    var D, B, I := OfRegion(inp.lfis, Domain), OfRegion(inp.lfis, Boundary), OfRegion(inp.lfis, Interface);
    OfRegionOverAll(inp.lfis, a, Domain);
    OfRegionOverAll(inp.lfis, a, Boundary);
    OfRegionOverAll(inp.lfis, a, Interface);
    VectorsOverRestricted(inp, inp.elements, D, a);
    VectorsOverRestricted(inp, inp.boundary, B, a);
    VectorsOverRestricted(inp, inp.interface, I, a);
    var d := VectorsOver(inp, WithAttribute(inp.elements, a), D);
    var b := VectorsOver(inp, WithAttribute(inp.boundary, a), B);
    var f := VectorsOver(inp, WithAttribute(inp.interface, a), I);
    assert AllVectors(r) == d + b + f;
    LinearWithAttributeFits(inp, inp.elements, a);
    LinearWithAttributeFits(inp, inp.boundary, a);
    LinearWithAttributeFits(inp, inp.interface, a);
    VectorsOverFit(inp, WithAttribute(inp.elements, a), D);
    VectorsOverFit(inp, WithAttribute(inp.boundary, a), B);
    VectorsOverFit(inp, WithAttribute(inp.interface, a), I);
    VectorSharesOfConcat(d, b, inp.size, i);
    VectorSharesOfConcat(d + b, f, inp.size, i);
    assert [a][..0] == [];
  }

  /** Entry i of the restricted assemblies, added over the attributes. */
  function LinearRestrictedSum(inp: LinearInput, attrs: seq<int>, i: nat): real
    requires ValidLinearInput(inp) && AppliesEverywhere(inp.lfis)
    requires i < inp.size
  {
    if attrs == [] then 0.0
    else
      LinearRestrictedValid(inp, attrs[|attrs| - 1]);
      LinearRestrictedSum(inp, attrs[..|attrs| - 1], i) + AssembledVector(LinearRestrictedTo(inp, attrs[|attrs| - 1]))[i]
  }

  lemma {:induction false} LinearRestrictedSumRegions(inp: LinearInput, attrs: seq<int>, i: nat)
    requires ValidLinearInput(inp) && AppliesEverywhere(inp.lfis)
    requires i < inp.size
    ensures forall b :: b in OfRegion(inp.lfis, Domain) ==> b in inp.lfis
    ensures forall b :: b in OfRegion(inp.lfis, Boundary) ==> b in inp.lfis
    ensures forall b :: b in OfRegion(inp.lfis, Interface) ==> b in inp.lfis
    ensures LinearRestrictedSum(inp, attrs, i) ==
      LinearRegionShares(inp, inp.elements, OfRegion(inp.lfis, Domain), attrs, i)
      + LinearRegionShares(inp, inp.boundary, OfRegion(inp.lfis, Boundary), attrs, i)
      + LinearRegionShares(inp, inp.interface, OfRegion(inp.lfis, Interface), attrs, i)
  {
    OfRegionMembers(inp.lfis, Domain);
    OfRegionMembers(inp.lfis, Boundary);
    OfRegionMembers(inp.lfis, Interface);
    if attrs != [] {
      var a := attrs[|attrs| - 1];
      LinearRestrictedSumRegions(inp, attrs[..|attrs| - 1], i);
      LinearRestrictedEntry(inp, a, i);
    }
  }

  /** Assembling integrators that apply everywhere gives, entry by entry,
      the sum of the assemblies of their copies restricted to each
      attribute, once the attributes listed cover every simplex visited. */
  lemma EmptyAttributesIsUnionLinear(inp: LinearInput, attrs: seq<int>, i: nat)
    requires ValidLinearInput(inp) && AppliesEverywhere(inp.lfis)
    requires Distinct(attrs)
    requires forall k :: 0 <= k < |inp.elements| ==> inp.elements[k].attr in attrs
    requires forall k :: 0 <= k < |inp.boundary| ==> inp.boundary[k].attr in attrs
    requires forall k :: 0 <= k < |inp.interface| ==> inp.interface[k].attr in attrs
    requires i < inp.size
    ensures AssembledVector(inp)[i] == LinearRestrictedSum(inp, attrs, i)
  {
    AssembledVectorEntry(inp, i);
    LinearRestrictedSumRegions(inp, attrs, i);
    var D, B, I := OfRegion(inp.lfis, Domain), OfRegion(inp.lfis, Boundary), OfRegion(inp.lfis, Interface);
    LinearRegionSharesTotal(inp, inp.elements, D, attrs, i);
    LinearRegionSharesTotal(inp, inp.boundary, B, attrs, i);
    LinearRegionSharesTotal(inp, inp.interface, I, attrs, i);
    var d, b, f := VectorsOver(inp, inp.elements, D), VectorsOver(inp, inp.boundary, B), VectorsOver(inp, inp.interface, I);
    VectorSharesOfConcat(d, b, inp.size, i);
    VectorSharesOfConcat(d + b, f, inp.size, i);
  }
}
