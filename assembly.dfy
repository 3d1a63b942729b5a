/** Native assembly of bilinear and linear forms: integrators are sorted by
    region, each element (or boundary or interface face) is visited once,
    every integrator whose attribute filter accepts it contributes its local
    matrix (or vector), and contributions are scatter-added into the global
    operator, which starts at zero.

    The mesh, the finite-element spaces and the integrators' numerics are
    inputs: the simplices of each region with their attributes, the degrees
    of freedom of a simplex in each space, and the local matrix or vector an
    integrator computes on a simplex. */
module Assembly {
  import opened Dense
  import opened Scatter
  import opened Wrappers
  import opened Integrators

  /** An element or face visited by the assembly loop. */
  datatype Simplex = Simplex(index: nat, attr: int)

  /** What the assembly reads from an integrator: its region and attribute
      filter; `id` names it, to look up the local matrices it computes. */
  datatype IntegratorView = IntegratorView(id: nat, region: Region, attrs: set<int>)

  /** The inputs of bilinear assembly. */
  datatype BilinearInput = BilinearInput(
    testSize: nat,
    trialSize: nat,
    elements: seq<Simplex>,
    boundary: seq<Simplex>,
    interface: seq<Simplex>,
    testDofs: Simplex -> seq<nat>,
    trialDofs: Simplex -> seq<nat>,
    localMatrix: (IntegratorView, Simplex) -> Matrix,
    bfis: seq<IntegratorView>)

  /** Degrees of freedom lie in their spaces and every local matrix is
      (test dofs) x (trial dofs) on every simplex the loops visit. */
  predicate SimplexFits(inp: BilinearInput, s: Simplex)
  {
    (forall i :: 0 <= i < |inp.testDofs(s)| ==> inp.testDofs(s)[i] < inp.testSize)
    && (forall j :: 0 <= j < |inp.trialDofs(s)| ==> inp.trialDofs(s)[j] < inp.trialSize)
    && (forall b :: b in inp.bfis ==>
          IsMatrix(inp.localMatrix(b, s), |inp.testDofs(s)|, |inp.trialDofs(s)|))
  }

  predicate ValidBilinearInput(inp: BilinearInput)
  {
    (forall k :: 0 <= k < |inp.elements| ==> SimplexFits(inp, inp.elements[k]))
    && (forall k :: 0 <= k < |inp.boundary| ==> SimplexFits(inp, inp.boundary[k]))
    && (forall k :: 0 <= k < |inp.interface| ==> SimplexFits(inp, inp.interface[k]))
  }

  /** The integrators of one region, in their original order. */
  function OfRegion(bfis: seq<IntegratorView>, r: Region): (out: seq<IntegratorView>)
    ensures |out| <= |bfis|
  {
    if bfis == [] then []
    else OfRegion(bfis[..|bfis| - 1], r) + (if bfis[|bfis| - 1].region == r then [bfis[|bfis| - 1]] else [])
  }

  /** The region list holds exactly the integrators of that region. */
  lemma {:induction false} OfRegionMembers(bfis: seq<IntegratorView>, r: Region)
    ensures forall b :: b in OfRegion(bfis, r) <==> b in bfis && b.region == r
  {
    if bfis != [] {
      OfRegionMembers(bfis[..|bfis| - 1], r);
      assert forall b :: b in bfis <==> b in bfis[..|bfis| - 1] || b == bfis[|bfis| - 1];
    }
  }

  /** Together the three region lists are exactly as long as the integrator
      list; with OfRegionMembers (each list holds its own region and no other)
      every integrator lands in exactly one of them. */
  lemma {:induction false} PartitionIsExact(bfis: seq<IntegratorView>)
    ensures |OfRegion(bfis, Domain)| + |OfRegion(bfis, Boundary)| + |OfRegion(bfis, Interface)| == |bfis|
  {
    if bfis != [] {
      PartitionIsExact(bfis[..|bfis| - 1]);
    }
  }

  /** The first loop: each integrator is added to the list of its region. */
  method PartitionIntegrators(bfis: seq<IntegratorView>)
    returns (domain: seq<IntegratorView>, boundary: seq<IntegratorView>, interface: seq<IntegratorView>)
    ensures domain == OfRegion(bfis, Domain)
    ensures boundary == OfRegion(bfis, Boundary)
    ensures interface == OfRegion(bfis, Interface)
  {
    domain, boundary, interface := [], [], [];
    var k := 0;
    while k < |bfis|
      invariant 0 <= k <= |bfis|
      invariant domain == OfRegion(bfis[..k], Domain)
      invariant boundary == OfRegion(bfis[..k], Boundary)
      invariant interface == OfRegion(bfis[..k], Interface)
    {
      assert bfis[..k + 1][..k] == bfis[..k];
      if bfis[k].region == Domain {
        domain := domain + [bfis[k]];
      } else if bfis[k].region == Boundary {
        boundary := boundary + [bfis[k]];
      } else {
        interface := interface + [bfis[k]];
      }
      k := k + 1;
    }
    assert bfis[..|bfis|] == bfis;
  }

  /** The block an integrator adds on a simplex. */
  function BlockOf(inp: BilinearInput, b: IntegratorView, s: Simplex): Block
  {
    Block(inp.testDofs(s), inp.trialDofs(s), inp.localMatrix(b, s))
  }

  /** The blocks added on simplex s by the integrators bs that accept it,
      in list order. */
  function BlocksAt(inp: BilinearInput, s: Simplex, bs: seq<IntegratorView>): (out: seq<Block>)
    ensures |out| <= |bs|
  {
    if bs == [] then []
    else
      var b := bs[|bs| - 1];
      BlocksAt(inp, s, bs[..|bs| - 1]) + (if AttributeMatches(b.attrs, s.attr) then [BlockOf(inp, b, s)] else [])
  }

  /** The blocks added while visiting the simplices ss in order, with the
      integrators bs for each of them. */
  function BlocksOver(inp: BilinearInput, ss: seq<Simplex>, bs: seq<IntegratorView>): seq<Block>
  {
    if ss == [] then []
    else BlocksOver(inp, ss[..|ss| - 1], bs) + BlocksAt(inp, ss[|ss| - 1], bs)
  }

  lemma {:induction false} BlocksAtMembers(inp: BilinearInput, s: Simplex, bs: seq<IntegratorView>)
    ensures forall c :: c in BlocksAt(inp, s, bs) ==>
      exists b :: b in bs && AttributeMatches(b.attrs, s.attr) && c == BlockOf(inp, b, s)
    ensures forall b :: b in bs && AttributeMatches(b.attrs, s.attr) ==> BlockOf(inp, b, s) in BlocksAt(inp, s, bs)
  {
    if bs != [] {
      var init := bs[..|bs| - 1];
      BlocksAtMembers(inp, s, init);
      assert forall b :: b in bs ==> b in init || b == bs[|bs| - 1];
    }
  }

  /** The blocks of one simplex fit when the simplex does. */
  lemma {:induction false} BlocksAtFit(inp: BilinearInput, s: Simplex, bs: seq<IntegratorView>)
    requires SimplexFits(inp, s)
    requires forall b :: b in bs ==> b in inp.bfis
    ensures AllFit(BlocksAt(inp, s, bs), inp.testSize, inp.trialSize)
  {
    if bs != [] {
      var init := bs[..|bs| - 1];
      var b := bs[|bs| - 1];
      BlocksAtFit(inp, s, init);
      if AttributeMatches(b.attrs, s.attr) {
        assert BlockFits(BlockOf(inp, b, s), inp.testSize, inp.trialSize);
        AllFitConcat(BlocksAt(inp, s, init), [BlockOf(inp, b, s)], inp.testSize, inp.trialSize);
      }
    }
  }

  /** Exactly the matching (simplex, integrator) pairs contribute. */
  lemma {:induction false} BlocksOverMembers(inp: BilinearInput, ss: seq<Simplex>, bs: seq<IntegratorView>)
    ensures forall c :: c in BlocksOver(inp, ss, bs) ==>
      exists s, b :: s in ss && b in bs && AttributeMatches(b.attrs, s.attr) && c == BlockOf(inp, b, s)
    ensures forall s, b :: s in ss && b in bs && AttributeMatches(b.attrs, s.attr) ==>
      BlockOf(inp, b, s) in BlocksOver(inp, ss, bs)
  {
    if ss != [] {
      var init := ss[..|ss| - 1];
      BlocksOverMembers(inp, init, bs);
      BlocksAtMembers(inp, ss[|ss| - 1], bs);
      assert forall s :: s in ss ==> s in init || s == ss[|ss| - 1];
    }
  }

  /** The blocks of every simplex the loops visit fit the global matrix. */
  lemma {:induction false} BlocksOverFit(inp: BilinearInput, ss: seq<Simplex>, bs: seq<IntegratorView>)
    requires forall k :: 0 <= k < |ss| ==> SimplexFits(inp, ss[k])
    requires forall b :: b in bs ==> b in inp.bfis
    ensures AllFit(BlocksOver(inp, ss, bs), inp.testSize, inp.trialSize)
  {
    if ss != [] {
      var init := ss[..|ss| - 1];
      BlocksOverFit(inp, init, bs);
      BlocksAtFit(inp, ss[|ss| - 1], bs);
      AllFitConcat(BlocksOver(inp, init, bs), BlocksAt(inp, ss[|ss| - 1], bs), inp.testSize, inp.trialSize);
    }
  }

  /** Every block contributed, in the order the three loops add them. */
  function AllBlocks(inp: BilinearInput): seq<Block>
  {
    BlocksOver(inp, inp.elements, OfRegion(inp.bfis, Domain))
    + BlocksOver(inp, inp.boundary, OfRegion(inp.bfis, Boundary))
    + BlocksOver(inp, inp.interface, OfRegion(inp.bfis, Interface))
  }

  lemma AllBlocksFit(inp: BilinearInput)
    requires ValidBilinearInput(inp)
    ensures AllFit(AllBlocks(inp), inp.testSize, inp.trialSize)
  {
    var R, C := inp.testSize, inp.trialSize;
    var d := BlocksOver(inp, inp.elements, OfRegion(inp.bfis, Domain));
    var b := BlocksOver(inp, inp.boundary, OfRegion(inp.bfis, Boundary));
    var i := BlocksOver(inp, inp.interface, OfRegion(inp.bfis, Interface));
    OfRegionMembers(inp.bfis, Domain);
    OfRegionMembers(inp.bfis, Boundary);
    OfRegionMembers(inp.bfis, Interface);
    BlocksOverFit(inp, inp.elements, OfRegion(inp.bfis, Domain));
    BlocksOverFit(inp, inp.boundary, OfRegion(inp.bfis, Boundary));
    BlocksOverFit(inp, inp.interface, OfRegion(inp.bfis, Interface));
    AllFitConcat(d, b, R, C);
    AllFitConcat(d + b, i, R, C);
  }

  /** The assembled operator: a testSize x trialSize zero matrix with every
      contributed block scatter-added to it. */
  function Assembled(inp: BilinearInput): (m: Matrix)
    requires ValidBilinearInput(inp)
    ensures IsMatrix(m, inp.testSize, inp.trialSize)
  {
    AllBlocksFit(inp);
    AddAll(ZeroMatrix(inp.testSize, inp.trialSize), inp.testSize, inp.trialSize, AllBlocks(inp))
  }

  /** Each global entry is the sum of what the contributing blocks add there:
      contributions are additive and nothing else is in the result. */
  lemma AssembledEntry(inp: BilinearInput, a: nat, b: nat)
    requires ValidBilinearInput(inp) && a < inp.testSize && b < inp.trialSize
    ensures AllFit(AllBlocks(inp), inp.testSize, inp.trialSize)
    ensures Assembled(inp)[a][b] == SharesOf(AllBlocks(inp), inp.testSize, inp.trialSize, a, b)
  {
    AllBlocksFit(inp);
  }

  /** With no integrators the result is the zero matrix. */
  lemma {:induction false} NoIntegratorsGiveZero(inp: BilinearInput)
    requires ValidBilinearInput(inp) && inp.bfis == []
    ensures Assembled(inp) == ZeroMatrix(inp.testSize, inp.trialSize)
  {
    assert OfRegion(inp.bfis, Domain) == [] && OfRegion(inp.bfis, Boundary) == [] && OfRegion(inp.bfis, Interface) == [];
    NoBlocksWithoutIntegrators(inp, inp.elements);
    NoBlocksWithoutIntegrators(inp, inp.boundary);
    NoBlocksWithoutIntegrators(inp, inp.interface);
    assert AllBlocks(inp) == [];
  }

  lemma {:induction false} NoBlocksWithoutIntegrators(inp: BilinearInput, ss: seq<Simplex>)
    ensures BlocksOver(inp, ss, []) == []
  {
    if ss != [] {
      NoBlocksWithoutIntegrators(inp, ss[..|ss| - 1]);
    }
  }

  /** Boundary integrators only ever see boundary faces and interface
      integrators only interface faces; domain integrators only elements. */
  lemma RegionsAreSeparate(inp: BilinearInput, s: Simplex, b: IntegratorView)
    requires b in inp.bfis && AttributeMatches(b.attrs, s.attr)
    ensures b.region == Boundary && s in inp.boundary ==>
      BlockOf(inp, b, s) in BlocksOver(inp, inp.boundary, OfRegion(inp.bfis, Boundary))
    ensures b.region == Interface && s in inp.interface ==>
      BlockOf(inp, b, s) in BlocksOver(inp, inp.interface, OfRegion(inp.bfis, Interface))
    ensures b.region == Domain && s in inp.elements ==>
      BlockOf(inp, b, s) in BlocksOver(inp, inp.elements, OfRegion(inp.bfis, Domain))
    ensures forall c :: c in BlocksOver(inp, inp.boundary, OfRegion(inp.bfis, Boundary)) ==>
      exists s', b' :: s' in inp.boundary && b' in inp.bfis && b'.region == Boundary
                       && AttributeMatches(b'.attrs, s'.attr) && c == BlockOf(inp, b', s')
    ensures forall c :: c in BlocksOver(inp, inp.interface, OfRegion(inp.bfis, Interface)) ==>
      exists s', b' :: s' in inp.interface && b' in inp.bfis && b'.region == Interface
                       && AttributeMatches(b'.attrs, s'.attr) && c == BlockOf(inp, b', s')
  {
    OfRegionMembers(inp.bfis, Domain);
    OfRegionMembers(inp.bfis, Boundary);
    OfRegionMembers(inp.bfis, Interface);
    BlocksOverMembers(inp, inp.elements, OfRegion(inp.bfis, Domain));
    BlocksOverMembers(inp, inp.boundary, OfRegion(inp.bfis, Boundary));
    BlocksOverMembers(inp, inp.interface, OfRegion(inp.bfis, Interface));
  }

  /** The integrator loop on one simplex: each accepting integrator's local
      matrix is scatter-added in place. */
  method AddBlocksOn(res0: Matrix, inp: BilinearInput, s: Simplex, bs: seq<IntegratorView>)
    returns (res: Matrix)
    requires IsMatrix(res0, inp.testSize, inp.trialSize)
    requires SimplexFits(inp, s)
    requires forall b :: b in bs ==> b in inp.bfis
    ensures AllFit(BlocksAt(inp, s, bs), inp.testSize, inp.trialSize)
    ensures res == AddAll(res0, inp.testSize, inp.trialSize, BlocksAt(inp, s, bs))
  {
    var R, C := inp.testSize, inp.trialSize;
    res := res0;
    var l := 0;
    while l < |bs|
      invariant 0 <= l <= |bs|
      invariant AllFit(BlocksAt(inp, s, bs[..l]), R, C)
      invariant res == AddAll(res0, R, C, BlocksAt(inp, s, bs[..l]))
    {
      assert bs[..l + 1][..l] == bs[..l];
      BlocksAtFit(inp, s, bs[..l + 1]);
      if AttributeMatches(bs[l].attrs, s.attr) {
        var blk := BlockOf(inp, bs[l], s);
        assert BlockFits(blk, R, C);
        AddAllSnoc(res0, R, C, BlocksAt(inp, s, bs[..l]), blk);
        res := AddSubMatrix(res, R, C, blk);
        assert BlocksAt(inp, s, bs[..l + 1]) == BlocksAt(inp, s, bs[..l]) + [blk];
      } else {
        assert BlocksAt(inp, s, bs[..l + 1]) == BlocksAt(inp, s, bs[..l]);
      }
      l := l + 1;
    }
    assert bs[..|bs|] == bs;
  }

  /** One region loop: for each simplex, for each integrator of the region,
      scatter-add the local matrix when the attribute filter accepts it. */
  method AddRegion(res0: Matrix, inp: BilinearInput, ss: seq<Simplex>, bs: seq<IntegratorView>)
    returns (res: Matrix)
    requires IsMatrix(res0, inp.testSize, inp.trialSize)
    requires forall k :: 0 <= k < |ss| ==> SimplexFits(inp, ss[k])
    requires forall b :: b in bs ==> b in inp.bfis
    ensures AllFit(BlocksOver(inp, ss, bs), inp.testSize, inp.trialSize)
    ensures res == AddAll(res0, inp.testSize, inp.trialSize, BlocksOver(inp, ss, bs))
  {
    var R, C := inp.testSize, inp.trialSize;
    BlocksOverFit(inp, ss, bs);
    res := res0;
    var k := 0;
    while k < |ss|
      invariant 0 <= k <= |ss|
      invariant AllFit(BlocksOver(inp, ss[..k], bs), R, C)
      invariant res == AddAll(res0, R, C, BlocksOver(inp, ss[..k], bs))
    {
      assert ss[..k + 1][..k] == ss[..k];
      res := AddBlocksOn(res, inp, ss[k], bs);
      AddAllConcat(res0, R, C, BlocksOver(inp, ss[..k], bs), BlocksAt(inp, ss[k], bs));
      k := k + 1;
    }
    assert ss[..|ss|] == ss;
  }

  /** execute(): start from zero, partition the integrators, then run the
      element, boundary and interface loops. */
  method AssembleBilinear(inp: BilinearInput) returns (res: Matrix)
    requires ValidBilinearInput(inp)
    ensures IsMatrix(res, inp.testSize, inp.trialSize)
    ensures res == Assembled(inp)
  {
    var R, C := inp.testSize, inp.trialSize;
    res := ZeroMatrix(R, C);
    var domain, boundary, interface := PartitionIntegrators(inp.bfis);
    OfRegionMembers(inp.bfis, Domain);
    OfRegionMembers(inp.bfis, Boundary);
    OfRegionMembers(inp.bfis, Interface);
    res := AddRegion(res, inp, inp.elements, domain);
    res := AddRegion(res, inp, inp.boundary, boundary);
    res := AddRegion(res, inp, inp.interface, interface);
    var d := BlocksOver(inp, inp.elements, domain);
    var b := BlocksOver(inp, inp.boundary, boundary);
    var i := BlocksOver(inp, inp.interface, interface);
    AddAllConcat(ZeroMatrix(R, C), R, C, d, b);
    AddAllConcat(ZeroMatrix(R, C), R, C, d + b, i);
  }

  // ----- linear forms -----

  /** The inputs of linear assembly: one space, and the local vector an
      integrator computes on a simplex. */
  datatype LinearInput = LinearInput(
    size: nat,
    elements: seq<Simplex>,
    boundary: seq<Simplex>,
    interface: seq<Simplex>,
    dofs: Simplex -> seq<nat>,
    localVector: (IntegratorView, Simplex) -> seq<real>,
    lfis: seq<IntegratorView>)

  predicate LinearSimplexFits(inp: LinearInput, s: Simplex)
  {
    (forall i :: 0 <= i < |inp.dofs(s)| ==> inp.dofs(s)[i] < inp.size)
    && (forall b :: b in inp.lfis ==> |inp.localVector(b, s)| == |inp.dofs(s)|)
  }

  predicate ValidLinearInput(inp: LinearInput)
  {
    (forall k :: 0 <= k < |inp.elements| ==> LinearSimplexFits(inp, inp.elements[k]))
    && (forall k :: 0 <= k < |inp.boundary| ==> LinearSimplexFits(inp, inp.boundary[k]))
    && (forall k :: 0 <= k < |inp.interface| ==> LinearSimplexFits(inp, inp.interface[k]))
  }

  function VectorOf(inp: LinearInput, b: IntegratorView, s: Simplex): VectorBlock
  {
    VectorBlock(inp.dofs(s), inp.localVector(b, s))
  }

  /** The local vectors added on simplex s by the integrators bs that accept it. */
  function VectorsAt(inp: LinearInput, s: Simplex, bs: seq<IntegratorView>): (out: seq<VectorBlock>)
    ensures |out| <= |bs|
  {
    if bs == [] then []
    else
      var b := bs[|bs| - 1];
      VectorsAt(inp, s, bs[..|bs| - 1]) + (if AttributeMatches(b.attrs, s.attr) then [VectorOf(inp, b, s)] else [])
  }

  function VectorsOver(inp: LinearInput, ss: seq<Simplex>, bs: seq<IntegratorView>): seq<VectorBlock>
  {
    if ss == [] then []
    else VectorsOver(inp, ss[..|ss| - 1], bs) + VectorsAt(inp, ss[|ss| - 1], bs)
  }

  lemma {:induction false} VectorsAtFit(inp: LinearInput, s: Simplex, bs: seq<IntegratorView>)
    requires LinearSimplexFits(inp, s)
    requires forall b :: b in bs ==> b in inp.lfis
    ensures AllVectorsFit(VectorsAt(inp, s, bs), inp.size)
  {
    if bs != [] {
      var init := bs[..|bs| - 1];
      var b := bs[|bs| - 1];
      VectorsAtFit(inp, s, init);
      if AttributeMatches(b.attrs, s.attr) {
        assert VectorBlockFits(VectorOf(inp, b, s), inp.size);
        AllVectorsFitConcat(VectorsAt(inp, s, init), [VectorOf(inp, b, s)], inp.size);
      }
    }
  }

  lemma {:induction false} VectorsOverFit(inp: LinearInput, ss: seq<Simplex>, bs: seq<IntegratorView>)
    requires forall k :: 0 <= k < |ss| ==> LinearSimplexFits(inp, ss[k])
    requires forall b :: b in bs ==> b in inp.lfis
    ensures AllVectorsFit(VectorsOver(inp, ss, bs), inp.size)
  {
    if ss != [] {
      var init := ss[..|ss| - 1];
      VectorsOverFit(inp, init, bs);
      VectorsAtFit(inp, ss[|ss| - 1], bs);
      AllVectorsFitConcat(VectorsOver(inp, init, bs), VectorsAt(inp, ss[|ss| - 1], bs), inp.size);
    }
  }

  /** Exactly the matching (simplex, integrator) pairs contribute a local vector. */
  lemma {:induction false} VectorsOverMembers(inp: LinearInput, ss: seq<Simplex>, bs: seq<IntegratorView>)
    ensures forall c :: c in VectorsOver(inp, ss, bs) ==>
      exists s, b :: s in ss && b in bs && AttributeMatches(b.attrs, s.attr) && c == VectorOf(inp, b, s)
    ensures forall s, b :: s in ss && b in bs && AttributeMatches(b.attrs, s.attr) ==>
      VectorOf(inp, b, s) in VectorsOver(inp, ss, bs)
  {
    if ss != [] {
      var init := ss[..|ss| - 1];
      VectorsOverMembers(inp, init, bs);
      VectorsAtMembers(inp, ss[|ss| - 1], bs);
      assert forall s :: s in ss ==> s in init || s == ss[|ss| - 1];
    }
  }

  lemma {:induction false} VectorsAtMembers(inp: LinearInput, s: Simplex, bs: seq<IntegratorView>)
    ensures forall c :: c in VectorsAt(inp, s, bs) ==>
      exists b :: b in bs && AttributeMatches(b.attrs, s.attr) && c == VectorOf(inp, b, s)
    ensures forall b :: b in bs && AttributeMatches(b.attrs, s.attr) ==> VectorOf(inp, b, s) in VectorsAt(inp, s, bs)
  {
    if bs != [] {
      var init := bs[..|bs| - 1];
      VectorsAtMembers(inp, s, init);
      assert forall b :: b in bs ==> b in init || b == bs[|bs| - 1];
    }
  }

  /** Every local vector contributed, in the order the three loops add them. */
  function AllVectors(inp: LinearInput): seq<VectorBlock>
  {
    VectorsOver(inp, inp.elements, OfRegion(inp.lfis, Domain))
    + VectorsOver(inp, inp.boundary, OfRegion(inp.lfis, Boundary))
    + VectorsOver(inp, inp.interface, OfRegion(inp.lfis, Interface))
  }

  lemma AllVectorsOfInputFit(inp: LinearInput)
    requires ValidLinearInput(inp)
    ensures AllVectorsFit(AllVectors(inp), inp.size)
  {
    var d := VectorsOver(inp, inp.elements, OfRegion(inp.lfis, Domain));
    var b := VectorsOver(inp, inp.boundary, OfRegion(inp.lfis, Boundary));
    var i := VectorsOver(inp, inp.interface, OfRegion(inp.lfis, Interface));
    OfRegionMembers(inp.lfis, Domain);
    OfRegionMembers(inp.lfis, Boundary);
    OfRegionMembers(inp.lfis, Interface);
    VectorsOverFit(inp, inp.elements, OfRegion(inp.lfis, Domain));
    VectorsOverFit(inp, inp.boundary, OfRegion(inp.lfis, Boundary));
    VectorsOverFit(inp, inp.interface, OfRegion(inp.lfis, Interface));
    AllVectorsFitConcat(d, b, inp.size);
    AllVectorsFitConcat(d + b, i, inp.size);
  }

  /** The assembled vector: size entries, zero to start with, every
      contributed local vector added to it. */
  function AssembledVector(inp: LinearInput): (v: seq<real>)
    requires ValidLinearInput(inp)
    ensures |v| == inp.size
  {
    AllVectorsOfInputFit(inp);
    AddAllVectors(Zeros(inp.size), AllVectors(inp))
  }

  /** Each entry is the sum of what the contributing local vectors add there. */
  lemma AssembledVectorEntry(inp: LinearInput, a: nat)
    requires ValidLinearInput(inp) && a < inp.size
    ensures AllVectorsFit(AllVectors(inp), inp.size)
    ensures AssembledVector(inp)[a] == VectorSharesOf(AllVectors(inp), inp.size, a)
  {
    AllVectorsOfInputFit(inp);
  }

  lemma {:induction false} NoVectorsWithoutIntegrators(inp: LinearInput, ss: seq<Simplex>)
    ensures VectorsOver(inp, ss, []) == []
  {
    if ss != [] {
      NoVectorsWithoutIntegrators(inp, ss[..|ss| - 1]);
    }
  }

  /** With no integrators the result is the zero vector. */
  lemma NoLinearIntegratorsGiveZero(inp: LinearInput)
    requires ValidLinearInput(inp) && inp.lfis == []
    ensures AssembledVector(inp) == Zeros(inp.size)
  {
    assert OfRegion(inp.lfis, Domain) == [] && OfRegion(inp.lfis, Boundary) == [] && OfRegion(inp.lfis, Interface) == [];
    NoVectorsWithoutIntegrators(inp, inp.elements);
    NoVectorsWithoutIntegrators(inp, inp.boundary);
    NoVectorsWithoutIntegrators(inp, inp.interface);
    assert AllVectors(inp) == [];
  }

  /** Boundary and interface linear integrators only see their own faces,
      domain ones only elements. */
  lemma LinearRegionsAreSeparate(inp: LinearInput)
    ensures forall c :: c in VectorsOver(inp, inp.elements, OfRegion(inp.lfis, Domain)) ==>
      exists s', b' :: s' in inp.elements && b' in inp.lfis && b'.region == Domain
                       && AttributeMatches(b'.attrs, s'.attr) && c == VectorOf(inp, b', s')
    ensures forall c :: c in VectorsOver(inp, inp.boundary, OfRegion(inp.lfis, Boundary)) ==>
      exists s', b' :: s' in inp.boundary && b' in inp.lfis && b'.region == Boundary
                       && AttributeMatches(b'.attrs, s'.attr) && c == VectorOf(inp, b', s')
    ensures forall c :: c in VectorsOver(inp, inp.interface, OfRegion(inp.lfis, Interface)) ==>
      exists s', b' :: s' in inp.interface && b' in inp.lfis && b'.region == Interface
                       && AttributeMatches(b'.attrs, s'.attr) && c == VectorOf(inp, b', s')
  {
    OfRegionMembers(inp.lfis, Domain);
    OfRegionMembers(inp.lfis, Boundary);
    OfRegionMembers(inp.lfis, Interface);
    VectorsOverMembers(inp, inp.elements, OfRegion(inp.lfis, Domain));
    VectorsOverMembers(inp, inp.boundary, OfRegion(inp.lfis, Boundary));
    VectorsOverMembers(inp, inp.interface, OfRegion(inp.lfis, Interface));
  }

  /** The integrator loop on one simplex: each accepting integrator's local
      vector is added in place. */
  method AddVectorsOn(res0: seq<real>, inp: LinearInput, s: Simplex, bs: seq<IntegratorView>)
    returns (res: seq<real>)
    requires |res0| == inp.size
    requires LinearSimplexFits(inp, s)
    requires forall b :: b in bs ==> b in inp.lfis
    ensures AllVectorsFit(VectorsAt(inp, s, bs), inp.size)
    ensures res == AddAllVectors(res0, VectorsAt(inp, s, bs))
  {
    res := res0;
    var l := 0;
    while l < |bs|
      invariant 0 <= l <= |bs|
      invariant AllVectorsFit(VectorsAt(inp, s, bs[..l]), inp.size)
      invariant res == AddAllVectors(res0, VectorsAt(inp, s, bs[..l]))
    {
      assert bs[..l + 1][..l] == bs[..l];
      VectorsAtFit(inp, s, bs[..l + 1]);
      if AttributeMatches(bs[l].attrs, s.attr) {
        var vb := VectorOf(inp, bs[l], s);
        assert VectorBlockFits(vb, inp.size);
        AddAllVectorsSnoc(res0, VectorsAt(inp, s, bs[..l]), vb);
        res := AddElementVector(res, vb);
        assert VectorsAt(inp, s, bs[..l + 1]) == VectorsAt(inp, s, bs[..l]) + [vb];
      } else {
        assert VectorsAt(inp, s, bs[..l + 1]) == VectorsAt(inp, s, bs[..l]);
      }
      l := l + 1;
    }
    assert bs[..|bs|] == bs;
  }

  /** One region loop of the linear assembly. */
  method AddVectorRegion(res0: seq<real>, inp: LinearInput, ss: seq<Simplex>, bs: seq<IntegratorView>)
    returns (res: seq<real>)
    requires |res0| == inp.size
    requires forall k :: 0 <= k < |ss| ==> LinearSimplexFits(inp, ss[k])
    requires forall b :: b in bs ==> b in inp.lfis
    ensures AllVectorsFit(VectorsOver(inp, ss, bs), inp.size)
    ensures res == AddAllVectors(res0, VectorsOver(inp, ss, bs))
  {
    VectorsOverFit(inp, ss, bs);
    res := res0;
    var k := 0;
    while k < |ss|
      invariant 0 <= k <= |ss|
      invariant AllVectorsFit(VectorsOver(inp, ss[..k], bs), inp.size)
      invariant res == AddAllVectors(res0, VectorsOver(inp, ss[..k], bs))
    {
      assert ss[..k + 1][..k] == ss[..k];
      res := AddVectorsOn(res, inp, ss[k], bs);
      AddAllVectorsConcat(res0, VectorsOver(inp, ss[..k], bs), VectorsAt(inp, ss[k], bs));
      k := k + 1;
    }
    assert ss[..|ss|] == ss;
  }

  /** The linear execute(): a zero vector of the space's size, the same
      partition and attribute filter, local vectors added in place. */
  method AssembleLinear(inp: LinearInput) returns (res: seq<real>)
    requires ValidLinearInput(inp)
    ensures |res| == inp.size
    ensures res == AssembledVector(inp)
  {
    res := Zeros(inp.size);
    var domain, boundary, interface := PartitionIntegrators(inp.lfis);
    OfRegionMembers(inp.lfis, Domain);
    OfRegionMembers(inp.lfis, Boundary);
    OfRegionMembers(inp.lfis, Interface);
    res := AddVectorRegion(res, inp, inp.elements, domain);
    res := AddVectorRegion(res, inp, inp.boundary, boundary);
    res := AddVectorRegion(res, inp, inp.interface, interface);
    var d := VectorsOver(inp, inp.elements, domain);
    var b := VectorsOver(inp, inp.boundary, boundary);
    var i := VectorsOver(inp, inp.interface, interface);
    AddAllVectorsConcat(Zeros(inp.size), d, b);
    AddAllVectorsConcat(Zeros(inp.size), d + b, i);
  }
}
