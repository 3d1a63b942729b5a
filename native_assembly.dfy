/** The older single-pass bilinear assembly: the integrators are visited in
    list order and each domain integrator makes one pass over the elements;
    a boundary or interface integrator is a fatal assertion. */
module NativeAssembly {
  import opened Dense
  import opened Scatter
  import opened Wrappers
  import opened Integrators
  import opened Assembly

  /** This path only reads the elements, so only they need to fit. */
  predicate ElementsFit(inp: BilinearInput)
  {
    forall k :: 0 <= k < |inp.elements| ==> SimplexFits(inp, inp.elements[k])
  }

  predicate AllDomain(bs: seq<IntegratorView>)
  {
    forall k :: 0 <= k < |bs| ==> bs[k].region == Domain
  }

  /** The blocks in the order this path adds them: integrators outside,
      elements inside. */
  function IntegratorMajor(inp: BilinearInput, ss: seq<Simplex>, bs: seq<IntegratorView>): seq<Block>
  {
    if bs == [] then []
    else IntegratorMajor(inp, ss, bs[..|bs| - 1]) + BlocksOver(inp, ss, [bs[|bs| - 1]])
  }

  lemma {:induction false} IntegratorMajorFit(inp: BilinearInput, ss: seq<Simplex>, bs: seq<IntegratorView>)
    requires forall k :: 0 <= k < |ss| ==> SimplexFits(inp, ss[k])
    requires forall b :: b in bs ==> b in inp.bfis
    ensures AllFit(IntegratorMajor(inp, ss, bs), inp.testSize, inp.trialSize)
  {
    if bs != [] {
      var init := bs[..|bs| - 1];
      IntegratorMajorFit(inp, ss, init);
      BlocksOverFit(inp, ss, [bs[|bs| - 1]]);
      AllFitConcat(IntegratorMajor(inp, ss, init), BlocksOver(inp, ss, [bs[|bs| - 1]]), inp.testSize, inp.trialSize);
    }
  }

  /** What execute() returns: the assembled matrix when every integrator is
      a domain integrator, the failed assertion otherwise. */
  function SinglePassAssembled(inp: BilinearInput): (r: Result<Matrix>)
    requires ElementsFit(inp)
    ensures r.Ok? <==> AllDomain(inp.bfis)
    ensures r.Ok? ==> IsMatrix(r.value, inp.testSize, inp.trialSize)
  {
    if !AllDomain(inp.bfis) then Err("assertion failed: boundary or interface integrator")
    else
      IntegratorMajorFit(inp, inp.elements, inp.bfis);
      Ok(AddAll(ZeroMatrix(inp.testSize, inp.trialSize), inp.testSize, inp.trialSize,
                IntegratorMajor(inp, inp.elements, inp.bfis)))
  }

  /** One domain integrator's pass over the elements. */
  method AddIntegratorPass(res0: Matrix, inp: BilinearInput, ss: seq<Simplex>, b: IntegratorView)
    returns (res: Matrix)
    requires IsMatrix(res0, inp.testSize, inp.trialSize)
    requires forall k :: 0 <= k < |ss| ==> SimplexFits(inp, ss[k])
    requires b in inp.bfis
    ensures AllFit(BlocksOver(inp, ss, [b]), inp.testSize, inp.trialSize)
    ensures res == AddAll(res0, inp.testSize, inp.trialSize, BlocksOver(inp, ss, [b]))
  {
    var R, C := inp.testSize, inp.trialSize;
    BlocksOverFit(inp, ss, [b]);
    res := res0;
    var i := 0;
    while i < |ss|
      invariant 0 <= i <= |ss|
      invariant AllFit(BlocksOver(inp, ss[..i], [b]), R, C)
      invariant res == AddAll(res0, R, C, BlocksOver(inp, ss[..i], [b]))
    {
      PassStep(res0, inp, ss, i, b);
      if AttributeMatches(b.attrs, ss[i].attr) {
        res := AddSubMatrix(res, R, C, BlockOf(inp, b, ss[i]));
      }
      i := i + 1;
    }
    assert ss[..|ss|] == ss;
  }

  /** One element of an integrator's pass: its block is added when the
      integrator accepts the element's attribute. */
  lemma PassStep(res0: Matrix, inp: BilinearInput, ss: seq<Simplex>, i: nat, b: IntegratorView)
    requires IsMatrix(res0, inp.testSize, inp.trialSize) && i < |ss|
    requires forall k :: 0 <= k < |ss| ==> SimplexFits(inp, ss[k])
    requires b in inp.bfis
    requires AllFit(BlocksOver(inp, ss[..i], [b]), inp.testSize, inp.trialSize)
    ensures AttributeMatches(b.attrs, ss[i].attr) ==> BlockFits(BlockOf(inp, b, ss[i]), inp.testSize, inp.trialSize)
    ensures AllFit(BlocksOver(inp, ss[..i + 1], [b]), inp.testSize, inp.trialSize)
    ensures AddAll(res0, inp.testSize, inp.trialSize, BlocksOver(inp, ss[..i + 1], [b])) ==
      if AttributeMatches(b.attrs, ss[i].attr) then
        AddSubMatrix(AddAll(res0, inp.testSize, inp.trialSize, BlocksOver(inp, ss[..i], [b])), inp.testSize, inp.trialSize, BlockOf(inp, b, ss[i]))
      else AddAll(res0, inp.testSize, inp.trialSize, BlocksOver(inp, ss[..i], [b]))
  {
    var R, C, s := inp.testSize, inp.trialSize, ss[i];
    assert ss[..i + 1][..i] == ss[..i];
    BlocksAtSingle(inp, s, b);
    BlocksOverFit(inp, ss[..i + 1], [b]);
    if AttributeMatches(b.attrs, s.attr) {
      var blk := BlockOf(inp, b, s);
      assert BlocksOver(inp, ss[..i + 1], [b]) == BlocksOver(inp, ss[..i], [b]) + [blk];
      assert blk in BlocksOver(inp, ss[..i + 1], [b]);
      AddAllSnoc(res0, R, C, BlocksOver(inp, ss[..i], [b]), blk);
    } else {
      assert BlocksOver(inp, ss[..i + 1], [b]) == BlocksOver(inp, ss[..i], [b]);
    }
  }

  /** A single integrator contributes on a simplex iff it accepts its attribute. */
  lemma BlocksAtSingle(inp: BilinearInput, s: Simplex, b: IntegratorView)
    ensures BlocksAt(inp, s, [b]) == if AttributeMatches(b.attrs, s.attr) then [BlockOf(inp, b, s)] else []
  {
    assert [b][..0] == [];
  }

  /** execute(): a zero testSize x trialSize matrix, then the integrators in
      list order. */
  method AssembleSinglePass(inp: BilinearInput) returns (r: Result<Matrix>)
    requires ElementsFit(inp)
    ensures r == SinglePassAssembled(inp)
  {
    var R, C := inp.testSize, inp.trialSize;
    var res := ZeroMatrix(R, C);
    var k := 0;
    while k < |inp.bfis|
      invariant 0 <= k <= |inp.bfis|
      invariant AllDomain(inp.bfis[..k])
      invariant AllFit(IntegratorMajor(inp, inp.elements, inp.bfis[..k]), R, C)
      invariant res == AddAll(ZeroMatrix(R, C), R, C, IntegratorMajor(inp, inp.elements, inp.bfis[..k]))
    {
      var b := inp.bfis[k];
      if b.region != Domain {
        assert !AllDomain(inp.bfis);
        return Err("assertion failed: boundary or interface integrator");
      }
      assert inp.bfis[..k + 1] == inp.bfis[..k] + [b];
      res := AddIntegratorPass(res, inp, inp.elements, b);
      MajorStep(inp, k);
      k := k + 1;
    }
    assert inp.bfis[..|inp.bfis|] == inp.bfis;
    r := Ok(res);
  }

  /** One more integrator of the single pass adds its pass's blocks. */
  lemma MajorStep(inp: BilinearInput, k: nat)
    requires ElementsFit(inp) && k < |inp.bfis|
    requires AllFit(IntegratorMajor(inp, inp.elements, inp.bfis[..k]), inp.testSize, inp.trialSize)
    ensures AllFit(BlocksOver(inp, inp.elements, [inp.bfis[k]]), inp.testSize, inp.trialSize)
    ensures AllFit(IntegratorMajor(inp, inp.elements, inp.bfis[..k + 1]), inp.testSize, inp.trialSize)
    ensures AddAll(ZeroMatrix(inp.testSize, inp.trialSize), inp.testSize, inp.trialSize, IntegratorMajor(inp, inp.elements, inp.bfis[..k + 1])) ==
      AddAll(AddAll(ZeroMatrix(inp.testSize, inp.trialSize), inp.testSize, inp.trialSize, IntegratorMajor(inp, inp.elements, inp.bfis[..k])),
             inp.testSize, inp.trialSize, BlocksOver(inp, inp.elements, [inp.bfis[k]]))
  {
    var R, C := inp.testSize, inp.trialSize;
    assert inp.bfis[..k + 1][..k] == inp.bfis[..k];
    BlocksOverFit(inp, inp.elements, [inp.bfis[k]]);
    AddAllConcat(ZeroMatrix(R, C), R, C, IntegratorMajor(inp, inp.elements, inp.bfis[..k]), BlocksOver(inp, inp.elements, [inp.bfis[k]]));
  }

  // ----- agreement with the region-partitioned assembly -----

  lemma BlocksAtSnoc(inp: BilinearInput, s: Simplex, bs: seq<IntegratorView>, b: IntegratorView)
    ensures BlocksAt(inp, s, bs + [b]) == BlocksAt(inp, s, bs) + BlocksAt(inp, s, [b])
  {
    assert (bs + [b])[..|bs + [b]| - 1] == bs;
    assert [b][..0] == [];
  }

  /** Appending an integrator to the list adds its pass's shares. */
  lemma {:induction false} SharesOverSnoc(inp: BilinearInput, ss: seq<Simplex>, bs: seq<IntegratorView>,
                                          b: IntegratorView, a: nat, c: nat)
    requires forall k :: 0 <= k < |ss| ==> SimplexFits(inp, ss[k])
    requires forall x :: x in bs ==> x in inp.bfis
    requires b in inp.bfis
    ensures AllFit(BlocksOver(inp, ss, bs), inp.testSize, inp.trialSize)
    ensures AllFit(BlocksOver(inp, ss, [b]), inp.testSize, inp.trialSize)
    ensures AllFit(BlocksOver(inp, ss, bs + [b]), inp.testSize, inp.trialSize)
    ensures SharesOf(BlocksOver(inp, ss, bs + [b]), inp.testSize, inp.trialSize, a, c)
      == SharesOf(BlocksOver(inp, ss, bs), inp.testSize, inp.trialSize, a, c)
         + SharesOf(BlocksOver(inp, ss, [b]), inp.testSize, inp.trialSize, a, c)
  {
    var R, C := inp.testSize, inp.trialSize;
    BlocksOverFit(inp, ss, bs);
    BlocksOverFit(inp, ss, [b]);
    BlocksOverFit(inp, ss, bs + [b]);
    if ss != [] {
      var init := ss[..|ss| - 1];
      var s := ss[|ss| - 1];
      SharesOverSnoc(inp, init, bs, b, a, c);
      BlocksAtSnoc(inp, s, bs, b);
      BlocksAtFit(inp, s, bs);
      BlocksAtFit(inp, s, [b]);
      SharesOfConcat(BlocksOver(inp, init, bs + [b]), BlocksAt(inp, s, bs + [b]), R, C, a, c);
      SharesOfConcat(BlocksAt(inp, s, bs), BlocksAt(inp, s, [b]), R, C, a, c);
      SharesOfConcat(BlocksOver(inp, init, bs), BlocksAt(inp, s, bs), R, C, a, c);
      SharesOfConcat(BlocksOver(inp, init, [b]), BlocksAt(inp, s, [b]), R, C, a, c);
    }
  }

  /** Swapping the loops does not change what any entry receives. */
  lemma {:induction false} LoopOrderIrrelevant(inp: BilinearInput, ss: seq<Simplex>, bs: seq<IntegratorView>, a: nat, c: nat)
    requires forall k :: 0 <= k < |ss| ==> SimplexFits(inp, ss[k])
    requires forall x :: x in bs ==> x in inp.bfis
    ensures AllFit(BlocksOver(inp, ss, bs), inp.testSize, inp.trialSize)
    ensures AllFit(IntegratorMajor(inp, ss, bs), inp.testSize, inp.trialSize)
    ensures SharesOf(BlocksOver(inp, ss, bs), inp.testSize, inp.trialSize, a, c)
      == SharesOf(IntegratorMajor(inp, ss, bs), inp.testSize, inp.trialSize, a, c)
  {
    BlocksOverFit(inp, ss, bs);
    IntegratorMajorFit(inp, ss, bs);
    if bs == [] {
      NoBlocksWithoutIntegrators(inp, ss);
    } else {
      var init := bs[..|bs| - 1];
      var b := bs[|bs| - 1];
      assert bs == init + [b];
      LoopOrderIrrelevant(inp, ss, init, a, c);
      SharesOverSnoc(inp, ss, init, b, a, c);
      IntegratorMajorFit(inp, ss, init);
      SharesOfConcat(IntegratorMajor(inp, ss, init), BlocksOver(inp, ss, [b]), inp.testSize, inp.trialSize, a, c);
    }
  }

  lemma {:induction false} OfRegionAllDomain(bs: seq<IntegratorView>)
    requires AllDomain(bs)
    ensures OfRegion(bs, Domain) == bs
    ensures OfRegion(bs, Boundary) == [] && OfRegion(bs, Interface) == []
  {
    if bs != [] {
      OfRegionAllDomain(bs[..|bs| - 1]);
      assert bs == bs[..|bs| - 1] + [bs[|bs| - 1]];
    }
  }

  /** With domain integrators only, the single-pass path and the
      region-partitioned assembly give the same matrix. */
  lemma SinglePassAgreesWithNative(inp: BilinearInput)
    requires ValidBilinearInput(inp) && AllDomain(inp.bfis)
    ensures SinglePassAssembled(inp) == Ok(Assembled(inp))
  {
    var R, C := inp.testSize, inp.trialSize;
    OfRegionAllDomain(inp.bfis);
    NoBlocksWithoutIntegrators(inp, inp.boundary);
    NoBlocksWithoutIntegrators(inp, inp.interface);
    assert AllBlocks(inp) == BlocksOver(inp, inp.elements, inp.bfis);
    IntegratorMajorFit(inp, inp.elements, inp.bfis);
    AllBlocksFit(inp);
    var lhs := SinglePassAssembled(inp).value;
    var rhs := Assembled(inp);
    assert lhs == AddAll(ZeroMatrix(R, C), R, C, IntegratorMajor(inp, inp.elements, inp.bfis));
    assert rhs == AddAll(ZeroMatrix(R, C), R, C, BlocksOver(inp, inp.elements, inp.bfis));
    assert IsMatrix(lhs, R, C) && IsMatrix(rhs, R, C);
    forall x | 0 <= x < R ensures lhs[x] == rhs[x] {
      forall y | 0 <= y < C ensures lhs[x][y] == rhs[x][y] {
        LoopOrderIrrelevant(inp, inp.elements, inp.bfis, x, y);
      }
    }
    assert lhs == rhs;
    assert SinglePassAssembled(inp) == Ok(lhs);
  }
}
