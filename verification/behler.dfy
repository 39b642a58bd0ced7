/** SymmFuncBehler: the Gaussian (Behler) symmetry functions on the CPU
    path. The constructor validates its parameters and fixes the layout;
    calculate zeroes the caller's descriptor and Jacobian buffers and then
    scatter-adds every radial and angular contribution in place. */
module Behler {
  import opened Common
  import opened Layout
  import opened BehlerWrites
  import opened BehlerProps

  /** One `+=` into the descriptor (DataAdd) or the Jacobian (DiffAdd),
      recorded in the ghost log of writes performed since `start`. */
  method ScatterAdd(symmData: array<real>, symmDiff: array<real>, numBasis: nat, w: Write,
                    ghost start: Acc, ghost done: seq<Write>) returns (ghost done': seq<Write>)
    requires symmData != symmDiff
    requires Acc(symmData[..], symmDiff[..]) == Apply(start, numBasis, done)
    requires InBuffer(w, numBasis, symmData.Length, symmDiff.Length)
    modifies symmData, symmDiff
    ensures done' == done + [w]
    ensures Acc(symmData[..], symmDiff[..]) == Apply(start, numBasis, done')
  {
    ghost var prev := Acc(symmData[..], symmDiff[..]);
    match w {
      case DataAdd(row, v) =>
        symmData[row] := symmData[row] + v;
        assert symmData[..] == prev.data[row := prev.data[row] + v];
        assert symmDiff[..] == prev.diff;
      case DiffAdd(row, col, v) =>
        var at := row + col * numBasis;
        symmDiff[at] := symmDiff[at] + v;
        assert symmDiff[..] == prev.diff[at := prev.diff[at] + v];
        assert symmData[..] == prev.data;
    }
    assert Acc(symmData[..], symmDiff[..]) == Step(prev, numBasis, w);
    done' := done + [w];
    ApplySnoc(start, numBasis, done, w);
  }

  /** The scatter-adds ws, one after the other. */
  method ScatterAll(symmData: array<real>, symmDiff: array<real>, numBasis: nat, ws: seq<Write>,
                    ghost start: Acc, ghost done: seq<Write>) returns (ghost done': seq<Write>)
    requires symmData != symmDiff
    requires Acc(symmData[..], symmDiff[..]) == Apply(start, numBasis, done)
    requires forall i :: 0 <= i < |ws| ==> InBuffer(ws[i], numBasis, symmData.Length, symmDiff.Length)
    modifies symmData, symmDiff
    ensures done' == done + ws
    ensures Acc(symmData[..], symmDiff[..]) == Apply(start, numBasis, done')
  {
    done' := done;
    for i := 0 to |ws|
      invariant done' == done + ws[..i]
      invariant Acc(symmData[..], symmDiff[..]) == Apply(start, numBasis, done')
    {
      done' := ScatterAdd(symmData, symmDiff, numBasis, ws[i], start, done');
      assert ws[..i + 1] == ws[..i] + [ws[i]];
    }
    assert ws[..|ws|] == ws;
  }

  class SymmFuncBehler {
    const numElems: nat
    const tanhCutFunc: bool
    const elemWeight: bool
    const sizeRad: nat
    const sizeAng: nat
    const numRadBasis: nat
    const numAngBasis: nat
    const numBasis: nat
    const rcutRad: real
    const rcutAng: real

    // basis parameters, supplied after construction
    var radiusEta: seq<real>
    var radiusShift: seq<real>
    var angleMod: bool
    var angleEta: seq<real>
    var angleZeta: seq<real>
    var angleShift: seq<real>

    /** The object's state as a value, for the specification functions. */
    function Snapshot(): Basis
      reads this
    {
      Basis(numElems, tanhCutFunc, elemWeight, sizeRad, sizeAng, numRadBasis, numAngBasis, numBasis,
            rcutRad, rcutAng, radiusEta, radiusShift, angleMod, angleEta, angleZeta, angleShift)
    }

    /** The layout fixed by the constructor. */
    ghost predicate Layouted()
    {
      && sizeRad >= 1
      && rcutRad > 0.0
      && (sizeAng > 0 ==> rcutAng > 0.0)
      && numRadBasis == NumRadBasis(numElems, elemWeight, sizeRad)
      && numAngBasis == NumAngBasis(numElems, elemWeight, sizeAng)
      && numBasis == numRadBasis + numAngBasis
    }

    /** A failing CheckParams stops the program; the constructor may only be
        reached with parameters that pass it. */
    constructor (numElems: nat, tanhCutFunc: bool, elemWeight: bool, sizeRad: int, sizeAng: int,
                 rcutRad: real, rcutAng: real)
      requires CheckParams(sizeRad, sizeAng, rcutRad, rcutAng).Pass?
      ensures Layouted()
      ensures this.numElems == numElems && this.tanhCutFunc == tanhCutFunc && this.elemWeight == elemWeight
      ensures this.sizeRad == sizeRad && this.sizeAng == sizeAng
      ensures this.rcutRad == rcutRad && this.rcutAng == rcutAng
      ensures elemWeight ==> numRadBasis == sizeRad && numAngBasis == 2 * sizeAng
      ensures !elemWeight ==>
                numRadBasis == sizeRad * numElems && numAngBasis == sizeAng * 2 * (numElems * (numElems + 1) / 2)
      ensures numBasis == numRadBasis + numAngBasis
      ensures radiusEta == [] && radiusShift == []
      ensures !angleMod && angleEta == [] && angleZeta == [] && angleShift == []
    {
      this.numElems := numElems;
      this.tanhCutFunc := tanhCutFunc;
      this.elemWeight := elemWeight;
      this.sizeRad := sizeRad;
      this.sizeAng := sizeAng;
      var nrad, nang;
      if elemWeight {
        nrad, nang := sizeRad, sizeAng * 2;
      } else {
        nrad, nang := sizeRad * numElems, sizeAng * 2 * (numElems * (numElems + 1) / 2);
      }
      this.numRadBasis := nrad;
      this.numAngBasis := nang;
      this.numBasis := nrad + nang;
      this.rcutRad := rcutRad;
      this.rcutAng := rcutAng;
      this.radiusEta := [];
      this.radiusShift := [];
      this.angleMod := false;
      this.angleEta := [];
      this.angleZeta := [];
      this.angleShift := [];
    }

    /** Supplies the radial parameters (eta, shift) per radial mode. */
    method SetRadiusParams(eta: seq<real>, shift: seq<real>)
      modifies this
      ensures radiusEta == eta && radiusShift == shift
      ensures angleMod == old(angleMod) && angleEta == old(angleEta)
      ensures angleZeta == old(angleZeta) && angleShift == old(angleShift)
    {
      radiusEta := eta;
      radiusShift := shift;
    }

    /** Supplies the angular form and parameters (eta, zeta, shift) per angular mode. */
    method SetAngleParams(modulated: bool, eta: seq<real>, zeta: seq<real>, shift: seq<real>)
      modifies this
      ensures angleMod == modulated && angleEta == eta && angleZeta == zeta && angleShift == shift
      ensures radiusEta == old(radiusEta) && radiusShift == old(radiusShift)
    {
      angleMod := modulated;
      angleEta := eta;
      angleZeta := zeta;
      angleShift := shift;
    }

    /** Computes the descriptor vector of one atom into symmData and its
        Jacobian with respect to the neighbour coordinates into symmDiff. A
        missing input or output stops the program before anything is
        written; otherwise both buffers end up as zero plus every
        contribution of CalcWrites. */
    method Calculate(k: Kernels, numNeighbor: nat, elemNeighbor: Option<seq<int>>, posNeighbor: Option<seq<Neighbor>>,
                     symmData: array?<real>, symmDiff: array?<real>) returns (o: Outcome)
      requires Ready(Snapshot())
      requires elemNeighbor.Some? && posNeighbor.Some? ==>
                 ValidNeighbors(Snapshot(), numNeighbor, elemNeighbor.value, posNeighbor.value)
      requires symmData != null ==> symmData.Length >= numBasis
      requires symmDiff != null ==> symmDiff.Length >= DiffLen(numBasis, numNeighbor)
      requires symmData != null && symmDiff != null ==> symmData != symmDiff
      modifies symmData, symmDiff
      ensures o.Fail? <==> elemNeighbor.None? || posNeighbor.None? || symmData == null || symmDiff == null
      ensures o.Fail? ==> (symmData != null ==> unchanged(symmData)) && (symmDiff != null ==> unchanged(symmDiff))
      ensures o.Pass? ==> && elemNeighbor.Some? && posNeighbor.Some? && symmData != null && symmDiff != null
                          && symmData[..numBasis]
                             == Output(Snapshot(), k, numNeighbor, elemNeighbor.value, posNeighbor.value).data
                          && symmDiff[..DiffLen(numBasis, numNeighbor)]
                             == Output(Snapshot(), k, numNeighbor, elemNeighbor.value, posNeighbor.value).diff
                          && symmData[numBasis..] == old(symmData[numBasis..])
                          && symmDiff[DiffLen(numBasis, numNeighbor)..] == old(symmDiff[DiffLen(numBasis, numNeighbor)..])
    {
      if elemNeighbor.None? || posNeighbor.None? {
        return Fail("neighbor is null.");
      }
      if symmData == null {
        return Fail("symmData is null.");
      }
      if symmDiff == null {
        return Fail("symmDiff is null.");
      }
      o := Pass;
      var elems, pos := elemNeighbor.value, posNeighbor.value;
      var b := Snapshot();

      ZeroBuffers(symmData, symmDiff, numBasis, numNeighbor);
      ghost var z := Acc(symmData[..], symmDiff[..]);
      PaddedOutput(b, k, numNeighbor, elems, pos, symmData[numBasis..], symmDiff[DiffLen(numBasis, numNeighbor)..]);

      if numNeighbor < 1 {
        return;
      }

      // radial part
      ghost var radial := AddRadial(b, k, numNeighbor, elems, pos, symmData, symmDiff, z);

      if numNeighbor < 2 || sizeAng < 1 {
        assert radial + [] == radial;
        return;
      }

      // angular part
      ghost var angular := AddAngular(b, k, numNeighbor, elems, pos, symmData, symmDiff, z, radial);
    }
  }

  /** Sets the first numBasis entries of symmData and the first
      numBasis*3*numNeighbor entries of symmDiff to zero; entries past
      those, in a longer caller buffer, keep their values. */
  method ZeroBuffers(symmData: array<real>, symmDiff: array<real>, numBasis: nat, numNeighbor: nat)
    requires symmData != symmDiff
    requires symmData.Length >= numBasis && symmDiff.Length >= DiffLen(numBasis, numNeighbor)
    modifies symmData, symmDiff
    ensures Acc(symmData[..], symmDiff[..])
            == Pad(Zeros(numBasis, numNeighbor), old(symmData[numBasis..]), old(symmDiff[DiffLen(numBasis, numNeighbor)..]))
  {
    ZeroData(symmData, numBasis);
    ZeroDiff(symmDiff, numBasis, numNeighbor);
  }

  /** The descriptor loop: symmData[0 .. numBasis) becomes zero. */
  method ZeroData(symmData: array<real>, numBasis: nat)
    requires symmData.Length >= numBasis
    modifies symmData
    ensures symmData[..] == seq(numBasis, _ => 0.0) + old(symmData[numBasis..])
  {
    for ibase := 0 to numBasis
      invariant forall j :: 0 <= j < ibase ==> symmData[j] == 0.0
      invariant forall j :: numBasis <= j < symmData.Length ==> symmData[j] == old(symmData[j])
    {
      symmData[ibase] := 0.0;
    }
    assert symmData[..] == seq(numBasis, _ => 0.0) + old(symmData[numBasis..]);
  }

  /** The Jacobian loops, column by column: symmDiff[0 .. numBasis*3*numNeighbor)
      becomes zero. */
  method ZeroDiff(symmDiff: array<real>, numBasis: nat, numNeighbor: nat)
    requires symmDiff.Length >= DiffLen(numBasis, numNeighbor)
    modifies symmDiff
    ensures symmDiff[..] == Zeros(numBasis, numNeighbor).diff + old(symmDiff[DiffLen(numBasis, numNeighbor)..])
  {
    var numFree := 3 * numNeighbor;
    ghost var diffLen := DiffLen(numBasis, numNeighbor);
    ghost var cleared := 0;
    for ifree1 := 0 to numFree
      invariant cleared == ifree1 * numBasis <= diffLen
      invariant forall j :: 0 <= j < cleared ==> symmDiff[j] == 0.0
      invariant forall j :: diffLen <= j < symmDiff.Length ==> symmDiff[j] == old(symmDiff[j])
    {
      MulMono(ifree1 + 1, numFree, numBasis);
      for ibase := 0 to numBasis
        invariant cleared + numBasis <= diffLen
        invariant forall j :: 0 <= j < cleared + ibase ==> symmDiff[j] == 0.0
        invariant forall j :: diffLen <= j < symmDiff.Length ==> symmDiff[j] == old(symmDiff[j])
      {
        FlatIndexInRange(ibase, ifree1, numBasis, numNeighbor);
        symmDiff[ibase + ifree1 * numBasis] := 0.0;
      }
      cleared := cleared + numBasis;
      assert cleared == (ifree1 + 1) * numBasis;
    }
    assert cleared == numFree * numBasis == diffLen;
    assert symmDiff[..] == Zeros(numBasis, numNeighbor).diff + old(symmDiff[diffLen..]);
  }

  /** Every write of calculate lands inside the zeroed region, so on
      longer caller buffers the result is Output followed by the caller's
      untouched entries. */
  lemma PaddedOutput(b: Basis, k: Kernels, numNeighbor: nat, elems: seq<int>, pos: seq<Neighbor>,
                     dataTail: seq<real>, diffTail: seq<real>)
    requires Ready(b) && ValidNeighbors(b, numNeighbor, elems, pos)
    ensures Apply(Pad(Zeros(b.numBasis, numNeighbor), dataTail, diffTail), b.numBasis, CalcWrites(b, k, numNeighbor, elems, pos))
            == Pad(Output(b, k, numNeighbor, elems, pos), dataTail, diffTail)
  {
    CalcWritesFit(b, k, numNeighbor, elems, pos);
    ApplyPadded(Zeros(b.numBasis, numNeighbor), b.numBasis, CalcWrites(b, k, numNeighbor, elems, pos), dataTail, diffTail);
  }

  /** What the loops over neighbours need of the object and the call. */
  ghost predicate CallInputs(b: Basis, numNeighbor: nat, elems: seq<int>, pos: seq<Neighbor>,
                             symmData: array<real>, symmDiff: array<real>)
  {
    && Ready(b) && ValidNeighbors(b, numNeighbor, elems, pos)
    && symmData != symmDiff
    && symmData.Length >= b.numBasis && symmDiff.Length >= b.numBasis * 3 * numNeighbor
  }

  /** The radial loop over all neighbours. */
  method AddRadial(b: Basis, k: Kernels, numNeighbor: nat, elems: seq<int>, pos: seq<Neighbor>,
                   symmData: array<real>, symmDiff: array<real>, ghost z: Acc) returns (ghost done: seq<Write>)
    requires CallInputs(b, numNeighbor, elems, pos, symmData, symmDiff)
    requires Acc(symmData[..], symmDiff[..]) == z
    modifies symmData, symmDiff
    ensures done == RadialWrites(b, k, elems, pos, numNeighbor)
    ensures Acc(symmData[..], symmDiff[..]) == Apply(z, b.numBasis, done)
  {
    ghost var blocks: seq<seq<Write>> := [];
    done := [];
    for ineigh1 := 0 to numNeighbor
      invariant |blocks| == ineigh1 && RadialBlocks(b, k, elems, pos, blocks)
      invariant Acc(symmData[..], symmDiff[..]) == Apply(z, b.numBasis, done)
      invariant done == Concat(blocks)
    {
      done, blocks := VisitNeighbor(b, k, numNeighbor, elems, pos, ineigh1, symmData, symmDiff, z, blocks, done);
    }
    RadialBlocksFull(b, k, elems, pos, blocks, numNeighbor);
  }

  /** One iteration of the radial loop: nothing for a neighbour at or
      beyond the radial cutoff. */
  method VisitNeighbor(b: Basis, k: Kernels, numNeighbor: nat, elems: seq<int>, pos: seq<Neighbor>, ineigh1: nat,
                       symmData: array<real>, symmDiff: array<real>,
                       ghost z: Acc, ghost blocks: seq<seq<Write>>, ghost done: seq<Write>)
    returns (ghost done': seq<Write>, ghost blocks': seq<seq<Write>>)
    requires CallInputs(b, numNeighbor, elems, pos, symmData, symmDiff)
    requires ineigh1 < numNeighbor && |blocks| == ineigh1 && RadialBlocks(b, k, elems, pos, blocks)
    requires done == Concat(blocks)
    requires Acc(symmData[..], symmDiff[..]) == Apply(z, b.numBasis, done)
    modifies symmData, symmDiff
    ensures |blocks'| == ineigh1 + 1 && RadialBlocks(b, k, elems, pos, blocks')
    ensures done' == Concat(blocks')
    ensures Acc(symmData[..], symmDiff[..]) == Apply(z, b.numBasis, done')
  {
    ghost var ws := RadialNeighborWrites(b, k, elems[ineigh1], pos[ineigh1], ineigh1);
    RadialBlocksPush(b, k, elems, pos, blocks);
    blocks' := blocks + [ws];
    ConcatPush(blocks, ws);
    var r1 := pos[ineigh1].r;
    if r1 < b.rcutRad {
      done' := AddRadialNeighbor(b, k, numNeighbor, elems, pos, ineigh1, symmData, symmDiff, z, done);
    } else {
      done' := done;
      assert done' == done + [];
    }
  }

  /** The radial modes of one neighbour inside the radial cutoff. */
  method AddRadialNeighbor(b: Basis, k: Kernels, numNeighbor: nat, elems: seq<int>, pos: seq<Neighbor>, ineigh1: nat,
                           symmData: array<real>, symmDiff: array<real>,
                           ghost z: Acc, ghost done: seq<Write>) returns (ghost done': seq<Write>)
    requires CallInputs(b, numNeighbor, elems, pos, symmData, symmDiff)
    requires ineigh1 < numNeighbor
    requires Acc(symmData[..], symmDiff[..]) == Apply(z, b.numBasis, done)
    modifies symmData, symmDiff
    ensures done' == done + RadialModes(b, k, elems[ineigh1], pos[ineigh1], ineigh1, b.sizeRad)
    ensures Acc(symmData[..], symmDiff[..]) == Apply(z, b.numBasis, done')
  {
    ghost var e, n := elems[ineigh1], pos[ineigh1];
    var jelem1, zanum1;
    if b.elemWeight {
      jelem1, zanum1 := 0, elems[ineigh1] as real;
    } else {
      jelem1, zanum1 := elems[ineigh1], 1.0;
    }
    done' := done;
    assert done' == done + RadialModes(b, k, e, n, ineigh1, 0);
    for imode := 0 to b.sizeRad
      invariant Acc(symmData[..], symmDiff[..]) == Apply(z, b.numBasis, done')
      invariant done' == done + RadialModes(b, k, e, n, ineigh1, imode)
    {
      done' := AddRadialMode(b, k, numNeighbor, elems, pos, ineigh1, jelem1, zanum1, imode, symmData, symmDiff,
                             z, done, done');
    }
  }

  /** The four scatter-adds of one radial mode: the value and the gradient
      with respect to the neighbour. */
  method AddRadialMode(b: Basis, k: Kernels, numNeighbor: nat, elems: seq<int>, pos: seq<Neighbor>, ineigh1: nat,
                       jelem1: int, zscale: real, imode: nat, symmData: array<real>, symmDiff: array<real>,
                       ghost z: Acc, ghost start: seq<Write>, ghost done: seq<Write>) returns (ghost done': seq<Write>)
    requires CallInputs(b, numNeighbor, elems, pos, symmData, symmDiff)
    requires ineigh1 < numNeighbor && imode < b.sizeRad
    requires jelem1 == Species(b, elems[ineigh1]) && zscale == RadialScale(b, elems[ineigh1])
    requires done == start + RadialModes(b, k, elems[ineigh1], pos[ineigh1], ineigh1, imode)
    requires Acc(symmData[..], symmDiff[..]) == Apply(z, b.numBasis, done)
    modifies symmData, symmDiff
    ensures done' == start + RadialModes(b, k, elems[ineigh1], pos[ineigh1], ineigh1, imode + 1)
    ensures Acc(symmData[..], symmDiff[..]) == Apply(z, b.numBasis, done')
  {
    var ifree1 := 3 * ineigh1;
    var t := RadialKernel(k, b.radiusEta[imode], b.radiusShift[imode], zscale, pos[ineigh1]);
    var ibase := RadialBase(b, jelem1, imode);
    RadialWritesInBuffer(b, ibase, jelem1, imode, ineigh1, numNeighbor);
    var ws := [DataAdd(ibase, t.g),
               DiffAdd(ibase, ifree1 + 0, t.dg.x), DiffAdd(ibase, ifree1 + 1, t.dg.y), DiffAdd(ibase, ifree1 + 2, t.dg.z)];
    assert ws == RadialModeWrites(b, k, elems[ineigh1], pos[ineigh1], ineigh1, imode);
    done' := ScatterAll(symmData, symmDiff, b.numBasis, ws, z, done);
    ghost var prior := RadialModes(b, k, elems[ineigh1], pos[ineigh1], ineigh1, imode);
    assert RadialModes(b, k, elems[ineigh1], pos[ineigh1], ineigh1, imode + 1) == prior + ws;
    AppendAssoc(start, prior, ws);
  }

  /** The row of a radial mode, computed as the source does: the species
      block, then the mode. */
  method RadialBase(b: Basis, jelem1: int, imode: nat) returns (ibase: int)
    ensures ibase == RadialRow(jelem1, imode, b.sizeRad)
  {
    var jbase := jelem1 * b.sizeRad;
    ibase := imode + jbase;
  }

  /** The four writes of one radial mode land inside the buffers. */
  lemma RadialWritesInBuffer(b: Basis, ibase: int, jelem1: int, imode: nat, ineigh1: nat, numNeighbor: nat)
    requires Ready(b) && imode < b.sizeRad && ineigh1 < numNeighbor
    requires ValidSpecies(b.numElems, b.elemWeight, jelem1)
    requires ibase == RadialRow(jelem1, imode, b.sizeRad)
    ensures 0 <= ibase < b.numBasis
    ensures forall c :: 3 * ineigh1 <= c < 3 * ineigh1 + 3 ==> 0 <= ibase + c * b.numBasis < b.numBasis * 3 * numNeighbor
  {
    RadialRowInRange(b.numElems, b.elemWeight, b.sizeRad, jelem1, imode);
    forall c | 3 * ineigh1 <= c < 3 * ineigh1 + 3
      ensures 0 <= ibase + c * b.numBasis < b.numBasis * 3 * numNeighbor
    {
      FlatIndexInRange(ibase, c, b.numBasis, numNeighbor);
    }
  }

  /** The angular loop nest: outer neighbour ineigh2, inner neighbour
      ineigh1, each visited pair's triplet. The ghost list ps holds every
      pair the nest visits, in order, and blocks the writes of those
      visited so far. */
  method AddAngular(b: Basis, k: Kernels, numNeighbor: nat, elems: seq<int>, pos: seq<Neighbor>,
                    symmData: array<real>, symmDiff: array<real>,
                    ghost z: Acc, ghost done: seq<Write>) returns (ghost done': seq<Write>)
    requires CallInputs(b, numNeighbor, elems, pos, symmData, symmDiff)
    requires Acc(symmData[..], symmDiff[..]) == Apply(z, b.numBasis, done)
    modifies symmData, symmDiff
    ensures done' == done + PairsWrites(b, k, elems, pos, AngularPairs(b, numNeighbor, elems, pos, numNeighbor))
    ensures Acc(symmData[..], symmDiff[..]) == Apply(z, b.numBasis, done')
  {
    ghost var ps := AngularPairs(b, numNeighbor, elems, pos, numNeighbor);
    ghost var blocks: seq<seq<Write>> := [];
    done' := done;
    for ineigh2 := 0 to numNeighbor
      invariant PairBlocks(b, k, elems, pos, ps, blocks)
      invariant ps[..|blocks|] == AngularPairs(b, numNeighbor, elems, pos, ineigh2)
      invariant Acc(symmData[..], symmDiff[..]) == Apply(z, b.numBasis, done')
      invariant done' == done + Concat(blocks)
    {
      done', blocks := VisitRow(b, k, numNeighbor, elems, pos, ineigh2, ps, blocks,
                                symmData, symmDiff, z, done, done');
    }
    assert ps[..|blocks|] == ps;
    PairBlocksFull(b, k, elems, pos, ps, blocks);
  }

  /** One pass of the outer angular loop: a neighbour ineigh2 outside the
      angular cutoff contributes no pairs. */
  method VisitRow(b: Basis, k: Kernels, numNeighbor: nat, elems: seq<int>, pos: seq<Neighbor>, ineigh2: nat,
                  ghost ps: seq<(nat, nat)>, ghost blocks: seq<seq<Write>>,
                  symmData: array<real>, symmDiff: array<real>,
                  ghost z: Acc, ghost start: seq<Write>, ghost done: seq<Write>)
    returns (ghost done': seq<Write>, ghost blocks': seq<seq<Write>>)
    requires CallInputs(b, numNeighbor, elems, pos, symmData, symmDiff)
    requires ineigh2 < numNeighbor
    requires ps == AngularPairs(b, numNeighbor, elems, pos, numNeighbor)
    requires PairBlocks(b, k, elems, pos, ps, blocks)
    requires ps[..|blocks|] == AngularPairs(b, numNeighbor, elems, pos, ineigh2)
    requires done == start + Concat(blocks)
    requires Acc(symmData[..], symmDiff[..]) == Apply(z, b.numBasis, done)
    modifies symmData, symmDiff
    ensures PairBlocks(b, k, elems, pos, ps, blocks')
    ensures ps[..|blocks'|] == AngularPairs(b, numNeighbor, elems, pos, ineigh2 + 1)
    ensures done' == start + Concat(blocks')
    ensures Acc(symmData[..], symmDiff[..]) == Apply(z, b.numBasis, done')
  {
    RowComplete(b, numNeighbor, elems, pos, ineigh2);
    var r2 := pos[ineigh2].r;
    if r2 < b.rcutAng {
      done', blocks' := AddAngularRow(b, k, numNeighbor, elems, pos, ineigh2, ps, blocks,
                                      symmData, symmDiff, z, start, done);
    } else {
      done', blocks' := done, blocks;
    }
  }

  /** The inner loop of the angular nest for one outer neighbour ineigh2
      inside the angular cutoff. */
  method AddAngularRow(b: Basis, k: Kernels, numNeighbor: nat, elems: seq<int>, pos: seq<Neighbor>, ineigh2: nat,
                       ghost ps: seq<(nat, nat)>, ghost blocks: seq<seq<Write>>,
                       symmData: array<real>, symmDiff: array<real>,
                       ghost z: Acc, ghost start: seq<Write>, ghost done: seq<Write>)
    returns (ghost done': seq<Write>, ghost blocks': seq<seq<Write>>)
    requires CallInputs(b, numNeighbor, elems, pos, symmData, symmDiff)
    requires ineigh2 < numNeighbor && pos[ineigh2].r < b.rcutAng
    requires ps == AngularPairs(b, numNeighbor, elems, pos, numNeighbor)
    requires PairBlocks(b, k, elems, pos, ps, blocks)
    requires ps[..|blocks|] == AngularPairs(b, numNeighbor, elems, pos, ineigh2)
    requires done == start + Concat(blocks)
    requires Acc(symmData[..], symmDiff[..]) == Apply(z, b.numBasis, done)
    modifies symmData, symmDiff
    ensures PairBlocks(b, k, elems, pos, ps, blocks')
    ensures ps[..|blocks'|] == AngularPairs(b, numNeighbor, elems, pos, ineigh2)
                               + RowPairs(b, elems, pos, ineigh2, Mneigh(b, numNeighbor, ineigh2))
    ensures done' == start + Concat(blocks')
    ensures Acc(symmData[..], symmDiff[..]) == Apply(z, b.numBasis, done')
  {
    var jelem2, mneigh;
    if b.elemWeight {
      jelem2, mneigh := 0, ineigh2;
    } else {
      jelem2, mneigh := elems[ineigh2], numNeighbor;
    }
    done', blocks' := done, blocks;
    assert ps[..|blocks|] == AngularPairs(b, numNeighbor, elems, pos, ineigh2) + RowPairs(b, elems, pos, ineigh2, 0);
    for ineigh1 := 0 to mneigh
      invariant PairBlocks(b, k, elems, pos, ps, blocks')
      invariant ps[..|blocks'|] == AngularPairs(b, numNeighbor, elems, pos, ineigh2) + RowPairs(b, elems, pos, ineigh2, ineigh1)
      invariant Acc(symmData[..], symmDiff[..]) == Apply(z, b.numBasis, done')
      invariant done' == start + Concat(blocks')
    {
      done', blocks' := VisitPair(b, k, numNeighbor, elems, pos, ineigh1, ineigh2, jelem2, ps, blocks',
                                  symmData, symmDiff, z, start, done');
    }
  }

  /** One iteration of the inner loop: the pair (ineigh1, ineigh2) is
      visited when neighbour 1 lies inside the angular cutoff and, in the
      explicit layout, its species (then its index) comes first. */
  method VisitPair(b: Basis, k: Kernels, numNeighbor: nat, elems: seq<int>, pos: seq<Neighbor>,
                   ineigh1: nat, ineigh2: nat, jelem2: int,
                   ghost ps: seq<(nat, nat)>, ghost blocks: seq<seq<Write>>,
                   symmData: array<real>, symmDiff: array<real>,
                   ghost z: Acc, ghost start: seq<Write>, ghost done: seq<Write>)
    returns (ghost done': seq<Write>, ghost blocks': seq<seq<Write>>)
    requires CallInputs(b, numNeighbor, elems, pos, symmData, symmDiff)
    requires ineigh2 < numNeighbor && pos[ineigh2].r < b.rcutAng && ineigh1 < Mneigh(b, numNeighbor, ineigh2)
    requires jelem2 == Species(b, elems[ineigh2])
    requires ps == AngularPairs(b, numNeighbor, elems, pos, numNeighbor)
    requires PairBlocks(b, k, elems, pos, ps, blocks)
    requires ps[..|blocks|] == AngularPairs(b, numNeighbor, elems, pos, ineigh2) + RowPairs(b, elems, pos, ineigh2, ineigh1)
    requires done == start + Concat(blocks)
    requires Acc(symmData[..], symmDiff[..]) == Apply(z, b.numBasis, done)
    modifies symmData, symmDiff
    ensures PairBlocks(b, k, elems, pos, ps, blocks')
    ensures ps[..|blocks'|] == AngularPairs(b, numNeighbor, elems, pos, ineigh2) + RowPairs(b, elems, pos, ineigh2, ineigh1 + 1)
    ensures done' == start + Concat(blocks')
    ensures Acc(symmData[..], symmDiff[..]) == Apply(z, b.numBasis, done')
  {
    ghost var c := |blocks|;
    NextPair(b, numNeighbor, elems, pos, ps, ineigh2, ineigh1, c);
    done', blocks' := done, blocks;
    var r1 := pos[ineigh1].r;
    if r1 < b.rcutAng {
      var jelem1 := if b.elemWeight then 0 else elems[ineigh1];
      if b.elemWeight || !(jelem1 > jelem2 || (jelem1 == jelem2 && ineigh1 >= ineigh2)) {
        assert Visits(b, elems, pos, ineigh1, ineigh2);
        ghost var ws := PairWrites(b, k, elems, pos, ps[c]);
        PairBlocksPush(b, k, elems, pos, ps, blocks);
        ConcatPush(blocks, ws);
        AppendAssoc(start, Concat(blocks), ws);
        done' := AddPair(b, k, numNeighbor, elems, pos, ineigh1, ineigh2, symmData, symmDiff, z, done);
        blocks' := blocks + [ws];
      }
    }
  }

  /** One visited pair: skipped when, in the full form, the third side
      reaches the angular cutoff; otherwise its triplet is added. */
  method AddPair(b: Basis, k: Kernels, numNeighbor: nat, elems: seq<int>, pos: seq<Neighbor>,
                 ineigh1: nat, ineigh2: nat, symmData: array<real>, symmDiff: array<real>,
                 ghost z: Acc, ghost done: seq<Write>) returns (ghost done': seq<Write>)
    requires PairInputs(b, numNeighbor, elems, pos, ineigh1, ineigh2, symmData, symmDiff)
    requires Acc(symmData[..], symmDiff[..]) == Apply(z, b.numBasis, done)
    modifies symmData, symmDiff
    ensures done' == done + PairWrites(b, k, elems, pos, (ineigh1, ineigh2))
    ensures Acc(symmData[..], symmDiff[..]) == Apply(z, b.numBasis, done')
  {
    var n1, n2 := pos[ineigh1], pos[ineigh2];
    var v3 := Side(n1, n2);
    var rr3 := v3.x * v3.x + v3.y * v3.y + v3.z * v3.z;
    if !b.angleMod && rr3 >= b.rcutAng * b.rcutAng {
      assert ThirdSideTooLong(b, n1, n2);
      done' := done;
      assert done' == done + [];
    } else {
      assert !ThirdSideTooLong(b, n1, n2);
      assert PairWrites(b, k, elems, pos, (ineigh1, ineigh2))
             == LambdaPrefix(b, k, elems[ineigh1], elems[ineigh2], n1, n2, ineigh1, ineigh2, 2);
      done' := AddTriplet(b, k, numNeighbor, elems, pos, ineigh1, ineigh2, symmData, symmDiff, z, done);
    }
  }

  /** What the angular helpers need of the object and the call. */
  ghost predicate PairInputs(b: Basis, numNeighbor: nat, elems: seq<int>, pos: seq<Neighbor>, ineigh1: nat, ineigh2: nat,
                             symmData: array<real>, symmDiff: array<real>)
  {
    && Ready(b) && ValidNeighbors(b, numNeighbor, elems, pos)
    && ineigh1 < numNeighbor && ineigh2 < numNeighbor
    && (!b.elemWeight ==> elems[ineigh1] <= elems[ineigh2])
    && symmData != symmDiff
    && symmData.Length >= b.numBasis && symmDiff.Length >= b.numBasis * 3 * numNeighbor
  }

  /** Both sign branches of one visited pair whose third side is inside
      the cutoff (or in the modulated form); b is the object's state. */
  method AddTriplet(b: Basis, k: Kernels, numNeighbor: nat, elems: seq<int>, pos: seq<Neighbor>,
                    ineigh1: nat, ineigh2: nat, symmData: array<real>, symmDiff: array<real>,
                    ghost z: Acc, ghost done: seq<Write>) returns (ghost done': seq<Write>)
    requires PairInputs(b, numNeighbor, elems, pos, ineigh1, ineigh2, symmData, symmDiff)
    requires Acc(symmData[..], symmDiff[..]) == Apply(z, b.numBasis, done)
    modifies symmData, symmDiff
    ensures done' == done + LambdaPrefix(b, k, elems[ineigh1], elems[ineigh2], pos[ineigh1], pos[ineigh2],
                                         ineigh1, ineigh2, 2)
    ensures Acc(symmData[..], symmDiff[..]) == Apply(z, b.numBasis, done')
  {
    var pg := PairGeometry(b, k, pos[ineigh1], pos[ineigh2]);
    done' := done;
    assert done' == done + LambdaPrefix(b, k, elems[ineigh1], elems[ineigh2], pos[ineigh1], pos[ineigh2],
                                        ineigh1, ineigh2, 0);
    for ilambda := 0 to 2
      invariant Acc(symmData[..], symmDiff[..]) == Apply(z, b.numBasis, done')
      invariant done' == done + LambdaPrefix(b, k, elems[ineigh1], elems[ineigh2], pos[ineigh1], pos[ineigh2],
                                             ineigh1, ineigh2, ilambda)
    {
      done' := AddLambda(b, k, numNeighbor, elems, pos, ineigh1, ineigh2, ilambda, pg,
                         symmData, symmDiff, z, done, done');
    }
  }

  /** One sign branch of a visited pair: its modes are written only when
      chi0 = 1 + lambda*psi reaches the threshold. */
  method AddLambda(b: Basis, k: Kernels, numNeighbor: nat, elems: seq<int>, pos: seq<Neighbor>,
                   ineigh1: nat, ineigh2: nat, ilambda: nat, pg: PairGeom,
                   symmData: array<real>, symmDiff: array<real>,
                   ghost z: Acc, ghost start: seq<Write>, ghost done: seq<Write>) returns (ghost done': seq<Write>)
    requires PairInputs(b, numNeighbor, elems, pos, ineigh1, ineigh2, symmData, symmDiff)
    requires ilambda < 2 && pg == PairGeometry(b, k, pos[ineigh1], pos[ineigh2])
    requires done == start + LambdaPrefix(b, k, elems[ineigh1], elems[ineigh2], pos[ineigh1], pos[ineigh2],
                                          ineigh1, ineigh2, ilambda)
    requires Acc(symmData[..], symmDiff[..]) == Apply(z, b.numBasis, done)
    modifies symmData, symmDiff
    ensures done' == start + LambdaPrefix(b, k, elems[ineigh1], elems[ineigh2], pos[ineigh1], pos[ineigh2],
                                          ineigh1, ineigh2, ilambda + 1)
    ensures Acc(symmData[..], symmDiff[..]) == Apply(z, b.numBasis, done')
  {
    ghost var e1, e2, n1, n2 := elems[ineigh1], elems[ineigh2], pos[ineigh1], pos[ineigh2];
    var chi0 := if ilambda == 0 then 1.0 + pg.psi else 1.0 - pg.psi;
    ghost var prior := LambdaPrefix(b, k, e1, e2, n1, n2, ineigh1, ineigh2, ilambda);
    ghost var ws := LambdaWrites(b, k, e1, e2, n1, n2, ineigh1, ineigh2, ilambda);
    LambdaBranch(b, k, e1, e2, n1, n2, ineigh1, ineigh2, ilambda, pg, chi0);
    if chi0 >= CHI0_THR {
      done' := AddAngularModes(b, k, numNeighbor, elems, pos, ineigh1, ineigh2, ilambda, pg,
                               symmData, symmDiff, z, done);
    } else {
      done' := done;
      assert done' == done + ws;
    }
    AppendAssoc(start, prior, ws);
  }

  /** Which writes a sign branch makes, given chi0 as the loop computes it
      from the pair geometry. */
  lemma LambdaBranch(b: Basis, k: Kernels, e1: int, e2: int, n1: Neighbor, n2: Neighbor,
                     i1: nat, i2: nat, ilambda: nat, pg: PairGeom, chi0: real)
    requires Ready(b) && ilambda < 2 && pg == PairGeometry(b, k, n1, n2)
    requires chi0 == if ilambda == 0 then 1.0 + pg.psi else 1.0 - pg.psi
    ensures LambdaPrefix(b, k, e1, e2, n1, n2, i1, i2, ilambda + 1)
            == LambdaPrefix(b, k, e1, e2, n1, n2, i1, i2, ilambda) + LambdaWrites(b, k, e1, e2, n1, n2, i1, i2, ilambda)
    ensures chi0 < CHI0_THR ==> LambdaWrites(b, k, e1, e2, n1, n2, i1, i2, ilambda) == []
    ensures chi0 >= CHI0_THR ==> LambdaWrites(b, k, e1, e2, n1, n2, i1, i2, ilambda)
                                 == AngularModes(b, k, e1, e2, n1, n2, i1, i2, ilambda, b.sizeAng)
  {
    assert chi0 == Chi0(b, k, n1, n2, ilambda);
  }

  /** All angular modes of one pair and one sign branch. */
  method AddAngularModes(b: Basis, k: Kernels, numNeighbor: nat, elems: seq<int>, pos: seq<Neighbor>,
                         ineigh1: nat, ineigh2: nat, ilambda: nat, pg: PairGeom,
                         symmData: array<real>, symmDiff: array<real>,
                         ghost z: Acc, ghost done: seq<Write>) returns (ghost done': seq<Write>)
    requires PairInputs(b, numNeighbor, elems, pos, ineigh1, ineigh2, symmData, symmDiff)
    requires ilambda < 2 && pg == PairGeometry(b, k, pos[ineigh1], pos[ineigh2])
    requires Acc(symmData[..], symmDiff[..]) == Apply(z, b.numBasis, done)
    modifies symmData, symmDiff
    ensures done' == done + AngularModes(b, k, elems[ineigh1], elems[ineigh2], pos[ineigh1], pos[ineigh2],
                                         ineigh1, ineigh2, ilambda, b.sizeAng)
    ensures Acc(symmData[..], symmDiff[..]) == Apply(z, b.numBasis, done')
  {
    ghost var e1, e2, n1, n2 := elems[ineigh1], elems[ineigh2], pos[ineigh1], pos[ineigh2];
    done' := done;
    assert done' == done + AngularModes(b, k, e1, e2, n1, n2, ineigh1, ineigh2, ilambda, 0);
    for imode := 0 to b.sizeAng
      invariant Acc(symmData[..], symmDiff[..]) == Apply(z, b.numBasis, done')
      invariant done' == done + AngularModes(b, k, e1, e2, n1, n2, ineigh1, ineigh2, ilambda, imode)
    {
      ghost var prior := AngularModes(b, k, e1, e2, n1, n2, ineigh1, ineigh2, ilambda, imode);
      ghost var ws := AngularModeWrites(b, k, e1, e2, n1, n2, ineigh1, ineigh2, ilambda, imode);
      done' := AddAngularMode(b, k, numNeighbor, elems, pos, ineigh1, ineigh2, ilambda, imode, pg,
                              symmData, symmDiff, z, done');
      assert AngularModes(b, k, e1, e2, n1, n2, ineigh1, ineigh2, ilambda, imode + 1) == prior + ws;
      AppendAssoc(done, prior, ws);
    }
  }

  /** The seven scatter-adds of one angular mode: the value and the
      gradients with respect to both neighbours. The modulated form
      (angleMod) leaves out the third side; the full form adds the
      third-side gradient to neighbour 1 and subtracts it from neighbour 2. */
  method AddAngularMode(b: Basis, k: Kernels, numNeighbor: nat, elems: seq<int>, pos: seq<Neighbor>,
                        ineigh1: nat, ineigh2: nat, ilambda: nat, imode: nat, pg: PairGeom,
                        symmData: array<real>, symmDiff: array<real>,
                        ghost z: Acc, ghost done: seq<Write>) returns (ghost done': seq<Write>)
    requires PairInputs(b, numNeighbor, elems, pos, ineigh1, ineigh2, symmData, symmDiff)
    requires ilambda < 2 && imode < b.sizeAng && pg == PairGeometry(b, k, pos[ineigh1], pos[ineigh2])
    requires Acc(symmData[..], symmDiff[..]) == Apply(z, b.numBasis, done)
    modifies symmData, symmDiff
    ensures done' == done + AngularModeWrites(b, k, elems[ineigh1], elems[ineigh2], pos[ineigh1], pos[ineigh2],
                                              ineigh1, ineigh2, ilambda, imode)
    ensures Acc(symmData[..], symmDiff[..]) == Apply(z, b.numBasis, done')
  {
    var n1, n2 := pos[ineigh1], pos[ineigh2];
    var e1, e2 := elems[ineigh1], elems[ineigh2];
    var zscale := AngularScale(b, k, e1, e2);
    var lam := if ilambda == 0 then 1.0 else -1.0;
    var t := AngularKernel(k, !b.angleMod, pg, n1, n2, lam, b.angleEta[imode], b.angleShift[imode], b.angleZeta[imode], zscale);
    assert t == AngularModeTerm(b, k, e1, e2, n1, n2, ilambda, imode);
    var ibase := AngularBase(b, e1, e2, ilambda, imode);
    var ws := ModeWrites(ibase, ineigh1, ineigh2, t, !b.angleMod);
    ModeWritesInBuffer(b, ws, ibase, ineigh1, ineigh2, numNeighbor, Species(b, e1), Species(b, e2), ilambda, imode);
    done' := ScatterAll(symmData, symmDiff, b.numBasis, ws, z, done);
  }

  /** The row of an angular mode, computed as the source does: the species
      pair block, then the sign branch, then the mode. */
  method AngularBase(b: Basis, e1: int, e2: int, ilambda: nat, imode: nat) returns (ibase: int)
    ensures ibase == AngularRow(b.numRadBasis, b.sizeAng, Species(b, e1), Species(b, e2), ilambda, imode)
  {
    var jelem1, jelem2 := 0, 0;
    if !b.elemWeight {
      jelem1, jelem2 := e1, e2;
    }
    var kbase := (jelem1 + jelem2 * (jelem2 + 1) / 2) * 2 * b.sizeAng;
    var jbase := ilambda * b.sizeAng;
    ibase := b.numRadBasis + imode + jbase + kbase;
    assert kbase == PairIndex(jelem1, jelem2) * 2 * b.sizeAng;
  }

  /** The seven writes of one angular mode land inside the buffers. */
  lemma ModeWritesInBuffer(b: Basis, ws: seq<Write>, ibase: int, ineigh1: nat, ineigh2: nat, numNeighbor: nat,
                           jelem1: nat, jelem2: nat, ilambda: nat, imode: nat)
    requires Ready(b) && ilambda < 2 && imode < b.sizeAng
    requires b.elemWeight ==> jelem1 == 0 && jelem2 == 0
    requires !b.elemWeight ==> jelem1 <= jelem2 < b.numElems
    requires ineigh1 < numNeighbor && ineigh2 < numNeighbor
    requires ibase == AngularRow(b.numRadBasis, b.sizeAng, jelem1, jelem2, ilambda, imode)
    requires |ws| == 7 && ws[0].DataAdd? && ws[0].row == ibase
    requires forall j :: 1 <= j < 7 ==> ws[j].DiffAdd? && ws[j].row == ibase
    requires forall j :: 1 <= j < 4 ==> ws[j].col == 3 * ineigh1 + (j - 1)
    requires forall j :: 4 <= j < 7 ==> ws[j].col == 3 * ineigh2 + (j - 4)
    ensures forall i :: 0 <= i < |ws| ==> InBuffer(ws[i], b.numBasis, b.numBasis, DiffLen(b.numBasis, numNeighbor))
  {
    AngularRowInRange(b.numElems, b.elemWeight, b.numRadBasis, b.sizeAng, jelem1, jelem2, ilambda, imode);
    forall i | 1 <= i < 7
      ensures InBuffer(ws[i], b.numBasis, b.numBasis, DiffLen(b.numBasis, numNeighbor))
    {
      FlatIndexInRange(ibase, ws[i].col, b.numBasis, numNeighbor);
    }
  }

  /** A complete use of the class: construct a two-species object, supply
      its radial and angular parameters, and compute one atom with one
      neighbour into buffers one entry longer than needed. The call
      passes, fills the used prefix with Output and keeps the extra entry. */
  method CalculateExample(k: Kernels, n: Neighbor)
    returns (f: SymmFuncBehler, o: Outcome, symmData: array<real>, symmDiff: array<real>)
    ensures Ready(f.Snapshot()) && o.Pass? && f.numBasis == 20
    ensures symmData.Length == 21 && symmDiff.Length == 61
    ensures symmData[..20] == Output(f.Snapshot(), k, 1, [0], [n]).data
    ensures symmDiff[..60] == Output(f.Snapshot(), k, 1, [0], [n]).diff
    ensures symmData[20] == 5.0 && symmDiff[60] == 5.0
  {
    f := new SymmFuncBehler(2, false, false, 4, 2, 6.0, 4.0);
    f.SetRadiusParams([1.0, 1.0, 1.0, 1.0], [0.0, 0.0, 0.0, 0.0]);
    f.SetAngleParams(false, [1.0, 1.0], [1.0, 2.0], [0.0, 0.0]);
    TwoSpeciesLayout();
    symmData := new real[21](_ => 5.0);
    symmDiff := new real[61](_ => 5.0);
    o := f.Calculate(k, 1, Some([0]), Some([n]), symmData, symmDiff);
  }
}
