/** What the writes of SymmFuncBehler::calculate promise: every scatter-add
    lands inside the caller's buffers, radial rows in the radial block and
    angular rows behind it; the skip rules add nothing; a call whose
    neighbours all lie beyond both cutoffs leaves both buffers zero. */
module BehlerProps {
  import opened Common
  import opened Layout
  import opened BehlerWrites
  import opened BehlerPairs

  /** The write touches a row in [lo, hi) and, for the Jacobian, one of
      the 3*numNeighbor coordinate columns. */
  predicate Lands(w: Write, lo: int, hi: int, numNeighbor: nat)
  {
    && lo <= w.row < hi
    && (w.DiffAdd? ==> 0 <= w.col < 3 * numNeighbor)
  }

  predicate AllLand(ws: seq<Write>, lo: int, hi: int, numNeighbor: nat)
  {
    forall i :: 0 <= i < |ws| ==> Lands(ws[i], lo, hi, numNeighbor)
  }

  lemma AllLandAppend(ws: seq<Write>, vs: seq<Write>, lo: int, hi: int, numNeighbor: nat)
    requires AllLand(ws, lo, hi, numNeighbor) && AllLand(vs, lo, hi, numNeighbor)
    ensures AllLand(ws + vs, lo, hi, numNeighbor)
  {
    forall i | 0 <= i < |ws + vs|
      ensures Lands((ws + vs)[i], lo, hi, numNeighbor)
    {
      if i >= |ws| {
        assert (ws + vs)[i] == vs[i - |ws|];
      }
    }
  }

  /** Blocks that all land concatenate to writes that all land. */
  lemma {:induction false} ConcatLands(wss: seq<seq<Write>>, lo: int, hi: int, numNeighbor: nat)
    requires forall j :: 0 <= j < |wss| ==> AllLand(wss[j], lo, hi, numNeighbor)
    ensures AllLand(Concat(wss), lo, hi, numNeighbor)
  {
    if |wss| > 0 {
      ConcatLands(wss[..|wss| - 1], lo, hi, numNeighbor);
      AllLandAppend(Concat(wss[..|wss| - 1]), wss[|wss| - 1], lo, hi, numNeighbor);
    }
  }

  /** A write that lands inside [0, numBasis) and the coordinate columns
      lies inside both buffers. */
  lemma LandsInBuffer(ws: seq<Write>, lo: int, hi: int, numBasis: nat, numNeighbor: nat)
    requires 0 <= lo && hi <= numBasis && AllLand(ws, lo, hi, numNeighbor)
    ensures forall i :: 0 <= i < |ws| ==> InBuffer(ws[i], numBasis, numBasis, DiffLen(numBasis, numNeighbor))
  {
    forall i | 0 <= i < |ws|
      ensures InBuffer(ws[i], numBasis, numBasis, DiffLen(numBasis, numNeighbor))
    {
      if ws[i].DiffAdd? {
        FlatIndexInRange(ws[i].row, ws[i].col, numBasis, numNeighbor);
      }
    }
  }

  // ---------------------------------------------------------------------
  // Radial writes

  /** Radial mode imode of neighbour i writes row imode + jelem*sizeRad of
      the radial block and neighbour i's three columns. */
  lemma RadialModeLands(b: Basis, k: Kernels, e: int, n: Neighbor, i: nat, imode: nat, numNeighbor: nat)
    requires Ready(b) && imode < b.sizeRad && i < numNeighbor
    requires ValidSpecies(b.numElems, b.elemWeight, Species(b, e))
    ensures AllLand(RadialModeWrites(b, k, e, n, i, imode), 0, b.numRadBasis, numNeighbor)
  {
    RadialRowInRange(b.numElems, b.elemWeight, b.sizeRad, Species(b, e), imode);
  }

  lemma {:induction false} RadialModesLand(b: Basis, k: Kernels, e: int, n: Neighbor, i: nat, m: nat, numNeighbor: nat)
    requires Ready(b) && m <= b.sizeRad && i < numNeighbor
    requires ValidSpecies(b.numElems, b.elemWeight, Species(b, e))
    ensures AllLand(RadialModes(b, k, e, n, i, m), 0, b.numRadBasis, numNeighbor)
  {
    if m > 0 {
      RadialModesLand(b, k, e, n, i, m - 1, numNeighbor);
      RadialModeLands(b, k, e, n, i, m - 1, numNeighbor);
      AllLandAppend(RadialModes(b, k, e, n, i, m - 1), RadialModeWrites(b, k, e, n, i, m - 1),
                    0, b.numRadBasis, numNeighbor);
    }
  }

  /** Every radial write of the call lands in the radial block. */
  lemma RadialWritesLand(b: Basis, k: Kernels, numNeighbor: nat, elems: seq<int>, pos: seq<Neighbor>)
    requires Ready(b) && ValidNeighbors(b, numNeighbor, elems, pos)
    ensures AllLand(RadialWrites(b, k, elems, pos, numNeighbor), 0, b.numRadBasis, numNeighbor)
  {
    var t := RadialTable(b, k, elems, pos, numNeighbor);
    forall j | 0 <= j < |t|
      ensures AllLand(t[j], 0, b.numRadBasis, numNeighbor)
    {
      RadialTableAt(b, k, elems, pos, numNeighbor, j);
      RadialModesLand(b, k, elems[j], pos[j], j, b.sizeRad, numNeighbor);
    }
    ConcatLands(t, 0, b.numRadBasis, numNeighbor);
  }

  // ---------------------------------------------------------------------
  // Angular writes

  /** What the angular row computation needs of a visited pair. */
  predicate PairSpecies(b: Basis, numNeighbor: nat, elems: seq<int>, i1: nat, i2: nat)
    requires i1 < |elems| && i2 < |elems|
  {
    && i1 < numNeighbor && i2 < numNeighbor
    && ValidSpecies(b.numElems, b.elemWeight, Species(b, elems[i1]))
    && ValidSpecies(b.numElems, b.elemWeight, Species(b, elems[i2]))
    && (!b.elemWeight ==> elems[i1] <= elems[i2])
  }

  lemma AngularModeLands(b: Basis, k: Kernels, numNeighbor: nat, elems: seq<int>, n1: Neighbor, n2: Neighbor,
                         i1: nat, i2: nat, ilambda: nat, imode: nat)
    requires Ready(b) && ilambda < 2 && imode < b.sizeAng && i1 < |elems| && i2 < |elems|
    requires PairSpecies(b, numNeighbor, elems, i1, i2)
    ensures AllLand(AngularModeWrites(b, k, elems[i1], elems[i2], n1, n2, i1, i2, ilambda, imode),
                    b.numRadBasis, b.numBasis, numNeighbor)
  {
    AngularRowInRange(b.numElems, b.elemWeight, b.numRadBasis, b.sizeAng,
                      Species(b, elems[i1]), Species(b, elems[i2]), ilambda, imode);
  }

  lemma {:induction false} AngularModesLand(b: Basis, k: Kernels, numNeighbor: nat, elems: seq<int>,
                                            n1: Neighbor, n2: Neighbor, i1: nat, i2: nat, ilambda: nat, m: nat)
    requires Ready(b) && ilambda < 2 && m <= b.sizeAng && i1 < |elems| && i2 < |elems|
    requires PairSpecies(b, numNeighbor, elems, i1, i2)
    ensures AllLand(AngularModes(b, k, elems[i1], elems[i2], n1, n2, i1, i2, ilambda, m),
                    b.numRadBasis, b.numBasis, numNeighbor)
  {
    if m > 0 {
      AngularModesLand(b, k, numNeighbor, elems, n1, n2, i1, i2, ilambda, m - 1);
      AngularModeLands(b, k, numNeighbor, elems, n1, n2, i1, i2, ilambda, m - 1);
      AllLandAppend(AngularModes(b, k, elems[i1], elems[i2], n1, n2, i1, i2, ilambda, m - 1),
                    AngularModeWrites(b, k, elems[i1], elems[i2], n1, n2, i1, i2, ilambda, m - 1),
                    b.numRadBasis, b.numBasis, numNeighbor);
    }
  }

  /** Both sign branches of a visited pair land in the angular block. */
  lemma {:induction false} LambdaPrefixLands(b: Basis, k: Kernels, numNeighbor: nat, elems: seq<int>, n1: Neighbor, n2: Neighbor,
                          i1: nat, i2: nat, m: nat)
    requires Ready(b) && m <= 2 && i1 < |elems| && i2 < |elems|
    requires PairSpecies(b, numNeighbor, elems, i1, i2)
    ensures AllLand(LambdaPrefix(b, k, elems[i1], elems[i2], n1, n2, i1, i2, m), b.numRadBasis, b.numBasis, numNeighbor)
  {
    if m > 0 {
      LambdaPrefixLands(b, k, numNeighbor, elems, n1, n2, i1, i2, m - 1);
      AngularModesLand(b, k, numNeighbor, elems, n1, n2, i1, i2, m - 1, b.sizeAng);
      AllLandAppend(LambdaPrefix(b, k, elems[i1], elems[i2], n1, n2, i1, i2, m - 1),
                    LambdaWrites(b, k, elems[i1], elems[i2], n1, n2, i1, i2, m - 1),
                    b.numRadBasis, b.numBasis, numNeighbor);
    }
  }

  /** Every angular write of the call lands in the angular block. */
  lemma AngularWritesLand(b: Basis, k: Kernels, numNeighbor: nat, elems: seq<int>, pos: seq<Neighbor>)
    requires Ready(b) && ValidNeighbors(b, numNeighbor, elems, pos)
    ensures AllLand(PairsWrites(b, k, elems, pos, AngularPairs(b, numNeighbor, elems, pos, numNeighbor)),
                    b.numRadBasis, b.numBasis, numNeighbor)
  {
    var ps := AngularPairs(b, numNeighbor, elems, pos, numNeighbor);
    var t := PairTable(b, k, elems, pos, ps);
    AngularPairsSpec(b, numNeighbor, elems, pos, numNeighbor);
    forall j | 0 <= j < |t|
      ensures AllLand(t[j], b.numRadBasis, b.numBasis, numNeighbor)
    {
      PairTableAt(b, k, elems, pos, ps, j);
      var (i1, i2) := ps[j];
      assert Pairable(b, numNeighbor, elems, pos, ps[j]);
      LambdaPrefixLands(b, k, numNeighbor, elems, pos[i1], pos[i2], i1, i2, 2);
    }
    ConcatLands(t, b.numRadBasis, b.numBasis, numNeighbor);
  }

  // ---------------------------------------------------------------------
  // The whole call

  /** Every scatter-add of calculate lands inside symmData (numBasis
      entries) and symmDiff (numBasis*3*numNeighbor entries): radial rows
      in [0, numRadBasis), angular rows in [numRadBasis, numBasis). No write
      of the call relies on the guard of Step. */
  lemma CalcWritesFit(b: Basis, k: Kernels, numNeighbor: nat, elems: seq<int>, pos: seq<Neighbor>)
    requires Ready(b) && ValidNeighbors(b, numNeighbor, elems, pos)
    ensures AllLand(RadialWrites(b, k, elems, pos, numNeighbor), 0, b.numRadBasis, numNeighbor)
    ensures AllLand(PairsWrites(b, k, elems, pos, AngularPairs(b, numNeighbor, elems, pos, numNeighbor)),
                    b.numRadBasis, b.numBasis, numNeighbor)
    ensures forall i :: 0 <= i < |CalcWrites(b, k, numNeighbor, elems, pos)| ==>
              InBuffer(CalcWrites(b, k, numNeighbor, elems, pos)[i], b.numBasis, b.numBasis, DiffLen(b.numBasis, numNeighbor))
  {
    var rad := RadialWrites(b, k, elems, pos, numNeighbor);
    var ang := PairsWrites(b, k, elems, pos, AngularPairs(b, numNeighbor, elems, pos, numNeighbor));
    RadialWritesLand(b, k, numNeighbor, elems, pos);
    AngularWritesLand(b, k, numNeighbor, elems, pos);
    LandsInBuffer(rad, 0, b.numBasis, b.numBasis, numNeighbor);
    LandsInBuffer(ang, 0, b.numBasis, b.numBasis, numNeighbor);
    var ws := CalcWrites(b, k, numNeighbor, elems, pos);
    forall i | 0 <= i < |ws|
      ensures InBuffer(ws[i], b.numBasis, b.numBasis, DiffLen(b.numBasis, numNeighbor))
    {
      if i >= |rad| {
        assert ws[i] == ang[i - |rad|];
      } else {
        assert ws[i] == rad[i];
      }
    }
  }

  // ---------------------------------------------------------------------
  // Skip rules

  /** Blocks that are all empty concatenate to nothing. */
  lemma {:induction false} ConcatEmpty(wss: seq<seq<Write>>)
    requires forall j :: 0 <= j < |wss| ==> wss[j] == []
    ensures Concat(wss) == []
  {
    if |wss| > 0 {
      ConcatEmpty(wss[..|wss| - 1]);
    }
  }

  /** A visited pair whose third side reaches the angular cutoff (full
      three-body form), or whose two sign branches both fall below the chi0
      threshold, adds nothing. */
  lemma PairSkips(b: Basis, k: Kernels, elems: seq<int>, pos: seq<Neighbor>, i1: nat, i2: nat)
    requires Ready(b) && i1 < |elems| && i1 < |pos| && i2 < |elems| && i2 < |pos|
    requires ThirdSideTooLong(b, pos[i1], pos[i2])
             || (Chi0(b, k, pos[i1], pos[i2], 0) < CHI0_THR && Chi0(b, k, pos[i1], pos[i2], 1) < CHI0_THR)
    ensures PairWrites(b, k, elems, pos, (i1, i2)) == []
  {
  }

  /** With no angular modes a visited pair adds nothing. */
  lemma NoAngularModesNoWrites(b: Basis, k: Kernels, elems: seq<int>, pos: seq<Neighbor>, p: (nat, nat))
    requires Ready(b) && b.sizeAng == 0
    ensures PairWrites(b, k, elems, pos, p) == []
  {
    var (i1, i2) := p;
    if i1 < |elems| && i1 < |pos| && i2 < |elems| && i2 < |pos| && !ThirdSideTooLong(b, pos[i1], pos[i2]) {
      var e1, e2, n1, n2 := elems[i1], elems[i2], pos[i1], pos[i2];
      assert LambdaWrites(b, k, e1, e2, n1, n2, i1, i2, 0) == [];
      assert LambdaWrites(b, k, e1, e2, n1, n2, i1, i2, 1) == [];
      assert LambdaPrefix(b, k, e1, e2, n1, n2, i1, i2, 1) == [];
    }
  }

  /** The early return of the angular part (fewer than two neighbours or
      no angular modes) is only a shortcut: the full enumeration would add
      nothing either. */
  lemma AngularSkipIsShortcut(b: Basis, k: Kernels, numNeighbor: nat, elems: seq<int>, pos: seq<Neighbor>)
    requires Ready(b) && |elems| >= numNeighbor && |pos| >= numNeighbor && numNeighbor >= 1
    ensures CalcWrites(b, k, numNeighbor, elems, pos)
            == RadialWrites(b, k, elems, pos, numNeighbor)
               + PairsWrites(b, k, elems, pos, AngularPairs(b, numNeighbor, elems, pos, numNeighbor))
  {
    var ps := AngularPairs(b, numNeighbor, elems, pos, numNeighbor);
    var rad := RadialWrites(b, k, elems, pos, numNeighbor);
    if numNeighbor < 2 {
      FewNeighborsNoPairs(b, numNeighbor, elems, pos);
      assert PairsWrites(b, k, elems, pos, ps) == [];
      assert rad + [] == rad;
    } else if b.sizeAng < 1 {
      var t := PairTable(b, k, elems, pos, ps);
      forall j | 0 <= j < |t|
        ensures t[j] == []
      {
        PairTableAt(b, k, elems, pos, ps, j);
        NoAngularModesNoWrites(b, k, elems, pos, ps[j]);
      }
      ConcatEmpty(t);
      assert rad + [] == rad;
    }
  }

  /** A neighbour at or beyond both cutoffs contributes nothing: its radial
      block is empty and it takes part in no visited pair. */
  lemma FarNeighborSilent(b: Basis, k: Kernels, numNeighbor: nat, elems: seq<int>, pos: seq<Neighbor>, i: nat)
    requires Ready(b) && |elems| >= numNeighbor && |pos| >= numNeighbor && i < numNeighbor
    requires pos[i].r >= b.rcutRad && pos[i].r >= b.rcutAng
    ensures RadialTable(b, k, elems, pos, numNeighbor)[i] == []
    ensures forall j :: 0 <= j < |AngularPairs(b, numNeighbor, elems, pos, numNeighbor)| ==>
              AngularPairs(b, numNeighbor, elems, pos, numNeighbor)[j].0 != i
              && AngularPairs(b, numNeighbor, elems, pos, numNeighbor)[j].1 != i
  {
    RadialTableAt(b, k, elems, pos, numNeighbor, i);
    FarNeighborUnpaired(b, numNeighbor, elems, pos, i);
  }

  /** When every neighbour lies at or beyond both cutoffs (in particular
      when there are none), calculate leaves both buffers zero. */
  lemma AllFarZero(b: Basis, k: Kernels, numNeighbor: nat, elems: seq<int>, pos: seq<Neighbor>)
    requires Ready(b) && |elems| >= numNeighbor && |pos| >= numNeighbor
    requires forall i :: 0 <= i < numNeighbor ==> pos[i].r >= b.rcutRad && pos[i].r >= b.rcutAng
    ensures Output(b, k, numNeighbor, elems, pos) == Zeros(b.numBasis, numNeighbor)
  {
    if numNeighbor >= 1 {
      var t := RadialTable(b, k, elems, pos, numNeighbor);
      forall j | 0 <= j < |t|
        ensures t[j] == []
      {
        RadialTableAt(b, k, elems, pos, numNeighbor, j);
      }
      ConcatEmpty(t);
      var ps := AngularPairs(b, numNeighbor, elems, pos, numNeighbor);
      AngularPairsSpec(b, numNeighbor, elems, pos, numNeighbor);
      assert |ps| == 0 || Pairable(b, numNeighbor, elems, pos, ps[0]);
      AngularSkipIsShortcut(b, k, numNeighbor, elems, pos);
      assert CalcWrites(b, k, numNeighbor, elems, pos) == [];
    }
  }

  /** In the full three-body form the third-side gradient is added to
      neighbour 1's columns and subtracted from neighbour 2's: per axis the
      two columns together carry only the gradients with respect to the
      two neighbours. In the modulated form each column carries its own
      neighbour's gradient alone. */
  lemma ThirdSideCancels(ibase: int, i1: nat, i2: nat, t: AngularTerm, threeBody: bool)
    ensures ModeWrites(ibase, i1, i2, t, threeBody)[1].value + ModeWrites(ibase, i1, i2, t, threeBody)[4].value
            == t.d1.x + t.d2.x
    ensures ModeWrites(ibase, i1, i2, t, threeBody)[2].value + ModeWrites(ibase, i1, i2, t, threeBody)[5].value
            == t.d1.y + t.d2.y
    ensures ModeWrites(ibase, i1, i2, t, threeBody)[3].value + ModeWrites(ibase, i1, i2, t, threeBody)[6].value
            == t.d1.z + t.d2.z
    ensures !threeBody ==>
              && ModeWrites(ibase, i1, i2, t, threeBody)[1].value == t.d1.x
              && ModeWrites(ibase, i1, i2, t, threeBody)[4].value == t.d2.x
    ensures threeBody ==>
              && ModeWrites(ibase, i1, i2, t, threeBody)[1].value == t.d1.x + t.d3.x
              && ModeWrites(ibase, i1, i2, t, threeBody)[4].value == t.d2.x - t.d3.x
  {
  }
}
