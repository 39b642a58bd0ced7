/** The basis layout of the Behler descriptor: parameter validation at
    construction, the sizes of the radial and angular blocks under the two
    layout policies, and the flat offsets at which calculate writes. */
module Layout {
  import opened Common

  /** The four fatal checks of the SymmFuncBehler constructor, in the
      order it performs them. */
  function CheckParams(sizeRad: int, sizeAng: int, rcutRad: real, rcutAng: real): (o: Outcome)
    ensures o.Pass? <==> sizeRad >= 1 && sizeAng >= 0 && rcutRad > 0.0 && (sizeAng > 0 ==> rcutAng > 0.0)
    ensures o.Fail? && sizeRad >= 1 && sizeAng >= 0 && rcutRad > 0.0 ==> o.message == "cutoff for angle is not positive."
  {
    if sizeRad < 1 then Fail("size of radius basis is not positive.")
    else if sizeAng < 0 then Fail("size of angle basis is negative.")
    else if rcutRad <= 0.0 then Fail("cutoff for radius is not positive.")
    else if sizeAng > 0 && rcutAng <= 0.0 then Fail("cutoff for angle is not positive.")
    else Pass
  }

  /** Triangular numbers 0, 1, 3, 6, ...: the recursive reading of j*(j+1)/2. */
  function Tri(j: nat): nat
  {
    if j == 0 then 0 else Tri(j - 1) + j
  }

  lemma {:induction false} TriClosed(j: nat)
    ensures Tri(j) == j * (j + 1) / 2
  {
    if j > 0 {
      TriClosed(j - 1);
      assert j * (j + 1) == (j - 1) * j + 2 * j;
    }
  }

  lemma {:induction false} TriMonotone(i: nat, j: nat)
    requires i <= j
    ensures Tri(i) <= Tri(j)
    ensures i < j ==> Tri(i) + i < Tri(j)
  {
    if i < j {
      TriMonotone(i, j - 1);
    }
  }

  /** Number of unordered species pairs (with repetition): numElems*(numElems+1)/2. */
  function NumPairs(numElems: nat): nat
  {
    numElems * (numElems + 1) / 2
  }

  function NumRadBasis(numElems: nat, elemWeight: bool, sizeRad: nat): nat
  {
    if elemWeight then sizeRad else sizeRad * numElems
  }

  function NumAngBasis(numElems: nat, elemWeight: bool, sizeAng: nat): nat
  {
    if elemWeight then sizeAng * 2 else sizeAng * 2 * NumPairs(numElems)
  }

  /** The species-pair index jelem1 + jelem2*(jelem2+1)/2 used for kbase. */
  function PairIndex(j1: int, j2: int): int
  {
    j1 + j2 * (j2 + 1) / 2
  }

  /** Every ordered species pair j1 <= j2 < numElems has an index below
      the number of pairs. */
  lemma PairIndexBounds(j1: nat, j2: nat, numElems: nat)
    requires j1 <= j2 < numElems
    ensures PairIndex(j1, j2) < NumPairs(numElems)
  {
    TriClosed(j2);
    TriClosed(numElems);
    TriMonotone(j2, numElems);
  }

  /** Distinct species pairs never share an index. */
  lemma PairIndexInjective(a1: nat, a2: nat, b1: nat, b2: nat)
    requires a1 <= a2 && b1 <= b2
    requires PairIndex(a1, a2) == PairIndex(b1, b2)
    ensures a1 == b1 && a2 == b2
  {
    TriClosed(a2);
    TriClosed(b2);
    if a2 < b2 {
      TriMonotone(a2, b2);
    } else if b2 < a2 {
      TriMonotone(b2, a2);
    }
  }

  /** The row of the triangle that holds index p, searched upward from j. */
  function RowOf(p: nat, j: nat): (r: nat)
    requires Tri(j) <= p
    ensures j <= r && Tri(r) <= p < Tri(r + 1)
    decreases p - Tri(j)
  {
    if p < Tri(j + 1) then j else RowOf(p, j + 1)
  }

  /** The inverse of PairIndex: the species pair (j1, j2), j1 <= j2, with index p. */
  function PairOf(p: nat): (jj: (nat, nat))
    ensures jj.0 <= jj.1 && PairIndex(jj.0, jj.1) == p
  {
    var j2 := RowOf(p, 0);
    TriClosed(j2);
    (p - Tri(j2), j2)
  }

  /** PairIndex and PairOf are mutually inverse between the species pairs
      j1 <= j2 < numElems and the indices [0, NumPairs(numElems)). */
  lemma PairIndexBijection(j1: nat, j2: nat, p: nat, numElems: nat)
    requires j1 <= j2
    ensures PairOf(PairIndex(j1, j2)) == (j1, j2)
    ensures p < NumPairs(numElems) ==> PairOf(p).1 < numElems
  {
    var q := PairOf(PairIndex(j1, j2));
    PairIndexInjective(q.0, q.1, j1, j2);
    if p < NumPairs(numElems) {
      var r := RowOf(p, 0);
      TriClosed(numElems);
      if numElems <= r {
        TriMonotone(numElems, r);
      }
    }
  }

  /** Flat offset of radial mode imode in species block jelem (explicit
      layout) or in the single block (jelem = 0, weighted layout). */
  function RadialRow(jelem: int, imode: int, sizeRad: int): int
  {
    imode + jelem * sizeRad
  }

  /** Flat offset of angular mode imode, sign branch ilambda and species
      pair (j1, j2) behind the radial block. */
  function AngularRow(numRadBasis: int, sizeAng: int, j1: int, j2: int, ilambda: int, imode: int): int
  {
    numRadBasis + imode + ilambda * sizeAng + PairIndex(j1, j2) * 2 * sizeAng
  }

  /** A species index is valid for the layout: the weighted layout folds
      every species into block 0. */
  predicate ValidSpecies(numElems: nat, elemWeight: bool, jelem: int)
  {
    if elemWeight then jelem == 0 else 0 <= jelem < numElems
  }

  lemma MulMono(a: int, b: int, c: int)
    requires 0 <= a <= b && 0 <= c
    ensures a * c <= b * c
  {
  }

  /** Every radial write row lies inside the radial block. */
  lemma RadialRowInRange(numElems: nat, elemWeight: bool, sizeRad: nat, jelem: int, imode: int)
    requires ValidSpecies(numElems, elemWeight, jelem)
    requires 0 <= imode < sizeRad
    ensures 0 <= RadialRow(jelem, imode, sizeRad) < NumRadBasis(numElems, elemWeight, sizeRad)
  {
    if !elemWeight {
      MulMono(jelem + 1, numElems, sizeRad);
    }
  }

  /** The quotient and remainder of a non-negative number are unique. */
  lemma QuotRemUnique(s: int, r1: int, q1: int, r2: int, q2: int)
    requires 0 <= r1 < s && 0 <= r2 < s && 0 <= q1 && 0 <= q2
    requires r1 + s * q1 == r2 + s * q2
    ensures r1 == r2 && q1 == q2
  {
    if q1 < q2 {
      MulMono(q1 + 1, q2, s);
    } else if q2 < q1 {
      MulMono(q2 + 1, q1, s);
    }
  }

  /** Radial rows of distinct (species, mode) never collide. */
  lemma RadialRowInjective(sizeRad: nat, ja: nat, ma: int, jb: nat, mb: int)
    requires 0 <= ma < sizeRad && 0 <= mb < sizeRad
    requires RadialRow(ja, ma, sizeRad) == RadialRow(jb, mb, sizeRad)
    ensures ja == jb && ma == mb
  {
    QuotRemUnique(sizeRad, ma, ja, mb, jb);
  }

  /** kbase + ilambda*sizeAng regrouped as sizeAng*(ilambda + 2*pair). */
  lemma AngularOffsetRegroup(sizeAng: int, ilambda: int, p: int)
    ensures ilambda * sizeAng + p * 2 * sizeAng == sizeAng * (ilambda + 2 * p)
  {
  }

  /** Every angular write row lies in [numRadBasis, numBasis). */
  lemma AngularRowInRange(numElems: nat, elemWeight: bool, numRadBasis: nat, sizeAng: nat,
                          j1: nat, j2: nat, ilambda: int, imode: int)
    requires elemWeight ==> j1 == 0 && j2 == 0
    requires !elemWeight ==> j1 <= j2 < numElems
    requires 0 <= ilambda < 2 && 0 <= imode < sizeAng
    ensures numRadBasis <= AngularRow(numRadBasis, sizeAng, j1, j2, ilambda, imode)
                        < numRadBasis + NumAngBasis(numElems, elemWeight, sizeAng)
  {
    var np: nat := if elemWeight then 1 else NumPairs(numElems);
    PairBlockInRange(numElems, elemWeight, j1, j2, np);
    AngularOffsetBound(sizeAng, PairIndex(j1, j2), np, ilambda, imode);
    AngularBlockSize(numElems, elemWeight, sizeAng, np);
  }

  /** The species pair of an angular write names one of the np pair blocks. */
  lemma PairBlockInRange(numElems: nat, elemWeight: bool, j1: nat, j2: nat, np: nat)
    requires elemWeight ==> j1 == 0 && j2 == 0
    requires !elemWeight ==> j1 <= j2 < numElems
    requires np == if elemWeight then 1 else NumPairs(numElems)
    ensures 0 <= PairIndex(j1, j2) < np
  {
    if !elemWeight {
      PairIndexBounds(j1, j2, numElems);
      TriClosed(j2);
    }
  }

  /** Mode imode of sign branch ilambda in pair block p lies inside 2*np
      rows of sizeAng modes. */
  lemma AngularOffsetBound(sizeAng: nat, p: int, np: nat, ilambda: int, imode: int)
    requires 0 <= p < np && 0 <= ilambda < 2 && 0 <= imode < sizeAng
    ensures 0 <= imode + ilambda * sizeAng + p * 2 * sizeAng < sizeAng * (2 * np)
  {
    AngularOffsetRegroup(sizeAng, ilambda, p);
    ScaledBound(sizeAng, imode, ilambda + 2 * p, 2 * np);
  }

  /** The angular block holds 2*np rows of sizeAng modes, np being the
      number of species-pair blocks. */
  lemma AngularBlockSize(numElems: nat, elemWeight: bool, sizeAng: nat, np: nat)
    requires np == if elemWeight then 1 else NumPairs(numElems)
    ensures NumAngBasis(numElems, elemWeight, sizeAng) == sizeAng * (2 * np)
  {
  }

  lemma ScaledBound(s: nat, r: int, q: nat, m: nat)
    requires 0 <= r < s && q + 1 <= m
    ensures 0 <= r + s * q < s * m
  {
    MulMono(q + 1, m, s);
  }

  /** Angular rows of distinct (species pair, sign branch, mode) never collide. */
  lemma AngularRowInjective(numRadBasis: int, sizeAng: nat,
                            a1: nat, a2: nat, la: int, ma: int,
                            b1: nat, b2: nat, lb: int, mb: int)
    requires a1 <= a2 && b1 <= b2
    requires 0 <= la < 2 && 0 <= lb < 2 && 0 <= ma < sizeAng && 0 <= mb < sizeAng
    requires AngularRow(numRadBasis, sizeAng, a1, a2, la, ma) == AngularRow(numRadBasis, sizeAng, b1, b2, lb, mb)
    ensures a1 == b1 && a2 == b2 && la == lb && ma == mb
  {
    var pa, pb := PairIndex(a1, a2), PairIndex(b1, b2);
    AngularOffsetRegroup(sizeAng, la, pa);
    AngularOffsetRegroup(sizeAng, lb, pb);
    QuotRemUnique(sizeAng, ma, la + 2 * pa, mb, lb + 2 * pb);
    QuotRemUnique(2, la, pa, lb, pb);
    PairIndexInjective(a1, a2, b1, b2);
  }

  /** The flat Jacobian offset row + col*numBasis of an entry inside the
      numBasis x (3*numNeighbor) matrix lies inside the buffer. */
  lemma FlatIndexInRange(row: int, col: int, numBasis: nat, numNeighbor: nat)
    requires 0 <= row < numBasis && 0 <= col < 3 * numNeighbor
    ensures 0 <= row + col * numBasis < numBasis * 3 * numNeighbor
  {
    MulMono(col + 1, 3 * numNeighbor, numBasis);
  }

  /** Distinct Jacobian entries have distinct flat offsets. */
  lemma FlatIndexInjective(numBasis: nat, ra: int, ca: int, rb: int, cb: int)
    requires 0 <= ra < numBasis && 0 <= rb < numBasis && 0 <= ca && 0 <= cb
    requires ra + ca * numBasis == rb + cb * numBasis
    ensures ra == rb && ca == cb
  {
    QuotRemUnique(numBasis, ra, ca, rb, cb);
  }

  /** A two-species example of the explicit layout: with sizeRad = 4 and
      sizeAng = 2 it has 8 radial + 12 angular = 20 entries. */
  lemma TwoSpeciesLayout()
    ensures NumRadBasis(2, false, 4) == 8
    ensures NumAngBasis(2, false, 2) == 12
    ensures NumRadBasis(2, false, 4) + NumAngBasis(2, false, 2) == 20
  {
  }
}
