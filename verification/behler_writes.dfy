/** What SymmFuncBehler::calculate adds, and where: the descriptor vector
    and the dense Jacobian are the zero buffers plus a sequence of
    scatter-adds, produced in the order of calculate's loop nest. Each
    value is computed from the neighbour geometry by the same formulas as
    calculate, over the opaque kernels of Common.Kernels. */
module BehlerWrites {
  import opened Common
  import opened Layout

  /** Branches of the angular sign with chi0 = 1 + lambda*psi below this
      threshold are skipped. */
  const CHI0_THR: real := 0.000001

  /** One row of posNeighbor: distance, displacement, then the cutoff value
      and its radial derivative for the radial cutoff (columns 4, 5) and for
      the angular cutoff (columns 6, 7). */
  datatype Neighbor = Neighbor(r: real, x: real, y: real, z: real,
                               fcRad: real, dfcRad: real, fcAng: real, dfcAng: real)

  /** The state of a SymmFuncBehler object that calculate reads. */
  datatype Basis = Basis(
    numElems: nat, tanhCutFunc: bool, elemWeight: bool,
    sizeRad: nat, sizeAng: nat,
    numRadBasis: nat, numAngBasis: nat, numBasis: nat,
    rcutRad: real, rcutAng: real,
    radiusEta: seq<real>, radiusShift: seq<real>,
    angleMod: bool, angleEta: seq<real>, angleZeta: seq<real>, angleShift: seq<real>)

  /** A constructed object whose basis parameters have been supplied. */
  predicate Ready(b: Basis)
  {
    && b.sizeRad >= 1
    && b.rcutRad > 0.0
    && (b.sizeAng > 0 ==> b.rcutAng > 0.0)
    && b.numRadBasis == NumRadBasis(b.numElems, b.elemWeight, b.sizeRad)
    && b.numAngBasis == NumAngBasis(b.numElems, b.elemWeight, b.sizeAng)
    && b.numBasis == b.numRadBasis + b.numAngBasis
    && |b.radiusEta| >= b.sizeRad && |b.radiusShift| >= b.sizeRad
    && |b.angleEta| >= b.sizeAng && |b.angleZeta| >= b.sizeAng && |b.angleShift| >= b.sizeAng
  }

  /** The species block of a neighbour: its species in the explicit layout,
      block 0 in the element-weighted layout. */
  function Species(b: Basis, e: int): int
  {
    if b.elemWeight then 0 else e
  }

  /** The neighbour lists cover numNeighbor entries and, in the explicit
      layout, every species names a block. */
  predicate ValidNeighbors(b: Basis, numNeighbor: nat, elems: seq<int>, pos: seq<Neighbor>)
  {
    && |elems| >= numNeighbor && |pos| >= numNeighbor
    && forall i :: 0 <= i < numNeighbor ==> ValidSpecies(b.numElems, b.elemWeight, Species(b, elems[i]))
  }

  // ---------------------------------------------------------------------
  // Scatter-adds and their effect

  /** `symmData[row] += value` or `symmDiff[row + col*numBasis] += value`. */
  datatype Write = DataAdd(row: int, value: real) | DiffAdd(row: int, col: int, value: real)

  /** The two output buffers. */
  datatype Acc = Acc(data: seq<real>, diff: seq<real>)

  function Zeros(numBasis: nat, numNeighbor: nat): (a: Acc)
    ensures |a.data| == numBasis && |a.diff| == numBasis * 3 * numNeighbor
    ensures forall i :: 0 <= i < |a.data| ==> a.data[i] == 0.0
    ensures forall i :: 0 <= i < |a.diff| ==> a.diff[i] == 0.0
  {
    Acc(seq(numBasis, _ => 0.0), seq(numBasis * 3 * numNeighbor, _ => 0.0))
  }

  /** Length of symmDiff: numBasis rows by three coordinates per neighbour. */
  function DiffLen(numBasis: nat, numNeighbor: nat): nat
  {
    numBasis * 3 * numNeighbor
  }

  /** The write lands inside the buffers. */
  predicate InBuffer(w: Write, numBasis: nat, dataLen: nat, diffLen: nat)
  {
    match w
    case DataAdd(row, _) => 0 <= row < dataLen
    case DiffAdd(row, col, _) => 0 <= row + col * numBasis < diffLen
  }

  /** One scatter-add; a write outside the buffers would be undefined
      behaviour in calculate and changes nothing here. */
  function Step(a: Acc, numBasis: nat, w: Write): (a': Acc)
    ensures |a'.data| == |a.data| && |a'.diff| == |a.diff|
  {
    match w
    case DataAdd(row, v) =>
      if 0 <= row < |a.data| then a.(data := a.data[row := a.data[row] + v]) else a
    case DiffAdd(row, col, v) =>
      var k := row + col * numBasis;
      if 0 <= k < |a.diff| then a.(diff := a.diff[k := a.diff[k] + v]) else a
  }

  /** The writes applied in order. */
  function Apply(a: Acc, numBasis: nat, ws: seq<Write>): (a': Acc)
    ensures |a'.data| == |a.data| && |a'.diff| == |a.diff|
  {
    if |ws| == 0 then a else Step(Apply(a, numBasis, ws[..|ws| - 1]), numBasis, ws[|ws| - 1])
  }

  lemma ApplySnoc(a: Acc, numBasis: nat, ws: seq<Write>, w: Write)
    ensures Apply(a, numBasis, ws + [w]) == Step(Apply(a, numBasis, ws), numBasis, w)
  {
    assert (ws + [w])[..|ws|] == ws;
  }

  lemma AppendAssoc<T>(a: seq<T>, b: seq<T>, c: seq<T>)
    ensures a + b + c == a + (b + c)
  {
  }

  /** Blocks of writes, one after the other. */
  function Concat(wss: seq<seq<Write>>): seq<Write>
  {
    if |wss| == 0 then [] else Concat(wss[..|wss| - 1]) + wss[|wss| - 1]
  }

  lemma ConcatPush(wss: seq<seq<Write>>, ws: seq<Write>)
    ensures Concat(wss + [ws]) == Concat(wss) + ws
  {
    assert (wss + [ws])[..|wss|] == wss;
  }

  /** Applying a concatenation is applying its parts in turn. */
  lemma {:induction false} ApplyAppend(a: Acc, numBasis: nat, ws: seq<Write>, vs: seq<Write>)
    ensures Apply(a, numBasis, ws + vs) == Apply(Apply(a, numBasis, ws), numBasis, vs)
  {
    if |vs| > 0 {
      var init := vs[..|vs| - 1];
      assert (ws + vs)[..|ws + vs| - 1] == ws + init;
      assert (ws + vs)[|ws + vs| - 1] == vs[|vs| - 1];
      ApplyAppend(a, numBasis, ws, init);
      calc {
        Apply(a, numBasis, ws + vs);
        Step(Apply(a, numBasis, ws + init), numBasis, vs[|vs| - 1]);
        Step(Apply(Apply(a, numBasis, ws), numBasis, init), numBasis, vs[|vs| - 1]);
        Apply(Apply(a, numBasis, ws), numBasis, vs);
      }
    } else {
      assert ws + vs == ws;
    }
  }

  /** Buffers a extended by caller entries past the region calculate uses. */
  function Pad(a: Acc, dataTail: seq<real>, diffTail: seq<real>): Acc
  {
    Acc(a.data + dataTail, a.diff + diffTail)
  }

  /** A write inside the buffers leaves entries past them alone. */
  lemma StepPadded(a: Acc, numBasis: nat, w: Write, dataTail: seq<real>, diffTail: seq<real>)
    requires InBuffer(w, numBasis, |a.data|, |a.diff|)
    ensures Step(Pad(a, dataTail, diffTail), numBasis, w) == Pad(Step(a, numBasis, w), dataTail, diffTail)
  {
    match w {
      case DataAdd(row, v) =>
        assert (a.data + dataTail)[row := a.data[row] + v] == a.data[row := a.data[row] + v] + dataTail;
      case DiffAdd(row, col, v) =>
        var at := row + col * numBasis;
        assert (a.diff + diffTail)[at := a.diff[at] + v] == a.diff[at := a.diff[at] + v] + diffTail;
    }
  }

  /** Writes that all land inside the buffers work the same on longer
      buffers, and leave the entries past them unchanged. */
  lemma {:induction false} ApplyPadded(a: Acc, numBasis: nat, ws: seq<Write>, dataTail: seq<real>, diffTail: seq<real>)
    requires forall i :: 0 <= i < |ws| ==> InBuffer(ws[i], numBasis, |a.data|, |a.diff|)
    ensures Apply(Pad(a, dataTail, diffTail), numBasis, ws) == Pad(Apply(a, numBasis, ws), dataTail, diffTail)
  {
    if |ws| > 0 {
      var init := ws[..|ws| - 1];
      ApplyPadded(a, numBasis, init, dataTail, diffTail);
      StepPadded(Apply(a, numBasis, init), numBasis, ws[|ws| - 1], dataTail, diffTail);
    }
  }

  // ---------------------------------------------------------------------
  // Radial part

  /** A contribution g and its gradient with respect to one neighbour. */
  datatype RadialTerm = RadialTerm(g: real, dg: Vec3)

  /** g = zscale * exp(-eta (r - rs)^2) * fc and its Cartesian gradient by
      the product rule. */
  function RadialKernel(k: Kernels, eta: real, rs: real, zscale: real, n: Neighbor): RadialTerm
  {
    var r1 := n.r;
    var dfc1 := Vec3(Quot(n.x, r1) * n.dfcRad, Quot(n.y, r1) * n.dfcRad, Quot(n.z, r1) * n.dfcRad);
    var dr := r1 - rs;
    var rr := dr * dr;
    var gau := k.exp(-eta * rr);
    var coef0 := Quot(-2.0 * eta * dr, r1) * gau;
    var dgau := Vec3(n.x * coef0, n.y * coef0, n.z * coef0);
    RadialTerm(zscale * gau * n.fcRad,
               Vec3(zscale * (dgau.x * n.fcRad + gau * dfc1.x),
                    zscale * (dgau.y * n.fcRad + gau * dfc1.y),
                    zscale * (dgau.z * n.fcRad + gau * dfc1.z)))
  }

  /** The radial weight: the atomic number in the weighted layout, 1 otherwise. */
  function RadialScale(b: Basis, e: int): real
  {
    if b.elemWeight then e as real else 1.0
  }

  /** The four writes of radial mode imode for neighbour i (species e). */
  function RadialModeWrites(b: Basis, k: Kernels, e: int, n: Neighbor, i: nat, imode: nat): seq<Write>
    requires Ready(b) && imode < b.sizeRad
  {
    var t := RadialKernel(k, b.radiusEta[imode], b.radiusShift[imode], RadialScale(b, e), n);
    var ibase := RadialRow(Species(b, e), imode, b.sizeRad);
    [DataAdd(ibase, t.g),
     DiffAdd(ibase, 3 * i + 0, t.dg.x),
     DiffAdd(ibase, 3 * i + 1, t.dg.y),
     DiffAdd(ibase, 3 * i + 2, t.dg.z)]
  }

  /** Radial modes 0 .. m-1 of neighbour i. */
  function RadialModes(b: Basis, k: Kernels, e: int, n: Neighbor, i: nat, m: nat): seq<Write>
    requires Ready(b) && m <= b.sizeRad
  {
    if m == 0 then [] else RadialModes(b, k, e, n, i, m - 1) + RadialModeWrites(b, k, e, n, i, m - 1)
  }

  /** All radial writes of neighbour i: none when it lies at or beyond the
      radial cutoff. */
  function RadialNeighborWrites(b: Basis, k: Kernels, e: int, n: Neighbor, i: nat): seq<Write>
    requires Ready(b)
  {
    if n.r >= b.rcutRad then [] else RadialModes(b, k, e, n, i, b.sizeRad)
  }

  /** The radial writes of neighbours 0 .. m-1, one block per neighbour. */
  function RadialTable(b: Basis, k: Kernels, elems: seq<int>, pos: seq<Neighbor>, m: nat): (t: seq<seq<Write>>)
    requires Ready(b) && m <= |elems| && m <= |pos|
    ensures |t| == m
  {
    if m == 0 then []
    else RadialTable(b, k, elems, pos, m - 1) + [RadialNeighborWrites(b, k, elems[m - 1], pos[m - 1], m - 1)]
  }

  /** Block i of the radial table belongs to neighbour i. */
  lemma {:induction false} RadialTableAt(b: Basis, k: Kernels, elems: seq<int>, pos: seq<Neighbor>, m: nat, i: nat)
    requires Ready(b) && m <= |elems| && m <= |pos| && i < m
    ensures RadialTable(b, k, elems, pos, m)[i] == RadialNeighborWrites(b, k, elems[i], pos[i], i)
  {
    if i < m - 1 {
      RadialTableAt(b, k, elems, pos, m - 1, i);
    }
  }

  /** blocks holds the radial writes of neighbours 0 .. |blocks|-1. */
  predicate RadialBlocks(b: Basis, k: Kernels, elems: seq<int>, pos: seq<Neighbor>, blocks: seq<seq<Write>>)
  {
    && Ready(b) && |blocks| <= |elems| && |blocks| <= |pos|
    && forall j {:trigger RadialNeighborWrites(b, k, elems[j], pos[j], j)} :: 0 <= j < |blocks| ==>
         blocks[j] == RadialNeighborWrites(b, k, elems[j], pos[j], j)
  }

  lemma RadialBlocksPush(b: Basis, k: Kernels, elems: seq<int>, pos: seq<Neighbor>, blocks: seq<seq<Write>>)
    requires RadialBlocks(b, k, elems, pos, blocks) && |blocks| < |elems| && |blocks| < |pos|
    ensures RadialBlocks(b, k, elems, pos, blocks + [RadialNeighborWrites(b, k, elems[|blocks|], pos[|blocks|], |blocks|)])
  {
  }

  /** Blocks for all m neighbours form the radial table. */
  lemma RadialBlocksFull(b: Basis, k: Kernels, elems: seq<int>, pos: seq<Neighbor>, blocks: seq<seq<Write>>, m: nat)
    requires RadialBlocks(b, k, elems, pos, blocks) && |blocks| == m
    ensures blocks == RadialTable(b, k, elems, pos, m)
  {
    forall j | 0 <= j < m
      ensures blocks[j] == RadialTable(b, k, elems, pos, m)[j]
    {
      RadialTableAt(b, k, elems, pos, m, j);
    }
  }

  /** Radial writes of neighbours 0 .. m-1, in loop order. */
  function RadialWrites(b: Basis, k: Kernels, elems: seq<int>, pos: seq<Neighbor>, m: nat): seq<Write>
    requires Ready(b) && m <= |elems| && m <= |pos|
  {
    Concat(RadialTable(b, k, elems, pos, m))
  }

  // ---------------------------------------------------------------------
  // Angular part: geometry of one pair

  /** The side from neighbour 2 to neighbour 1 (x3, y3, z3). */
  function Side(n1: Neighbor, n2: Neighbor): Vec3
  {
    Vec3(n1.x - n2.x, n1.y - n2.y, n1.z - n2.z)
  }

  function Norm2(v: Vec3): real
  {
    v.x * v.x + v.y * v.y + v.z * v.z
  }

  /** In the full three-body form, a triplet whose third side reaches the
      angular cutoff is skipped. */
  predicate ThirdSideTooLong(b: Basis, n1: Neighbor, n2: Neighbor)
  {
    !b.angleMod && Norm2(Side(n1, n2)) >= b.rcutAng * b.rcutAng
  }

  /** Quantities shared by both sign branches and all modes of one pair:
      the cosine psi and its gradients, the combined cutoff fc0 and its
      gradients, and the third side. */
  datatype PairGeom = PairGeom(psi: real, dpsi1: Vec3, dpsi2: Vec3,
                               fc0: real, dfc01: Vec3, dfc02: Vec3, dfc03: Vec3,
                               r3: real, v3: Vec3)

  function PairGeometry(b: Basis, k: Kernels, n1: Neighbor, n2: Neighbor): PairGeom
  {
    var r1, r2 := n1.r, n2.r;
    var fc1, fc2 := n1.fcAng, n2.fcAng;
    var dfc1 := Vec3(Quot(n1.x, r1) * n1.dfcAng, Quot(n1.y, r1) * n1.dfcAng, Quot(n1.z, r1) * n1.dfcAng);
    var dfc2 := Vec3(Quot(n2.x, r2) * n2.dfcAng, Quot(n2.y, r2) * n2.dfcAng, Quot(n2.z, r2) * n2.dfcAng);
    var v3 := Side(n1, n2);
    var psi := Quot(Quot(n1.x * n2.x + n1.y * n2.y + n1.z * n2.z, r1), r2);
    var fact0 := Quot(Quot(1.0, r1), r2);
    var fact1 := Quot(Quot(psi, r1), r1);
    var fact2 := Quot(Quot(psi, r2), r2);
    var dpsi1 := Vec3(fact0 * n2.x - fact1 * n1.x, fact0 * n2.y - fact1 * n1.y, fact0 * n2.z - fact1 * n1.z);
    var dpsi2 := Vec3(fact0 * n1.x - fact2 * n2.x, fact0 * n1.y - fact2 * n2.y, fact0 * n1.z - fact2 * n2.z);
    if b.angleMod then
      PairGeom(psi, dpsi1, dpsi2,
               fc1 * fc2,
               Vec3(dfc1.x * fc2, dfc1.y * fc2, dfc1.z * fc2),
               Vec3(fc1 * dfc2.x, fc1 * dfc2.y, fc1 * dfc2.z),
               Vec3(0.0, 0.0, 0.0), 0.0, v3)
    else
      var r3 := k.sqrt(Norm2(v3));
      var cut := k.cutoff(b.tanhCutFunc, r3, b.rcutAng);
      var fc3, dfc3dr3 := cut.0, cut.1;
      var dfc3 := Vec3(Quot(v3.x, r3) * dfc3dr3, Quot(v3.y, r3) * dfc3dr3, Quot(v3.z, r3) * dfc3dr3);
      PairGeom(psi, dpsi1, dpsi2,
               fc1 * fc2 * fc3,
               Vec3(dfc1.x * fc2 * fc3, dfc1.y * fc2 * fc3, dfc1.z * fc2 * fc3),
               Vec3(fc1 * dfc2.x * fc3, fc1 * dfc2.y * fc3, fc1 * dfc2.z * fc3),
               Vec3(fc1 * fc2 * dfc3.x, fc1 * fc2 * dfc3.y, fc1 * fc2 * dfc3.z),
               r3, v3)
  }

  /** lambda = +1 for ilambda = 0 and -1 for ilambda = 1. */
  function Lambda(ilambda: nat): real
  {
    if ilambda == 0 then 1.0 else -1.0
  }

  /** The angular weight: sqrt of the product of the atomic numbers in the
      weighted layout, 1 otherwise. */
  function AngularScale(b: Basis, k: Kernels, e1: int, e2: int): real
  {
    if b.elemWeight then k.sqrt((e1 as real) * (e2 as real)) else 1.0
  }

  /** A contribution g and its gradients with respect to neighbour 1,
      neighbour 2 and the third side (zero in the modulated form). */
  datatype AngularTerm = AngularTerm(g: real, d1: Vec3, d2: Vec3, d3: Vec3)

  /** g = zscale * chi * exp(-eta * rr) * fc0, chi = 2^(1-zeta) chi0^zeta,
      and its gradients by the product rule. */
  function AngularKernel(k: Kernels, threeBody: bool, pg: PairGeom, n1: Neighbor, n2: Neighbor,
                         lambda: real, eta: real, rs: real, zeta: real, zscale: real): AngularTerm
  {
    var r1, r2, r3 := n1.r, n2.r, pg.r3;
    var chi0 := 1.0 + lambda * pg.psi;
    var zeta0 := k.pow(2.0, 1.0 - zeta);
    var chi := zeta0 * k.pow(chi0, zeta);
    var dchidpsi := Quot(zeta * lambda * chi, chi0);
    var rr := (r1 - rs) * (r1 - rs) + (r2 - rs) * (r2 - rs)
              + (if threeBody then (r3 - rs) * (r3 - rs) else 0.0);
    var gau := k.exp(-eta * rr);
    var coef0 := -2.0 * eta * gau;
    var coef1 := Quot(coef0 * (r1 - rs), r1);
    var coef2 := Quot(coef0 * (r2 - rs), r2);
    var coef3 := Quot(coef0 * (r3 - rs), r3);
    var fc0 := pg.fc0;
    var d1 := Vec3(zscale * (dchidpsi * pg.dpsi1.x * gau * fc0 + chi * (coef1 * n1.x) * fc0 + chi * gau * pg.dfc01.x),
                   zscale * (dchidpsi * pg.dpsi1.y * gau * fc0 + chi * (coef1 * n1.y) * fc0 + chi * gau * pg.dfc01.y),
                   zscale * (dchidpsi * pg.dpsi1.z * gau * fc0 + chi * (coef1 * n1.z) * fc0 + chi * gau * pg.dfc01.z));
    var d2 := Vec3(zscale * (dchidpsi * pg.dpsi2.x * gau * fc0 + chi * (coef2 * n2.x) * fc0 + chi * gau * pg.dfc02.x),
                   zscale * (dchidpsi * pg.dpsi2.y * gau * fc0 + chi * (coef2 * n2.y) * fc0 + chi * gau * pg.dfc02.y),
                   zscale * (dchidpsi * pg.dpsi2.z * gau * fc0 + chi * (coef2 * n2.z) * fc0 + chi * gau * pg.dfc02.z));
    var d3 := if threeBody then
                Vec3(zscale * (chi * (coef3 * pg.v3.x) * fc0 + chi * gau * pg.dfc03.x),
                     zscale * (chi * (coef3 * pg.v3.y) * fc0 + chi * gau * pg.dfc03.y),
                     zscale * (chi * (coef3 * pg.v3.z) * fc0 + chi * gau * pg.dfc03.z))
              else Vec3(0.0, 0.0, 0.0);
    AngularTerm(zscale * (chi * gau * fc0), d1, d2, d3)
  }

  /** The term of angular mode imode in sign branch ilambda for the pair
      (i1, i2). */
  function AngularModeTerm(b: Basis, k: Kernels, e1: int, e2: int, n1: Neighbor, n2: Neighbor,
                           ilambda: nat, imode: nat): AngularTerm
    requires Ready(b) && imode < b.sizeAng
  {
    AngularKernel(k, !b.angleMod, PairGeometry(b, k, n1, n2), n1, n2, Lambda(ilambda),
                  b.angleEta[imode], b.angleShift[imode], b.angleZeta[imode], AngularScale(b, k, e1, e2))
  }

  /** The seven writes of an angular term t at row ibase for the pair
      (i1, i2): the value, then neighbour 1's three columns, then neighbour
      2's. In the full three-body form the third-side gradient is added to
      neighbour 1 and subtracted from neighbour 2. */
  function ModeWrites(ibase: int, i1: nat, i2: nat, t: AngularTerm, threeBody: bool): (ws: seq<Write>)
    ensures |ws| == 7 && ws[0] == DataAdd(ibase, t.g)
    ensures forall j :: 1 <= j < 7 ==> ws[j].DiffAdd? && ws[j].row == ibase
    ensures forall j :: 1 <= j < 4 ==> ws[j].col == 3 * i1 + (j - 1)
    ensures forall j :: 4 <= j < 7 ==> ws[j].col == 3 * i2 + (j - 4)
  {
    if threeBody then
      [DataAdd(ibase, t.g),
       DiffAdd(ibase, 3 * i1 + 0, t.d1.x + t.d3.x), DiffAdd(ibase, 3 * i1 + 1, t.d1.y + t.d3.y),
       DiffAdd(ibase, 3 * i1 + 2, t.d1.z + t.d3.z),
       DiffAdd(ibase, 3 * i2 + 0, t.d2.x - t.d3.x), DiffAdd(ibase, 3 * i2 + 1, t.d2.y - t.d3.y),
       DiffAdd(ibase, 3 * i2 + 2, t.d2.z - t.d3.z)]
    else
      [DataAdd(ibase, t.g),
       DiffAdd(ibase, 3 * i1 + 0, t.d1.x), DiffAdd(ibase, 3 * i1 + 1, t.d1.y), DiffAdd(ibase, 3 * i1 + 2, t.d1.z),
       DiffAdd(ibase, 3 * i2 + 0, t.d2.x), DiffAdd(ibase, 3 * i2 + 1, t.d2.y), DiffAdd(ibase, 3 * i2 + 2, t.d2.z)]
  }

  /** The writes of angular mode imode in sign branch ilambda for the pair (i1, i2). */
  function AngularModeWrites(b: Basis, k: Kernels, e1: int, e2: int, n1: Neighbor, n2: Neighbor,
                             i1: nat, i2: nat, ilambda: nat, imode: nat): seq<Write>
    requires Ready(b) && ilambda < 2 && imode < b.sizeAng
  {
    ModeWrites(AngularRow(b.numRadBasis, b.sizeAng, Species(b, e1), Species(b, e2), ilambda, imode), i1, i2,
               AngularModeTerm(b, k, e1, e2, n1, n2, ilambda, imode), !b.angleMod)
  }

  /** Angular modes 0 .. m-1 of one pair and sign branch. */
  function AngularModes(b: Basis, k: Kernels, e1: int, e2: int, n1: Neighbor, n2: Neighbor,
                        i1: nat, i2: nat, ilambda: nat, m: nat): seq<Write>
    requires Ready(b) && ilambda < 2 && m <= b.sizeAng
  {
    if m == 0 then []
    else AngularModes(b, k, e1, e2, n1, n2, i1, i2, ilambda, m - 1)
         + AngularModeWrites(b, k, e1, e2, n1, n2, i1, i2, ilambda, m - 1)
  }

  /** chi0 = 1 + lambda * psi of a pair and sign branch. */
  function Chi0(b: Basis, k: Kernels, n1: Neighbor, n2: Neighbor, ilambda: nat): real
  {
    1.0 + Lambda(ilambda) * PairGeometry(b, k, n1, n2).psi
  }

  /** One sign branch: nothing when chi0 is below the threshold. */
  function LambdaWrites(b: Basis, k: Kernels, e1: int, e2: int, n1: Neighbor, n2: Neighbor,
                        i1: nat, i2: nat, ilambda: nat): seq<Write>
    requires Ready(b) && ilambda < 2
  {
    if Chi0(b, k, n1, n2, ilambda) < CHI0_THR then []
    else AngularModes(b, k, e1, e2, n1, n2, i1, i2, ilambda, b.sizeAng)
  }

  /** Sign branches 0 .. m-1 of one pair. */
  function LambdaPrefix(b: Basis, k: Kernels, e1: int, e2: int, n1: Neighbor, n2: Neighbor,
                        i1: nat, i2: nat, m: nat): seq<Write>
    requires Ready(b) && m <= 2
  {
    if m == 0 then []
    else LambdaPrefix(b, k, e1, e2, n1, n2, i1, i2, m - 1) + LambdaWrites(b, k, e1, e2, n1, n2, i1, i2, m - 1)
  }

  /** All writes of a visited pair (i1, i2): nothing when the third side is
      too long, else both sign branches. (A pair outside the neighbour
      lists, which the enumeration never produces, writes nothing.) */
  function PairWrites(b: Basis, k: Kernels, elems: seq<int>, pos: seq<Neighbor>, p: (nat, nat)): seq<Write>
    requires Ready(b)
  {
    var (i1, i2) := p;
    if !(i1 < |elems| && i1 < |pos| && i2 < |elems| && i2 < |pos|) then []
    else if ThirdSideTooLong(b, pos[i1], pos[i2]) then []
    else LambdaPrefix(b, k, elems[i1], elems[i2], pos[i1], pos[i2], i1, i2, 2)
  }

  // ---------------------------------------------------------------------
  // Angular part: the pair enumeration

  /** The upper bound of the inner neighbour loop: ineigh2 itself in the
      weighted layout, all neighbours in the explicit layout. */
  function Mneigh(b: Basis, numNeighbor: nat, i2: nat): nat
  {
    if b.elemWeight then i2 else numNeighbor
  }

  /** The filters of the inner loop: neighbour 1 inside the angular cutoff
      and, in the explicit layout, species order and then index order. */
  predicate Visits(b: Basis, elems: seq<int>, pos: seq<Neighbor>, i1: nat, i2: nat)
    requires i1 < |elems| && i1 < |pos| && i2 < |elems|
  {
    && pos[i1].r < b.rcutAng
    && (b.elemWeight || !(elems[i1] > elems[i2] || (elems[i1] == elems[i2] && i1 >= i2)))
  }

  /** Pairs visited by the inner loop for outer index i2, inner indices 0 .. m-1. */
  function RowPairs(b: Basis, elems: seq<int>, pos: seq<Neighbor>, i2: nat, m: nat): seq<(nat, nat)>
    requires m <= |elems| && m <= |pos| && i2 < |elems|
  {
    if m == 0 then []
    else RowPairs(b, elems, pos, i2, m - 1) + (if Visits(b, elems, pos, m - 1, i2) then [(m - 1, i2)] else [])
  }

  /** Pairs visited by outer indices 0 .. m-1: the outer loop skips a
      neighbour beyond the angular cutoff. */
  function AngularPairs(b: Basis, numNeighbor: nat, elems: seq<int>, pos: seq<Neighbor>, m: nat): seq<(nat, nat)>
    requires m <= numNeighbor <= |elems| && numNeighbor <= |pos|
  {
    if m == 0 then []
    else
      AngularPairs(b, numNeighbor, elems, pos, m - 1)
      + (if pos[m - 1].r >= b.rcutAng then []
         else RowPairs(b, elems, pos, m - 1, Mneigh(b, numNeighbor, m - 1)))
  }

  /** The writes of a sequence of visited pairs, one block per pair. */
  function PairTable(b: Basis, k: Kernels, elems: seq<int>, pos: seq<Neighbor>, ps: seq<(nat, nat)>): (t: seq<seq<Write>>)
    requires Ready(b)
    ensures |t| == |ps|
  {
    if |ps| == 0 then []
    else PairTable(b, k, elems, pos, ps[..|ps| - 1]) + [PairWrites(b, k, elems, pos, ps[|ps| - 1])]
  }

  /** Block j of the pair table belongs to pair j. */
  lemma {:induction false} PairTableAt(b: Basis, k: Kernels, elems: seq<int>, pos: seq<Neighbor>,
                                       ps: seq<(nat, nat)>, j: nat)
    requires Ready(b) && j < |ps|
    ensures PairTable(b, k, elems, pos, ps)[j] == PairWrites(b, k, elems, pos, ps[j])
  {
    if j < |ps| - 1 {
      var init := ps[..|ps| - 1];
      PairTableAt(b, k, elems, pos, init, j);
      assert init[j] == ps[j];
    }
  }

  /** blocks holds the writes of the first |blocks| pairs of ps. */
  predicate PairBlocks(b: Basis, k: Kernels, elems: seq<int>, pos: seq<Neighbor>, ps: seq<(nat, nat)>,
                       blocks: seq<seq<Write>>)
  {
    && Ready(b) && |blocks| <= |ps|
    && forall j {:trigger PairWrites(b, k, elems, pos, ps[j])} :: 0 <= j < |blocks| ==>
         blocks[j] == PairWrites(b, k, elems, pos, ps[j])
  }

  lemma PairBlocksPush(b: Basis, k: Kernels, elems: seq<int>, pos: seq<Neighbor>, ps: seq<(nat, nat)>,
                       blocks: seq<seq<Write>>)
    requires PairBlocks(b, k, elems, pos, ps, blocks) && |blocks| < |ps|
    ensures PairBlocks(b, k, elems, pos, ps, blocks + [PairWrites(b, k, elems, pos, ps[|blocks|])])
  {
  }

  /** Blocks for all pairs of ps form the pair table. */
  lemma PairBlocksFull(b: Basis, k: Kernels, elems: seq<int>, pos: seq<Neighbor>, ps: seq<(nat, nat)>,
                       blocks: seq<seq<Write>>)
    requires PairBlocks(b, k, elems, pos, ps, blocks) && |blocks| == |ps|
    ensures blocks == PairTable(b, k, elems, pos, ps)
  {
    forall j | 0 <= j < |ps|
      ensures blocks[j] == PairTable(b, k, elems, pos, ps)[j]
    {
      PairTableAt(b, k, elems, pos, ps, j);
    }
  }

  /** The writes of a sequence of visited pairs, in order. */
  function PairsWrites(b: Basis, k: Kernels, elems: seq<int>, pos: seq<Neighbor>, ps: seq<(nat, nat)>): seq<Write>
    requires Ready(b)
  {
    Concat(PairTable(b, k, elems, pos, ps))
  }

  /** The inner loop only ever extends the pairs it has visited. */
  lemma {:induction false} RowPairsGrow(b: Basis, elems: seq<int>, pos: seq<Neighbor>, i2: nat, m: nat, m': nat)
    requires m <= m' <= |elems| && m' <= |pos| && i2 < |elems|
    ensures RowPairs(b, elems, pos, i2, m) <= RowPairs(b, elems, pos, i2, m')
  {
    if m < m' {
      RowPairsGrow(b, elems, pos, i2, m, m' - 1);
      var prev := RowPairs(b, elems, pos, i2, m' - 1);
      PrefixExtend(RowPairs(b, elems, pos, i2, m), prev,
                   if Visits(b, elems, pos, m' - 1, i2) then [(m' - 1, i2)] else []);
    }
  }

  /** The outer loop only ever extends the pairs it has visited. */
  lemma {:induction false} AngularPairsGrow(b: Basis, numNeighbor: nat, elems: seq<int>, pos: seq<Neighbor>, m: nat, m': nat)
    requires m <= m' <= numNeighbor <= |elems| && numNeighbor <= |pos|
    ensures AngularPairs(b, numNeighbor, elems, pos, m) <= AngularPairs(b, numNeighbor, elems, pos, m')
  {
    if m < m' {
      AngularPairsGrow(b, numNeighbor, elems, pos, m, m' - 1);
      var prev := AngularPairs(b, numNeighbor, elems, pos, m' - 1);
      var tail := if pos[m' - 1].r >= b.rcutAng then []
                  else RowPairs(b, elems, pos, m' - 1, Mneigh(b, numNeighbor, m' - 1));
      assert AngularPairs(b, numNeighbor, elems, pos, m') == prev + tail;
      PrefixExtend(AngularPairs(b, numNeighbor, elems, pos, m), prev, tail);
    }
  }

  /** Whatever the inner loop has visited of row i2 so far, followed by the
      earlier rows, is a prefix of all visited pairs. */
  lemma RowPrefix(b: Basis, numNeighbor: nat, elems: seq<int>, pos: seq<Neighbor>, ps: seq<(nat, nat)>,
                  i2: nat, m: nat)
    requires numNeighbor <= |elems| && numNeighbor <= |pos|
    requires ps == AngularPairs(b, numNeighbor, elems, pos, numNeighbor)
    requires i2 < numNeighbor && pos[i2].r < b.rcutAng && m <= Mneigh(b, numNeighbor, i2)
    ensures AngularPairs(b, numNeighbor, elems, pos, i2) + RowPairs(b, elems, pos, i2, m) <= ps
  {
    var outer := AngularPairs(b, numNeighbor, elems, pos, i2);
    var full := RowPairs(b, elems, pos, i2, Mneigh(b, numNeighbor, i2));
    RowPairsGrow(b, elems, pos, i2, m, Mneigh(b, numNeighbor, i2));
    AngularPairsGrow(b, numNeighbor, elems, pos, i2 + 1, numNeighbor);
    assert outer + full == AngularPairs(b, numNeighbor, elems, pos, i2 + 1);
    PrefixAppend(outer, RowPairs(b, elems, pos, i2, m), full);
    PrefixTrans(outer + RowPairs(b, elems, pos, i2, m), outer + full, ps);
  }

  /** One step of the inner loop over the list ps of all visited pairs:
      when c pairs precede (i1, i2) and the filters pass, pair c of ps is
      (i1, i2); otherwise the visited pairs stay the same. */
  lemma NextPair(b: Basis, numNeighbor: nat, elems: seq<int>, pos: seq<Neighbor>, ps: seq<(nat, nat)>,
                 i2: nat, i1: nat, c: nat)
    requires numNeighbor <= |elems| && numNeighbor <= |pos|
    requires ps == AngularPairs(b, numNeighbor, elems, pos, numNeighbor)
    requires i2 < numNeighbor && pos[i2].r < b.rcutAng && i1 < Mneigh(b, numNeighbor, i2)
    requires c <= |ps| && ps[..c] == AngularPairs(b, numNeighbor, elems, pos, i2) + RowPairs(b, elems, pos, i2, i1)
    ensures Visits(b, elems, pos, i1, i2) ==>
              && c < |ps| && ps[c] == (i1, i2)
              && ps[..c + 1] == AngularPairs(b, numNeighbor, elems, pos, i2) + RowPairs(b, elems, pos, i2, i1 + 1)
    ensures !Visits(b, elems, pos, i1, i2) ==>
              ps[..c] == AngularPairs(b, numNeighbor, elems, pos, i2) + RowPairs(b, elems, pos, i2, i1 + 1)
  {
    var outer := AngularPairs(b, numNeighbor, elems, pos, i2);
    var row := RowPairs(b, elems, pos, i2, i1);
    var grown := outer + RowPairs(b, elems, pos, i2, i1 + 1);
    RowPrefix(b, numNeighbor, elems, pos, ps, i2, i1 + 1);
    PrefixOf(grown, ps);
    if Visits(b, elems, pos, i1, i2) {
      AppendAssoc(outer, row, [(i1, i2)]);
      assert grown == ps[..c] + [(i1, i2)];
      assert grown[c] == (i1, i2);
    } else {
      assert grown == ps[..c] + [];
    }
  }

  lemma PrefixExtend<T>(a: seq<T>, b: seq<T>, c: seq<T>)
    requires a <= b
    ensures a <= b + c
  {
    assert (b + c)[..|a|] == b[..|a|];
  }

  lemma PrefixTrans<T>(a: seq<T>, b: seq<T>, c: seq<T>)
    requires a <= b && b <= c
    ensures a <= c
  {
    assert c[..|b|][..|a|] == c[..|a|];
  }

  lemma PrefixOf<T>(a: seq<T>, b: seq<T>)
    requires a <= b
    ensures |a| <= |b| && b[..|a|] == a
  {
  }

  lemma PrefixAppend<T>(a: seq<T>, b: seq<T>, c: seq<T>)
    requires b <= c
    ensures a + b <= a + c
  {
    assert (a + c)[..|a + b|] == a + c[..|b|];
  }

  /** The pairs of the outer indices 0 .. i2 in the cutoff are those of
      0 .. i2-1 followed by the row of i2. */
  lemma RowComplete(b: Basis, numNeighbor: nat, elems: seq<int>, pos: seq<Neighbor>, i2: nat)
    requires numNeighbor <= |elems| && numNeighbor <= |pos| && i2 < numNeighbor
    ensures pos[i2].r < b.rcutAng ==>
              AngularPairs(b, numNeighbor, elems, pos, i2 + 1)
              == AngularPairs(b, numNeighbor, elems, pos, i2) + RowPairs(b, elems, pos, i2, Mneigh(b, numNeighbor, i2))
    ensures pos[i2].r >= b.rcutAng ==>
              AngularPairs(b, numNeighbor, elems, pos, i2 + 1) == AngularPairs(b, numNeighbor, elems, pos, i2)
  {
    assert AngularPairs(b, numNeighbor, elems, pos, i2) + [] == AngularPairs(b, numNeighbor, elems, pos, i2);
  }

  // ---------------------------------------------------------------------
  // The whole call

  /** Every scatter-add of calculate, in order: the radial part, then the
      angular part unless there are fewer than two neighbours or no angular
      modes. */
  function CalcWrites(b: Basis, k: Kernels, numNeighbor: nat, elems: seq<int>, pos: seq<Neighbor>): seq<Write>
    requires Ready(b) && |elems| >= numNeighbor && |pos| >= numNeighbor
  {
    if numNeighbor < 1 then []
    else
      RadialWrites(b, k, elems, pos, numNeighbor)
      + (if numNeighbor < 2 || b.sizeAng < 1 then []
         else PairsWrites(b, k, elems, pos, AngularPairs(b, numNeighbor, elems, pos, numNeighbor)))
  }

  /** The descriptor vector and Jacobian that calculate leaves behind. */
  function Output(b: Basis, k: Kernels, numNeighbor: nat, elems: seq<int>, pos: seq<Neighbor>): Acc
    requires Ready(b) && |elems| >= numNeighbor && |pos| >= numNeighbor
  {
    Apply(Zeros(b.numBasis, numNeighbor), b.numBasis, CalcWrites(b, k, numNeighbor, elems, pos))
  }
}
