/** The host-side logic of SymmFuncGPU that runs on the CPU: splitting the
    symmetry-function modes of one kernel launch into batches that fit a
    thread block, the thread-block limit, the basis-count getters, and the
    single-atom entry point that forwards to the batched calculation. */
module Gpu {
  import opened Common
  import opened BehlerWrites

  // ---------------------------------------------------------------------
  // Mode batching

  /** The first batch count tried: enough batches for sizeMode * maxNeigh
      threads at maxThreads threads per block, in C integer arithmetic. */
  function FirstBatchCount(maxThreads: int, sizeMode: int, maxNeigh: int): int
    requires maxThreads > 0
  {
    CDiv(sizeMode * maxNeigh - 1, maxThreads) + 1
  }

  /** Modes in each batch when sizeMode modes are spread over nb batches:
      the quotient, rounded up when there is a remainder. */
  function ModesPerBatch(sizeMode: int, nb: int): int
    requires nb >= 1
  {
    CDiv(sizeMode, nb) + (if CRem(sizeMode, nb) > 0 then 1 else 0)
  }

  /** The modes per batch are the ceiling of sizeMode / nb: nb batches of
      that many hold every mode, with less than one batch to spare, and
      there is at least one mode per batch when there is a mode at all. */
  lemma ModesPerBatchIsCeiling(sizeMode: int, nb: int)
    requires nb >= 1
    ensures sizeMode >= 0 ==> sizeMode <= ModesPerBatch(sizeMode, nb) * nb < sizeMode + nb
    ensures sizeMode >= 1 ==> ModesPerBatch(sizeMode, nb) >= 1
  {
    var q := CDiv(sizeMode, nb);
    var r := CRem(sizeMode, nb);
    if r > 0 {
      assert (q + 1) * nb == q * nb + nb;
    }
  }

  /** nb batches are enough: one batch's modes, each over maxNeigh
      neighbours, fit in one thread block. */
  predicate Fits(maxThreads: int, sizeMode: int, maxNeigh: int, nb: int)
    requires nb >= 1
  {
    ModesPerBatch(sizeMode, nb) * maxNeigh <= maxThreads
  }

  /** A worked case: 37 modes over 40 neighbours at 256 threads per block.
      The first count tried is 6, whose 7 modes per batch need 280 threads;
      7 batches of 6 modes need 240, and no count below 7 fits. */
  lemma WorkedBatching()
    ensures FirstBatchCount(256, 37, 40) == 6
    ensures ModesPerBatch(37, 6) == 7 && !Fits(256, 37, 40, 6)
    ensures ModesPerBatch(37, 7) == 6 && Fits(256, 37, 40, 7)
    ensures forall k :: 1 <= k < 7 ==> !Fits(256, 37, 40, k)
  {
    assert ModesPerBatch(37, 1) == 37;
    assert ModesPerBatch(37, 2) == 19;
    assert ModesPerBatch(37, 3) == 13;
    assert ModesPerBatch(37, 4) == 10;
    assert ModesPerBatch(37, 5) == 8;
  }

  /** No batch count below the first one tried can fit: the batching
      search skips nothing. */
  lemma FirstBatchCountIsLowerBound(maxThreads: int, sizeMode: int, maxNeigh: int, k: int)
    requires maxThreads > 0 && sizeMode >= 0 && k >= 1
    requires Fits(maxThreads, sizeMode, maxNeigh, k)
    ensures FirstBatchCount(maxThreads, sizeMode, maxNeigh) <= k
  {
    var mpb := ModesPerBatch(sizeMode, k);
    ModesPerBatchIsCeiling(sizeMode, k);
    var x := sizeMode * maxNeigh - 1;
    if maxNeigh >= 0 {
      ProductBound(sizeMode, mpb, k, maxNeigh, maxThreads);
    } else {
      NonPositiveProduct(sizeMode, maxNeigh);
    }
    CDivBelow(x, maxThreads, k);
  }

  /** s <= m * k modes in batches of m, and m * n <= t threads per batch,
      give s * n <= k * t threads in all. */
  lemma ProductBound(s: int, m: int, k: int, n: int, t: int)
    requires s <= m * k && m * n <= t && n >= 0 && k >= 0
    ensures s * n <= k * t
  {
    ScaleLe(s, m * k, n);
    assert m * k * n == k * (m * n);
    ScaleLe(m * n, t, k);
  }

  /** a <= b scales by a non-negative factor. */
  lemma ScaleLe(a: int, b: int, c: int)
    requires a <= b && c >= 0
    ensures a * c <= b * c
  {
    assert b * c - a * c == (b - a) * c;
  }

  lemma NonPositiveProduct(a: int, c: int)
    requires a >= 0 && c <= 0
    ensures a * c <= 0
  {
    assert a * c == -(a * (-c));
  }

  /** x < k * d gives CDiv(x, d) < k. */
  lemma CDivBelow(x: int, d: int, k: int)
    requires d > 0 && k >= 1 && (x < 0 || x < k * d)
    ensures CDiv(x, d) < k
  {
    if x >= 0 {
      var q := x / d;
      assert q * d <= x;
      if q >= k {
        ScaleLe(k, q, d);
        assert false;
      }
    }
  }

  /** x >= 0 gives CDiv(x, d) >= 0. */
  lemma CDivNonNegative(x: int, d: int)
    requires d > 0 && x >= 0
    ensures CDiv(x, d) >= 0
  {
    var q := x / d;
    if q < 0 {
      ScaleLe(q, -1, d);
      assert false;
    }
  }

  /** With at least one mode and a neighbour count that fits in a block,
      one mode per batch always fits, and the first batch count tried does
      not pass it. */
  lemma OneModePerBatchFits(maxThreads: int, sizeMode: int, maxNeigh: int)
    requires maxThreads > 0 && sizeMode >= 1 && 1 <= maxNeigh <= maxThreads
    ensures 1 <= FirstBatchCount(maxThreads, sizeMode, maxNeigh) <= sizeMode
    ensures Fits(maxThreads, sizeMode, maxNeigh, sizeMode)
  {
    assert ModesPerBatch(sizeMode, sizeMode) == 1;
    FirstBatchCountIsLowerBound(maxThreads, sizeMode, maxNeigh, sizeMode);
    ScaleLe(1, sizeMode, maxNeigh);
    CDivNonNegative(sizeMode * maxNeigh - 1, maxThreads);
  }

  /** With more neighbours than threads in a block no batch count fits. */
  lemma TooManyNeighborsNeverFits(maxThreads: int, sizeMode: int, maxNeigh: int, k: int)
    requires maxThreads > 0 && sizeMode >= 1 && maxNeigh > maxThreads && k >= 1
    ensures !Fits(maxThreads, sizeMode, maxNeigh, k)
  {
    var mpb := ModesPerBatch(sizeMode, k);
    ModesPerBatchIsCeiling(sizeMode, k);
    ScaleLe(1, mpb, maxNeigh);
  }

  /** Batch count k is positive and too small. */
  ghost predicate TooFew(maxThreads: int, sizeMode: int, maxNeigh: int, k: int)
  {
    1 <= k && !Fits(maxThreads, sizeMode, maxNeigh, k)
  }

  /** Every batch count in lo .. hi-1 is positive and too small. */
  ghost predicate NoneFitsBetween(maxThreads: int, sizeMode: int, maxNeigh: int, lo: int, hi: int)
  {
    forall k :: lo <= k < hi ==> TooFew(maxThreads, sizeMode, maxNeigh, k)
  }

  lemma NoneFitsExtend(maxThreads: int, sizeMode: int, maxNeigh: int, lo: int, hi: int)
    requires NoneFitsBetween(maxThreads, sizeMode, maxNeigh, lo, hi)
    requires hi >= 1 && !Fits(maxThreads, sizeMode, maxNeigh, hi)
    ensures NoneFitsBetween(maxThreads, sizeMode, maxNeigh, lo, hi + 1)
  {
    assert TooFew(maxThreads, sizeMode, maxNeigh, hi);
  }

  /** The search stops without a batch count: either the first count
      tried is not positive, or every count from it up to sizeMode fails,
      which with at least one mode and one neighbour happens exactly when
      the neighbours of one mode exceed a block. */
  lemma SearchExhausted(maxThreads: int, sizeMode: int, maxNeigh: int, nb: int)
    requires maxThreads > 0
    requires FirstBatchCount(maxThreads, sizeMode, maxNeigh) <= nb && (nb < 1 || sizeMode < nb)
    requires NoneFitsBetween(maxThreads, sizeMode, maxNeigh, FirstBatchCount(maxThreads, sizeMode, maxNeigh), nb)
    ensures || FirstBatchCount(maxThreads, sizeMode, maxNeigh) < 1
            || forall k :: FirstBatchCount(maxThreads, sizeMode, maxNeigh) <= k <= sizeMode ==>
                 !Fits(maxThreads, sizeMode, maxNeigh, k)
    ensures sizeMode >= 1 && maxNeigh >= 1 ==> maxNeigh > maxThreads
  {
    var start := FirstBatchCount(maxThreads, sizeMode, maxNeigh);
    forall k | 1 <= start <= k <= sizeMode
      ensures !Fits(maxThreads, sizeMode, maxNeigh, k)
    {
      assert TooFew(maxThreads, sizeMode, maxNeigh, k);
    }
    if sizeMode >= 1 && 1 <= maxNeigh <= maxThreads {
      OneModePerBatchFits(maxThreads, sizeMode, maxNeigh);
    }
  }

  /** The search stops at the first count from the first one tried that
      fits: no smaller positive count fits at all, and one mode's
      neighbours fit in a block. */
  lemma SearchSucceeded(maxThreads: int, sizeMode: int, maxNeigh: int, nb: int)
    requires maxThreads > 0 && 1 <= nb <= sizeMode
    requires FirstBatchCount(maxThreads, sizeMode, maxNeigh) <= nb
    requires NoneFitsBetween(maxThreads, sizeMode, maxNeigh, FirstBatchCount(maxThreads, sizeMode, maxNeigh), nb)
    requires Fits(maxThreads, sizeMode, maxNeigh, nb)
    ensures sizeMode <= ModesPerBatch(sizeMode, nb) * nb < sizeMode + nb
    ensures forall k :: 1 <= k < nb ==> !Fits(maxThreads, sizeMode, maxNeigh, k)
    ensures maxNeigh >= 1 ==> maxNeigh <= maxThreads
  {
    forall k | 1 <= k < nb
      ensures !Fits(maxThreads, sizeMode, maxNeigh, k)
    {
      if k < FirstBatchCount(maxThreads, sizeMode, maxNeigh) {
        if Fits(maxThreads, sizeMode, maxNeigh, k) {
          FirstBatchCountIsLowerBound(maxThreads, sizeMode, maxNeigh, k);
        }
      } else {
        assert TooFew(maxThreads, sizeMode, maxNeigh, k);
      }
    }
    if maxNeigh > maxThreads {
      TooManyNeighborsNeverFits(maxThreads, sizeMode, maxNeigh, nb);
    }
    ModesPerBatchIsCeiling(sizeMode, nb);
  }

  // ---------------------------------------------------------------------
  // Single-atom delegation

  /** The arguments of a batched calculate call: per atom, its neighbour
      count, its offset in the neighbour list, and its neighbours' species
      and geometry; then the descriptor and Jacobian buffers to fill. */
  datatype BatchCall = BatchCall(
    lenAtoms: int,
    numNeighbor: seq<int>,
    idxNeighbor: seq<int>,
    elemNeighbor: seq<seq<int>>,
    posNeighbor: seq<seq<Neighbor>>,
    symmData: array?<real>,
    symmDiff: array?<real>)

  predicate WellFormed(c: BatchCall)
  {
    && c.lenAtoms >= 0
    && |c.numNeighbor| == c.lenAtoms && |c.idxNeighbor| == c.lenAtoms
    && |c.elemNeighbor| == c.lenAtoms && |c.posNeighbor| == c.lenAtoms
  }

  /** What the batched call sees of atom i. */
  function AtomArgs(c: BatchCall, i: int): (int, seq<int>, seq<Neighbor>)
    requires WellFormed(c) && 0 <= i < c.lenAtoms
  {
    (c.numNeighbor[i], c.elemNeighbor[i], c.posNeighbor[i])
  }

  /** calculate for one atom: a batch of exactly one atom, at neighbour
      offset 0, whose data are the single atom's own, writing into the
      caller's own buffers. */
  function SingleAtomCall(numNeighbor: int, elemNeighbor: seq<int>, posNeighbor: seq<Neighbor>,
                          symmData: array?<real>, symmDiff: array?<real>): (c: BatchCall)
    ensures WellFormed(c) && c.lenAtoms == 1
    ensures AtomArgs(c, 0) == (numNeighbor, elemNeighbor, posNeighbor)
    ensures c.idxNeighbor[0] == 0
    ensures c.symmData == symmData && c.symmDiff == symmDiff
  {
    BatchCall(1, [numNeighbor], [0], [elemNeighbor], [posNeighbor], symmData, symmDiff)
  }

  /** Two single-atom calls forward the same batch exactly when their
      arguments agree. */
  lemma SingleAtomCallInjective(n1: int, e1: seq<int>, p1: seq<Neighbor>, d1: array?<real>, f1: array?<real>,
                                n2: int, e2: seq<int>, p2: seq<Neighbor>, d2: array?<real>, f2: array?<real>)
    ensures SingleAtomCall(n1, e1, p1, d1, f1) == SingleAtomCall(n2, e2, p2, d2, f2)
            <==> (n1, e1, p1, d1, f1) == (n2, e2, p2, d2, f2)
  {
    if SingleAtomCall(n1, e1, p1, d1, f1) == SingleAtomCall(n2, e2, p2, d2, f2) {
      assert AtomArgs(SingleAtomCall(n1, e1, p1, d1, f1), 0) == AtomArgs(SingleAtomCall(n2, e2, p2, d2, f2), 0);
    }
  }

  // ---------------------------------------------------------------------
  // The class

  /** The state of a SymmFuncGPU that the host-side members read and
      write. The constructor lives in nnp_symm_func_gpu.cpp, which is not
      part of this model, so the fields are taken as given. */
  class SymmFuncGPU {
    var sizeRad: int
    var sizeAng: int
    var numRadBasis: int
    var numAngBasis: int
    var symmGrad: array?<real>
    var maxThreadsPerBlock: int

    /** setMaxThreadsPerBlock: a positive limit replaces the current one,
        anything else is ignored; nothing else changes. */
    method SetMaxThreadsPerBlock(limit: int)
      modifies this
      ensures limit > 0 ==> maxThreadsPerBlock == limit
      ensures limit <= 0 ==> maxThreadsPerBlock == old(maxThreadsPerBlock)
      ensures old(maxThreadsPerBlock) > 0 ==> maxThreadsPerBlock > 0
      ensures sizeRad == old(sizeRad) && sizeAng == old(sizeAng)
      ensures numRadBasis == old(numRadBasis) && numAngBasis == old(numAngBasis)
      ensures symmGrad == old(symmGrad)
    {
      if limit > 0 {
        maxThreadsPerBlock := limit;
      }
    }

    /** getNumRadBasis: the stored radial basis count, read-only. */
    function GetNumRadBasis(): (r: int)
      reads this
      ensures r == numRadBasis
    {
      numRadBasis
    }

    /** getNumAngBasis: the stored angular basis count, read-only. */
    function GetNumAngBasis(): (r: int)
      reads this
      ensures r == numAngBasis
    {
      numAngBasis
    }

    /** getSymmGrad: the host gradient buffer itself, not a copy. */
    function GetSymmGrad(): (g: array?<real>)
      reads this
      ensures g == symmGrad
    {
      symmGrad
    }

    /** Modes per batch as getSizeOfModeBatchs computes them: the
        quotient, plus one when the division leaves a remainder. */
    static method SpreadModes(sizeMode: int, nb: int) returns (mpb: int)
      requires nb >= 1
      ensures mpb == ModesPerBatch(sizeMode, nb)
    {
      mpb := CDiv(sizeMode, nb);
      if CRem(sizeMode, nb) > 0 {
        mpb := mpb + 1;
      }
    }

    /** getSizeOfModeBatchs: starting from the thread count divided by the
        block limit, tries one more batch at a time until one batch's
        modes fit in a block; None where getSizeOfModeBatchs stops with
        "cannot resolve size of mode batchs", which it does at once when the
        first count tried is below 1. On success the batch count is the
        fewest that fits, and the modes per batch cover all modes. With at
        least one mode and one neighbour, the search fails exactly when one mode's
        neighbours alone exceed a block. */
    method GetSizeOfModeBatchs(sizeMode: int, maxNeigh: int) returns (res: Option<(int, int)>)
      requires maxThreadsPerBlock > 0
      ensures res.Some? ==>
                && 1 <= res.value.0 <= sizeMode
                && res.value.1 == ModesPerBatch(sizeMode, res.value.0)
                && sizeMode <= res.value.1 * res.value.0 < sizeMode + res.value.0
                && res.value.1 * maxNeigh <= maxThreadsPerBlock
      ensures res.Some? ==> forall k :: 1 <= k < res.value.0 ==> !Fits(maxThreadsPerBlock, sizeMode, maxNeigh, k)
      ensures res.None? ==>
                || FirstBatchCount(maxThreadsPerBlock, sizeMode, maxNeigh) < 1
                || forall k :: FirstBatchCount(maxThreadsPerBlock, sizeMode, maxNeigh) <= k <= sizeMode ==>
                     !Fits(maxThreadsPerBlock, sizeMode, maxNeigh, k)
      ensures FirstBatchCount(maxThreadsPerBlock, sizeMode, maxNeigh) < 1 ==> res.None?
      ensures sizeMode >= 1 && maxNeigh >= 1 ==> (res.None? <==> maxNeigh > maxThreadsPerBlock)
    {
      var nb := FirstBatchCount(maxThreadsPerBlock, sizeMode, maxNeigh);
      ghost var start := nb;
      while true
        invariant start <= nb
        invariant start < 1 ==> nb == start
        invariant NoneFitsBetween(maxThreadsPerBlock, sizeMode, maxNeigh, start, nb)
        decreases sizeMode - nb
      {
        if nb < 1 || sizeMode < nb {
          res := None;
          SearchExhausted(maxThreadsPerBlock, sizeMode, maxNeigh, nb);
          return;
        }
        var mpb := SpreadModes(sizeMode, nb);
        if mpb * maxNeigh <= maxThreadsPerBlock {
          res := Some((nb, mpb));
          SearchSucceeded(maxThreadsPerBlock, sizeMode, maxNeigh, nb);
          return;
        }
        NoneFitsExtend(maxThreadsPerBlock, sizeMode, maxNeigh, start, nb);
        nb := nb + 1;
      }
    }
  }

  /** Without neighbours the first count tried is 0, although every
      positive count would fit. */
  lemma ZeroNeighborsStartBelowOne()
    ensures FirstBatchCount(1, 3, 0) == 0
    ensures forall k :: 1 <= k <= 3 ==> Fits(1, 3, 0, k)
  {
    assert ModesPerBatch(3, 1) == 3;
    assert ModesPerBatch(3, 2) == 2;
    assert ModesPerBatch(3, 3) == 1;
  }

  /** So the search fails on that case. */
  method ZeroNeighborsSearch(g: SymmFuncGPU) returns (res: Option<(int, int)>)
    requires g.maxThreadsPerBlock == 1
    ensures res == None
  {
    res := g.GetSizeOfModeBatchs(3, 0);
    ZeroNeighborsStartBelowOne();
  }

  /** The search on the worked case settles on 7 batches of 6 modes. */
  method WorkedSearch(g: SymmFuncGPU) returns (res: Option<(int, int)>)
    requires g.maxThreadsPerBlock == 256
    ensures res == Some((7, 6))
  {
    res := g.GetSizeOfModeBatchs(37, 40);
    WorkedBatching();
  }
}
