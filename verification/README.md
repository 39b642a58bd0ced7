# ML-SANNP symmetry functions in Dafny

A Dafny model of the descriptor core of ML-SANNP, the neural-network
potential package. For one atom, its symmetry functions turn the geometry
of the neighbours into a descriptor vector (`symmData`, `numBasis`
entries). They also produce that vector's Jacobian with respect to every
neighbour coordinate (`symmDiff`, `numBasis × 3·numNeighbor`, flat offset
`row + col·numBasis`).

What the model covers:

- **Layout** (`layout.dfy`). The constructor's parameter checks and the
  basis layout of `SymmFuncBehler`, in its two policies:
  - explicit species: one radial block per species, and two angular
    blocks (λ = +1, −1) per unordered species pair;
  - weighted: shared blocks, scaled by atomic number.

  The species-pair index `j1 + j2(j2+1)/2` is proved a bijection onto
  the pair blocks. Every radial and angular row, and every Jacobian offset,
  is proved in range and collision-free.
- **The write-list specification** (`behler_writes.dfy`).
  `SymmFuncBehler::calculate` is specified as zeroing both buffers and then
  applying, in loop order, the list of scatter-adds `CalcWrites` that the
  source performs:
  - the radial part: neighbour × mode;
  - the angular part: pair × λ × mode, in the modulated or the full
    three-body form, with the χ₀ threshold and the third-side cutoff skip.

  The real kernels (`exp`, `pow`, `sqrt`, `cos`, `sin` and the cutoff
  function) are parameters of the model (`Common.Kernels`).
- **The class** (`behler.dfy`). `SymmFuncBehler` is a Dafny class, and
  its `Calculate` keeps the source's loop nest over arrays. Every loop
  level is proved against the write list. `Calculate` fails, and writes
  nothing, on a null neighbour list or a null output buffer. Otherwise the
  first numBasis entries of `symmData` and the first numBasis·3·numNeighbor
  entries of `symmDiff` end up equal to `Output`. Longer buffers are
  accepted, and their entries past those prefixes are left unchanged.
- **Pair enumeration and output properties** (`behler_pairs.dfy`,
  `behler_props.dfy`):
  - the angular pair enumeration visits each unordered pair inside the
    angular cutoff exactly once, in loop order;
  - every scatter-add lands inside the buffers, the radial ones in the
    radial block and the angular ones in the angular block;
  - the angular early return is only a shortcut;
  - neighbours beyond both cutoffs contribute nothing.
- **Chebyshev polynomials** (`chebyshev.dfy`):
  - `chebyshevFunction` in all five loop shapes (not unrolled, and
    unrolled by 2, 4, 6 and 8) as methods on arrays. Each one is proved
    to fill `t` with T_i(s) and `dt` with the derivative recurrence, and
    to write the indices 0 .. max(n,2)−1 once each, in ascending order
    (the first two entries are written even when n < 2);
  - the derivative recurrence is proved equal to i·U_{i−1}(s), the
    derivative of T_i;
  - `chebyshevTrigonometric`, with its small-angle series;
  - the getters.
- **GPU host logic** (`gpu.dfy`):
  - `getSizeOfModeBatchs` is proved to return the smallest batch count
    whose ceiling-spread modes fit the thread-block limit. It fails at once
    when the first count tried is below 1. Otherwise it fails only when no
    count from the first one tried up to sizeMode fits. With at least one
    mode and one neighbour, it fails exactly when maxNeigh exceeds the
    limit. With no neighbours or no modes that equivalence is not claimed:
    maxNeigh = 0 with a limit of 1 starts the search at count 0 and fails,
    although every positive count fits;
  - a worked case: 37 modes over 40 neighbours at 256 threads per block
    give 7 batches of 6 modes;
  - `setMaxThreadsPerBlock`, the getters, and the single-atom `calculate`
    that wraps its arguments into a one-atom batch call.

The radial and angular parameters (`radiusEta`, `angleEta`, ...) are set
in the base class `SymmFunc`, which is not part of this model.
`SetRadiusParams` and `SetAngleParams` stand in for those setters.

Angular pairs are oriented as follows (`nnp_symm_func_behler.cpp`,
lines 240-251 and 285-288):

- in the weighted layout the inner loop stops at `mneigh = ineigh2`, so it
  visits the pairs with ineigh1 < ineigh2;
- in the explicit layout the inner loop runs over every neighbour. It keeps
  the pair when jelem1 < jelem2, or when the species are equal and
  ineigh1 < ineigh2.

`BehlerPairs.Ordered` states this orientation.

## Model

| member | source | states |
|---|---|---|
| Layout.CheckParams | src/ML-SANNP/nnp_symm_func_behler.cpp:15-33 | the constructor accepts exactly when sizeRad ≥ 1, sizeAng ≥ 0, rcutRad > 0 and (sizeAng > 0 ⇒ rcutAng > 0); with the first three met, the failure message is the angle-cutoff one |
| Layout.TriClosed | src/ML-SANNP/nnp_symm_func_behler.cpp:46 | the recursive triangular number equals the closed form j(j+1)/2 used for the pair count |
| Layout.TriMonotone | src/ML-SANNP/nnp_symm_func_behler.cpp:291 | triangular numbers grow, and strictly by more than the row index, which separates pair rows |
| Layout.PairIndexBounds | src/ML-SANNP/nnp_symm_func_behler.cpp:291 | a species pair j1 ≤ j2 < numElems has index j1 + j2(j2+1)/2 below numElems(numElems+1)/2 |
| Layout.PairIndexInjective | src/ML-SANNP/nnp_symm_func_behler.cpp:291 | distinct ordered species pairs get distinct indices |
| Layout.RowOf | src/ML-SANNP/nnp_symm_func_behler.cpp:291 | the triangle row holding index p: Tri(r) ≤ p < Tri(r+1) |
| Layout.PairOf | src/ML-SANNP/nnp_symm_func_behler.cpp:291 | every index p is the index of some species pair j1 ≤ j2 |
| Layout.PairIndexBijection | src/ML-SANNP/nnp_symm_func_behler.cpp:291 | PairOf inverts PairIndex, and indices below the pair count decode to species below numElems |
| Layout.MulMono | src/ML-SANNP/nnp_symm_func_behler.cpp:175-204 | helper: monotonicity of scaling by a non-negative block size |
| Layout.RadialRowInRange | src/ML-SANNP/nnp_symm_func_behler.cpp:175-204 | radial row imode + jelem·sizeRad lies in [0, numRadBasis) under both layouts |
| Layout.QuotRemUnique | src/ML-SANNP/nnp_symm_func_behler.cpp:175-204 | block offset and mode within a block are determined by the flat row |
| Layout.RadialRowInjective | src/ML-SANNP/nnp_symm_func_behler.cpp:175-204 | radial rows of distinct (species, mode) never collide |
| Layout.AngularOffsetRegroup | src/ML-SANNP/nnp_symm_func_behler.cpp:291-398 | kbase + ilambda·sizeAng regroups as sizeAng·(ilambda + 2·pair) |
| Layout.AngularRowInRange | src/ML-SANNP/nnp_symm_func_behler.cpp:291-398 | an angular row lies in [numRadBasis, numRadBasis + numAngBasis) |
| Layout.PairBlockInRange | src/ML-SANNP/nnp_symm_func_behler.cpp:291 | the pair block of a visited pair is one of the np blocks of the layout |
| Layout.AngularOffsetBound | src/ML-SANNP/nnp_symm_func_behler.cpp:453 | mode, sign branch and pair block together stay below sizeAng·2·np |
| Layout.AngularBlockSize | src/ML-SANNP/nnp_symm_func_behler.cpp:38-49 | numAngBasis = sizeAng·2·np, np = 1 (weighted) or the number of species pairs |
| Layout.ScaledBound | src/ML-SANNP/nnp_symm_func_behler.cpp:453 | offset r + s·q stays below s·m when q < m |
| Layout.AngularRowInjective | src/ML-SANNP/nnp_symm_func_behler.cpp:291-398 | angular rows of distinct (species pair, sign branch, mode) never collide |
| Layout.FlatIndexInRange | src/ML-SANNP/nnp_symm_func_behler.cpp:207-209 | Jacobian offset row + col·numBasis lies inside numBasis·3·numNeighbor |
| Layout.FlatIndexInjective | src/ML-SANNP/nnp_symm_func_behler.cpp:207-209 | distinct Jacobian entries have distinct flat offsets |
| Layout.TwoSpeciesLayout | src/ML-SANNP/nnp_symm_func_behler.cpp:38-49 | two species, sizeRad = 4, sizeAng = 2, explicit layout: 8 radial + 12 angular = 20 basis functions |
| BehlerWrites.Zeros | src/ML-SANNP/nnp_symm_func_behler.cpp:130-142 | the zeroed buffers: numBasis data entries and numBasis·3·numNeighbor Jacobian entries, all 0 |
| BehlerWrites.Step | src/ML-SANNP/nnp_symm_func_behler.cpp:206-210 | one scatter-add keeps both buffer lengths |
| BehlerWrites.Apply | src/ML-SANNP/nnp_symm_func_behler.cpp:206-210 | a list of scatter-adds keeps both buffer lengths |
| BehlerWrites.ApplySnoc | src/ML-SANNP/nnp_symm_func_behler.cpp:206-210 | applying one more write is one more Step |
| BehlerWrites.StepPadded | src/ML-SANNP/nnp_symm_func_behler.cpp:206-210 | a scatter-add that lands inside the buffers acts the same when extra entries follow them, and leaves those entries alone |
| BehlerWrites.ApplyPadded | src/ML-SANNP/nnp_symm_func_behler.cpp:150-467 | a list of in-buffer scatter-adds acts the same when extra entries follow the buffers, and leaves those entries alone |
| BehlerWrites.AppendAssoc | src/ML-SANNP/nnp_symm_func_behler.cpp:150-467 | helper: sequence concatenation is associative, used to regroup write lists |
| BehlerWrites.ApplyAppend | src/ML-SANNP/nnp_symm_func_behler.cpp:150-467 | applying two lists in turn equals applying their concatenation, so the loop levels compose |
| BehlerWrites.ConcatPush | src/ML-SANNP/nnp_symm_func_behler.cpp:150-212 | the writes of one more block follow the earlier blocks' writes |
| BehlerWrites.RadialTable | src/ML-SANNP/nnp_symm_func_behler.cpp:150-212 | one block of radial writes per neighbour |
| BehlerWrites.RadialTableAt | src/ML-SANNP/nnp_symm_func_behler.cpp:150-212 | block i holds neighbour i's radial writes |
| BehlerWrites.RadialBlocksPush | src/ML-SANNP/nnp_symm_func_behler.cpp:150-212 | the outer radial loop extends its blocks by the next neighbour's writes |
| BehlerWrites.RadialBlocksFull | src/ML-SANNP/nnp_symm_func_behler.cpp:150-212 | after numNeighbor iterations the blocks are the whole radial table |
| BehlerWrites.ModeWrites | src/ML-SANNP/nnp_symm_func_behler.cpp:453-463 | one angular mode adds the value to its row and six gradient entries to neighbour 1's and neighbour 2's three coordinate columns |
| BehlerWrites.PairTable | src/ML-SANNP/nnp_symm_func_behler.cpp:259-467 | one block of angular writes per visited pair |
| BehlerWrites.PairTableAt | src/ML-SANNP/nnp_symm_func_behler.cpp:259-467 | block j holds the writes of the j-th visited pair |
| BehlerWrites.PairBlocksPush | src/ML-SANNP/nnp_symm_func_behler.cpp:259-467 | visiting the next pair extends the blocks by that pair's writes |
| BehlerWrites.PairBlocksFull | src/ML-SANNP/nnp_symm_func_behler.cpp:226-468 | blocks for every visited pair make up the whole pair table |
| BehlerWrites.RowPairsGrow | src/ML-SANNP/nnp_symm_func_behler.cpp:259-288 | the pairs visited by a longer inner loop extend those of a shorter one |
| BehlerWrites.AngularPairsGrow | src/ML-SANNP/nnp_symm_func_behler.cpp:226-251 | the pairs visited by a longer outer loop extend those of a shorter one |
| BehlerWrites.RowPrefix | src/ML-SANNP/nnp_symm_func_behler.cpp:226-288 | midway through a row, the pairs visited so far are a prefix of the full enumeration |
| BehlerWrites.NextPair | src/ML-SANNP/nnp_symm_func_behler.cpp:259-288 | an inner iteration either visits (i1, i2) as the next pair of the enumeration or skips it, leaving the visited prefix unchanged |
| BehlerWrites.RowComplete | src/ML-SANNP/nnp_symm_func_behler.cpp:226-232 | an outer index inside the angular cutoff adds its whole row; one outside it adds nothing |
| BehlerWrites.PrefixExtend | src/ML-SANNP/nnp_symm_func_behler.cpp:226-468 | a prefix of a list stays a prefix when the list is extended |
| BehlerWrites.PrefixTrans | src/ML-SANNP/nnp_symm_func_behler.cpp:226-468 | prefixes compose |
| BehlerWrites.PrefixOf | src/ML-SANNP/nnp_symm_func_behler.cpp:226-468 | a prefix is the leading slice of the longer list |
| BehlerWrites.PrefixAppend | src/ML-SANNP/nnp_symm_func_behler.cpp:226-468 | a shared head preserves the prefix order |
| Behler.ScatterAdd | src/ML-SANNP/nnp_symm_func_behler.cpp:206-210 | one `+=` on symmData or symmDiff takes the buffers from Apply(start, done) to Apply(start, done + [w]) |
| Behler.ScatterAll | src/ML-SANNP/nnp_symm_func_behler.cpp:455-463 | a run of scatter-adds takes the buffers to Apply(start, done + ws) |
| Behler.SymmFuncBehler.constructor | src/ML-SANNP/nnp_symm_func_behler.cpp:12-61 | with valid parameters, stores them, sets numRadBasis/numAngBasis by the layout policy and numBasis as their sum, and leaves the parameter lists empty and angleMod false |
| Behler.SymmFuncBehler.Calculate | src/ML-SANNP/nnp_symm_func_behler.cpp:68-469 | fails exactly on a null neighbour list or output buffer, and then writes nothing; otherwise, with buffers at least numBasis and numBasis·3·numNeighbor long, their first numBasis and numBasis·3·numNeighbor entries equal Output (zeros plus every radial and angular scatter-add in loop order) and every entry past those prefixes is unchanged |
| Behler.SymmFuncBehler.SetRadiusParams | src/ML-SANNP/nnp_symm_func_behler.cpp:187-188 | stands in for the base-class setter of the radial parameters read here: assigns radiusEta and radiusShift and leaves the angular form and lists unchanged |
| Behler.SymmFuncBehler.SetAngleParams | src/ML-SANNP/nnp_symm_func_behler.cpp:364-371 | stands in for the base-class setter of the angular form and parameters read here: assigns angleMod, angleEta, angleZeta and angleShift and leaves the radial lists unchanged |
| Behler.CalculateExample | src/ML-SANNP/nnp_symm_func_behler.cpp:12-469 | constructor, both setters, then calculate on one neighbour with buffers one entry too long: the object is ready, the call passes, the used prefixes equal Output and the extra entries keep their values |
| Behler.ZeroBuffers | src/ML-SANNP/nnp_symm_func_behler.cpp:130-142 | the used prefixes of both buffers become all zeros and the rest of each buffer is unchanged |
| Behler.ZeroData | src/ML-SANNP/nnp_symm_func_behler.cpp:131-134 | the first numBasis entries of symmData become 0 and the rest is unchanged |
| Behler.ZeroDiff | src/ML-SANNP/nnp_symm_func_behler.cpp:136-142 | the first numBasis·3·numNeighbor entries of symmDiff become 0 and the rest is unchanged |
| Behler.PaddedOutput | src/ML-SANNP/nnp_symm_func_behler.cpp:130-468 | running calculate's writes on zeroed prefixes followed by untouched tails gives Output followed by the same tails |
| Behler.AddRadial | src/ML-SANNP/nnp_symm_func_behler.cpp:150-212 | the radial loop performs exactly RadialWrites on the zeroed buffers |
| Behler.VisitNeighbor | src/ML-SANNP/nnp_symm_func_behler.cpp:150-212 | one outer radial iteration appends neighbour i's block |
| Behler.AddRadialNeighbor | src/ML-SANNP/nnp_symm_func_behler.cpp:153-211 | neighbour i adds the writes of all sizeRad modes (none beyond the radial cutoff) |
| Behler.AddRadialMode | src/ML-SANNP/nnp_symm_func_behler.cpp:185-211 | one mode adds its value and the three gradient entries of neighbour i |
| Behler.RadialBase | src/ML-SANNP/nnp_symm_func_behler.cpp:175-204 | the row of radial mode imode is RadialRow(jelem, imode) |
| Behler.RadialWritesInBuffer | src/ML-SANNP/nnp_symm_func_behler.cpp:204-210 | a radial mode's row and its three Jacobian offsets lie inside the buffers |
| Behler.AddAngular | src/ML-SANNP/nnp_symm_func_behler.cpp:226-468 | the angular loop nest performs the writes of every enumerated pair, in enumeration order |
| Behler.VisitRow | src/ML-SANNP/nnp_symm_func_behler.cpp:226-468 | one outer angular iteration extends the visited pairs to those of outer indices 0 .. i2 |
| Behler.AddAngularRow | src/ML-SANNP/nnp_symm_func_behler.cpp:259-467 | the inner loop visits exactly the row of i2 |
| Behler.VisitPair | src/ML-SANNP/nnp_symm_func_behler.cpp:259-288 | one inner iteration extends the visited prefix by (i1, i2) when the filters let it through |
| Behler.AddPair | src/ML-SANNP/nnp_symm_func_behler.cpp:291-466 | a visited pair adds exactly PairWrites (nothing when the third side is beyond the cutoff) |
| Behler.AddTriplet | src/ML-SANNP/nnp_symm_func_behler.cpp:352-466 | both sign branches are processed in order |
| Behler.AddLambda | src/ML-SANNP/nnp_symm_func_behler.cpp:352-466 | one sign branch adds its mode writes, or nothing when χ₀ is below the threshold |
| Behler.LambdaBranch | src/ML-SANNP/nnp_symm_func_behler.cpp:356-360 | a sign branch is skipped exactly when χ₀ < 1e-6 |
| Behler.AddAngularModes | src/ML-SANNP/nnp_symm_func_behler.cpp:367-464 | the mode loop adds every mode's writes in order |
| Behler.AddAngularMode | src/ML-SANNP/nnp_symm_func_behler.cpp:367-464 | one mode adds its value and six gradient entries |
| Behler.AngularBase | src/ML-SANNP/nnp_symm_func_behler.cpp:291-398 | the row of an angular mode is AngularRow of the species pair, sign branch and mode |
| Behler.ModeWritesInBuffer | src/ML-SANNP/nnp_symm_func_behler.cpp:453-463 | every write of an angular mode lies inside both buffers |
| BehlerPairs.OrderedStrict | src/ML-SANNP/nnp_symm_func_behler.cpp:240-288 | of two distinct neighbours exactly one orientation is visited; never a neighbour with itself |
| BehlerPairs.RowPairsSpec | src/ML-SANNP/nnp_symm_func_behler.cpp:259-288 | the inner loop visits exactly the filtered inner indices, in increasing order |
| BehlerPairs.AngularPairsSpec | src/ML-SANNP/nnp_symm_func_behler.cpp:226-288 | the nest visits only pairable pairs, all of them, in loop order |
| BehlerPairs.AngularPairsStep | src/ML-SANNP/nnp_symm_func_behler.cpp:226-251 | one more outer index appends its row, or nothing outside the cutoff |
| BehlerPairs.AngularPairsSound | src/ML-SANNP/nnp_symm_func_behler.cpp:226-288 | every visited pair is inside the angular cutoff and in visiting orientation |
| BehlerPairs.AngularPairsComplete | src/ML-SANNP/nnp_symm_func_behler.cpp:226-288 | every pairable pair is visited |
| BehlerPairs.AngularPairsOrdered | src/ML-SANNP/nnp_symm_func_behler.cpp:226-288 | visited pairs come in strictly increasing loop order |
| BehlerPairs.AngularPairsExactlyOnce | src/ML-SANNP/nnp_symm_func_behler.cpp:226-288 | each unordered pair of distinct neighbours inside the cutoff is visited exactly once, never in both orientations, never with itself |
| BehlerPairs.FewNeighborsNoPairs | src/ML-SANNP/nnp_symm_func_behler.cpp:214-217 | with fewer than two neighbours no pair is visited |
| BehlerPairs.FarNeighborUnpaired | src/ML-SANNP/nnp_symm_func_behler.cpp:229-265 | a neighbour at or beyond the angular cutoff is in no visited pair |
| BehlerProps.AllLandAppend | src/ML-SANNP/nnp_symm_func_behler.cpp:150-467 | writes that land in a block still land there after concatenation |
| BehlerProps.ConcatLands | src/ML-SANNP/nnp_symm_func_behler.cpp:150-467 | blocks that all land concatenate to writes that all land |
| BehlerProps.LandsInBuffer | src/ML-SANNP/nnp_symm_func_behler.cpp:455-463 | a write landing in [0, numBasis) and in a neighbour column is inside both buffers |
| BehlerProps.RadialModeLands | src/ML-SANNP/nnp_symm_func_behler.cpp:204-210 | a radial mode writes inside the radial block |
| BehlerProps.RadialModesLand | src/ML-SANNP/nnp_symm_func_behler.cpp:185-211 | all modes of a neighbour write inside the radial block |
| BehlerProps.RadialWritesLand | src/ML-SANNP/nnp_symm_func_behler.cpp:150-212 | every radial write of the call lands in [0, numRadBasis) |
| BehlerProps.AngularModeLands | src/ML-SANNP/nnp_symm_func_behler.cpp:453-463 | an angular mode writes inside the angular block |
| BehlerProps.AngularModesLand | src/ML-SANNP/nnp_symm_func_behler.cpp:367-464 | all modes of a sign branch write inside the angular block |
| BehlerProps.LambdaPrefixLands | src/ML-SANNP/nnp_symm_func_behler.cpp:352-466 | both sign branches of a pair write inside the angular block |
| BehlerProps.AngularWritesLand | src/ML-SANNP/nnp_symm_func_behler.cpp:226-468 | every angular write of the call lands in [numRadBasis, numBasis) |
| BehlerProps.CalcWritesFit | src/ML-SANNP/nnp_symm_func_behler.cpp:150-468 | every scatter-add of calculate is inside symmData and symmDiff, radial ones in the radial block, angular ones in the angular block |
| BehlerProps.ConcatEmpty | src/ML-SANNP/nnp_symm_func_behler.cpp:214-217 | empty blocks concatenate to no writes |
| BehlerProps.PairSkips | src/ML-SANNP/nnp_symm_func_behler.cpp:317-320 | in the full form a pair whose third side reaches the angular cutoff adds nothing |
| BehlerProps.NoAngularModesNoWrites | src/ML-SANNP/nnp_symm_func_behler.cpp:214-217 | with sizeAng = 0 a pair adds nothing |
| BehlerProps.AngularSkipIsShortcut | src/ML-SANNP/nnp_symm_func_behler.cpp:214-217 | the early returns only cut short work that adds nothing: the output equals radial writes plus the full pair enumeration |
| BehlerProps.FarNeighborSilent | src/ML-SANNP/nnp_symm_func_behler.cpp:153-265 | a neighbour beyond both cutoffs has no radial writes and is in no pair |
| BehlerProps.AllFarZero | src/ML-SANNP/nnp_symm_func_behler.cpp:130-468 | with every neighbour beyond both cutoffs the output stays all zeros |
| BehlerProps.ThirdSideCancels | src/ML-SANNP/nnp_symm_func_behler.cpp:453-463 | per axis the two neighbour columns of a mode sum to the gradients for the two neighbours; the third-side term is added to one and subtracted from the other |
| Chebyshev.SlideRelated | src/ML-SANNP/nnp_symm_func_chebyshev.h:177-181 | one recurrence step keeps T, dT and U in the relation T = U − sU₁, dT = n·U₁ |
| Chebyshev.WindowRelated | src/ML-SANNP/nnp_symm_func_chebyshev.h:72-181 | every window of the recurrence satisfies that relation |
| Chebyshev.WindowValues | src/ML-SANNP/nnp_symm_func_chebyshev.h:177-181 | the sliding window holds T, DT and U at i and i−1 |
| Chebyshev.WindowT | src/ML-SANNP/nnp_symm_func_chebyshev.h:179 | the window's T entries follow the value recurrence |
| Chebyshev.WindowDT | src/ML-SANNP/nnp_symm_func_chebyshev.h:180 | the window's dT entries follow the derivative recurrence |
| Chebyshev.WindowU | src/ML-SANNP/nnp_symm_func_chebyshev.h:177-181 | the window's U entries are the polynomials of the second kind |
| Chebyshev.TFromU | src/ML-SANNP/nnp_symm_func_chebyshev.h:179 | T_i(s) = U_i(s) − s·U_{i−1}(s) |
| Chebyshev.DTIsDerivative | src/ML-SANNP/nnp_symm_func_chebyshev.h:180 | the derivative recurrence computes i·U_{i−1}(s), the derivative of T_i |
| Chebyshev.AtOne | src/ML-SANNP/nnp_symm_func_chebyshev.h:72-181 | at s = 1: T_i = 1, U_i = i+1 and dT_i = i² |
| Chebyshev.UnrollBound | src/ML-SANNP/nnp_symm_func_chebyshev.h:80-104 | the unrolled loop bound n − (n−lo) mod w stays between lo and n and leaves a whole number of passes |
| Chebyshev.Unroll2Bound | src/ML-SANNP/nnp_symm_func_chebyshev.h:80-89 | the UNROLL2 bound is an even distance from 2 and within [2, n] |
| Chebyshev.Unroll4Bound | src/ML-SANNP/nnp_symm_func_chebyshev.h:91-104 | the UNROLL4 bound is a multiple of 4 from 2 and within [2, n] |
| Chebyshev.Unroll6Bound | src/ML-SANNP/nnp_symm_func_chebyshev.h:106-137 | the 6-wide and the following 4-wide bounds are whole passes and ordered 2 ≤ m6 ≤ m4 ≤ n |
| Chebyshev.Unroll8Bound | src/ML-SANNP/nnp_symm_func_chebyshev.h:139-174 | the 8-wide and the following 4-wide bounds are whole passes and ordered 2 ≤ m8 ≤ m4 ≤ n |
| Chebyshev.Filled | src/ML-SANNP/nnp_symm_func_chebyshev.h:67-182 | the arrays after the call: T_j (or dT_j) for j below max(n, 2), the old contents above |
| Chebyshev.Range | src/ML-SANNP/nnp_symm_func_chebyshev.h:177-181 | the indices lo .. hi−1 in order |
| Chebyshev.RangeSplit | src/ML-SANNP/nnp_symm_func_chebyshev.h:80-181 | consecutive index ranges join |
| Chebyshev.WriteOrder | src/ML-SANNP/nnp_symm_func_chebyshev.h:72-181 | seeds, unrolled passes and tail write 0 .. max(n,2)−1 once each, in order |
| Chebyshev.WriteOrderCleanup | src/ML-SANNP/nnp_symm_func_chebyshev.h:106-181 | the same with the 4-wide cleanup pass of UNROLL6/UNROLL8 |
| Chebyshev.FilledFrom | src/ML-SANNP/nnp_symm_func_chebyshev.h:67-182 | arrays holding the recurrence up to max(n,2) and the old contents above are Filled |
| Chebyshev.Seed | src/ML-SANNP/nnp_symm_func_chebyshev.h:72-75 | t[0..2) = 1, s and dt[0..2) = 0, 1; nothing else changes |
| Chebyshev.NextT | src/ML-SANNP/nnp_symm_func_chebyshev.h:179 | t[i] becomes T_i(s); nothing else changes |
| Chebyshev.NextDT | src/ML-SANNP/nnp_symm_func_chebyshev.h:180 | dt[i] becomes the derivative of T_i; nothing else changes |
| Chebyshev.Pass2 | src/ML-SANNP/nnp_symm_func_chebyshev.h:82-89 | one UNROLL2 pass extends both arrays by two correct entries |
| Chebyshev.Pass4 | src/ML-SANNP/nnp_symm_func_chebyshev.h:93-104 | one UNROLL4 pass extends both arrays by four correct entries |
| Chebyshev.Pass6 | src/ML-SANNP/nnp_symm_func_chebyshev.h:108-123 | one UNROLL6 pass extends both arrays by six correct entries |
| Chebyshev.Pass8 | src/ML-SANNP/nnp_symm_func_chebyshev.h:141-160 | one UNROLL8 pass extends both arrays by eight correct entries |
| Chebyshev.Loop2 | src/ML-SANNP/nnp_symm_func_chebyshev.h:80-89 | the UNROLL2 loop fills both arrays up to its bound, writing lo .. m−1 in order |
| Chebyshev.Loop4 | src/ML-SANNP/nnp_symm_func_chebyshev.h:91-104 | the UNROLL4 loop (also the cleanup of UNROLL6/8) fills up to its bound, in order |
| Chebyshev.Loop6 | src/ML-SANNP/nnp_symm_func_chebyshev.h:106-123 | the 6-wide loop fills up to its bound, in order |
| Chebyshev.Loop8 | src/ML-SANNP/nnp_symm_func_chebyshev.h:139-160 | the 8-wide loop fills up to its bound, in order |
| Chebyshev.Tail | src/ML-SANNP/nnp_symm_func_chebyshev.h:177-181 | the remainder loop fills m .. n−1, in order |
| Chebyshev.ChebyshevPlain | src/ML-SANNP/nnp_symm_func_chebyshev.h:67-78 | not unrolled: t and dt become Filled, indices written 0 .. max(n,2)−1 in order |
| Chebyshev.ChebyshevUnroll2 | src/ML-SANNP/nnp_symm_func_chebyshev.h:80-89 | UNROLL2: the same result and write order |
| Chebyshev.ChebyshevUnroll4 | src/ML-SANNP/nnp_symm_func_chebyshev.h:91-104 | UNROLL4: the same result and write order |
| Chebyshev.ChebyshevUnroll6 | src/ML-SANNP/nnp_symm_func_chebyshev.h:106-137 | UNROLL6: the same result and write order |
| Chebyshev.ChebyshevUnroll8 | src/ML-SANNP/nnp_symm_func_chebyshev.h:139-174 | UNROLL8: the same result and write order |
| Chebyshev.TrigDeriv | src/ML-SANNP/nnp_symm_func_chebyshev.h:62-63 | below SMALL_ANG the series; otherwise d·sin r = n·sin(nr) |
| Chebyshev.QuotientForm | src/ML-SANNP/nnp_symm_func_chebyshev.h:63 | n·sin(nr)/sin r times sin r gives back n·sin(nr) |
| Chebyshev.ChebyshevTrigonometric | src/ML-SANNP/nnp_symm_func_chebyshev.h:57-64 | t[0] = cos(nr), dt[0] = the derivative form; nothing else changes |
| Chebyshev.TrigonometricAtZero | src/ML-SANNP/nnp_symm_func_chebyshev.h:57-64 | at r = 0 the cosine form agrees with the recurrence at s = 1: T_n(1) = 1 and dT_n(1) = n² |
| Chebyshev.SmallAngleBelowLimit | src/ML-SANNP/nnp_symm_func_chebyshev.h:62 | the small-angle series never exceeds its limit n² at r = 0 |
| Chebyshev.SquareAtLeastOne | src/ML-SANNP/nnp_symm_func_chebyshev.h:62 | helper: n² ≥ 1 for n ≠ 0, so the series' correction term is non-positive |
| Chebyshev.SeriesAlgebra | src/ML-SANNP/nnp_symm_func_chebyshev.h:62 | helper: q·(1 − (q−1)/6·r²) ≤ q for q ≥ 1 |
| Chebyshev.SymmFuncChebyshev.GetNumRadBasis | src/ML-SANNP/nnp_symm_func_chebyshev.h:30-33 | returns numRadBasis |
| Chebyshev.SymmFuncChebyshev.GetNumAngBasis | src/ML-SANNP/nnp_symm_func_chebyshev.h:35-38 | returns numAngBasis |
| Gpu.ModesPerBatchIsCeiling | src/ML-SANNP/nnp_symm_func_gpu.h:133-134 | modesPerBatch is the ceiling of sizeMode/nb: sizeMode ≤ mpb·nb < sizeMode + nb, and at least 1 for sizeMode ≥ 1 |
| Gpu.FirstBatchCountIsLowerBound | src/ML-SANNP/nnp_symm_func_gpu.h:124 | the starting count (sizeMode·maxNeigh − 1)/maxThreads + 1 is no larger than any count that fits, so starting there skips no solution |
| Gpu.OneModePerBatchFits | src/ML-SANNP/nnp_symm_func_gpu.h:124-143 | with 1 ≤ maxNeigh ≤ maxThreads the search starts within [1, sizeMode] and sizeMode batches fit |
| Gpu.TooManyNeighborsNeverFits | src/ML-SANNP/nnp_symm_func_gpu.h:136 | when maxNeigh > maxThreads no batch count fits |
| Gpu.NoneFitsExtend | src/ML-SANNP/nnp_symm_func_gpu.h:126-144 | a count that does not fit extends the range of counts known not to fit |
| Gpu.SearchExhausted | src/ML-SANNP/nnp_symm_func_gpu.h:128-131 | the fatal exit happens only when the first count tried is below 1 or no count in [start, sizeMode] fits; with sizeMode, maxNeigh ≥ 1 that means maxNeigh > maxThreads |
| Gpu.SearchSucceeded | src/ML-SANNP/nnp_symm_func_gpu.h:136-139 | the accepted count is the smallest that fits, with ceiling spreading |
| Gpu.SingleAtomCall | src/ML-SANNP/nnp_symm_func_gpu.h:35-41 | the single-atom call is a well-formed batch of one atom, offset 0, carrying the caller's neighbour arguments and its symmData and symmDiff buffers |
| Gpu.SingleAtomCallInjective | src/ML-SANNP/nnp_symm_func_gpu.h:35-41 | two single-atom calls are equal exactly when all their arguments, output buffers included, are equal |
| Gpu.SymmFuncGPU.SetMaxThreadsPerBlock | src/ML-SANNP/nnp_symm_func_gpu.h:55-61 | a positive limit replaces the old one; a non-positive one is ignored; nothing else changes |
| Gpu.SymmFuncGPU.GetNumRadBasis | src/ML-SANNP/nnp_symm_func_gpu.h:63-66 | returns numRadBasis |
| Gpu.SymmFuncGPU.GetNumAngBasis | src/ML-SANNP/nnp_symm_func_gpu.h:68-71 | returns numAngBasis |
| Gpu.SymmFuncGPU.GetSymmGrad | src/ML-SANNP/nnp_symm_func_gpu.h:46-49 | returns the symmGrad buffer |
| Gpu.SymmFuncGPU.SpreadModes | src/ML-SANNP/nnp_symm_func_gpu.h:133-134 | computes ModesPerBatch, the ceiling spread |
| Gpu.WorkedBatching | src/ML-SANNP/nnp_symm_func_gpu.h:122-145 | for 37 modes, 40 neighbours and 256 threads the search starts at 6 batches (7 modes each, 280 threads, too many); 7 batches of 6 modes (240 threads) fit, and no count below 7 does |
| Gpu.WorkedSearch | src/ML-SANNP/nnp_symm_func_gpu.h:122-145 | getSizeOfModeBatchs on that case returns 7 batches of 6 modes |
| Gpu.ZeroNeighborsStartBelowOne | src/ML-SANNP/nnp_symm_func_gpu.h:124-130 | for 3 modes, no neighbours and 1 thread per block the first count tried is 0, although counts 1, 2 and 3 all fit |
| Gpu.ZeroNeighborsSearch | src/ML-SANNP/nnp_symm_func_gpu.h:124-130 | getSizeOfModeBatchs fails on that case |
| Gpu.SymmFuncGPU.GetSizeOfModeBatchs | src/ML-SANNP/nnp_symm_func_gpu.h:122-145 | on success 1 ≤ nb ≤ sizeMode, mpb is the ceiling spread, mpb·maxNeigh fits and no smaller count fits; a first count below 1 always fails; any other failure means no count from the start to sizeMode fits; for sizeMode, maxNeigh ≥ 1 it fails exactly when maxNeigh > maxThreadsPerBlock |

## Left out

- The GPU kernels, device buffers, the batched `calculate`, `allocHiddenDiff` and `driveHiddenDiff` are CUDA code and device memory. Only the host logic of `nnp_symm_func_gpu.h` is modelled.
- The real kernels (`exp`, `pow`, `sqrt`, `cos`, `sin` and the cutoff function) are uninterpreted parameters. Floating point is modelled as exact reals: no rounding and no IEEE infinities or NaNs.
- `Common.Quot` stands for the source's real divisions (x/r, 1/sin r). It returns 0 for a zero divisor, where the source would produce an infinity or a NaN.
- `#pragma omp simd` and the `gint` loop-index type change nothing in the model's results.
- `stop_by_error` in the constructor becomes the precondition `CheckParams(...).Pass?`. In `calculate` it becomes a `Fail` outcome. In `getSizeOfModeBatchs` it becomes `None`.
- `numNeighbor` is a `nat`. A negative count in the source zeroes symmData and returns, exactly as numNeighbor = 0 does.
- Gpu.SymmFuncGPU.GetSizeOfModeBatchs: does not model the 32-bit overflow of `sizeMode * maxNeigh`.
- Gpu.SymmFuncGPU.GetSizeOfModeBatchs: requires `maxThreadsPerBlock > 0`, because the constructor that sets it is not part of this model. `setMaxThreadsPerBlock` keeps the value positive.
- Gpu.SymmFuncGPU.GetSizeOfModeBatchs: the fail-iff-too-many-neighbours clause is stated only for `sizeMode ≥ 1` and `maxNeigh ≥ 1`. Outside that range the contract still states that a first count below 1 fails. With `maxNeigh = 0` and `maxThreadsPerBlock = 1` the starting count is 0 and the source fails, although every positive count fits.
- Behler.SymmFuncBehler.Calculate: requires `symmData` and `symmDiff` to be distinct arrays. A call that passes the same array for both is not modelled.
- The constructors of `SymmFuncChebyshev` and `SymmFuncGPU` are in `nnp_symm_func_chebyshev.cpp` and `nnp_symm_func_gpu.cpp`, which are not part of this model.
- `SymmFuncChebyshev::calculate` is in `nnp_symm_func_chebyshev.cpp`, which is not part of this model.
- Chebyshev.ChebyshevPlain, Chebyshev.ChebyshevUnroll2, Chebyshev.ChebyshevUnroll4, Chebyshev.ChebyshevUnroll6, Chebyshev.ChebyshevUnroll8, Chebyshev.ChebyshevTrigonometric: require `t` and `dt` to be distinct arrays. A call that passes the same array for both is not modelled.
- `chebyshevFunction`: the source picks one loop shape at build time. The model has one method per shape. The steps of each shape are factored into helper methods (`Seed`, `PassW`, `LoopW`, `Tail`), and the order of writes is a ghost log.
- Chebyshev.ChebyshevTrigonometric: its results are stated through the value functions `TrigValue` and `TrigDeriv`. They are not stated as a closed form in r.
- `SymmFunc`, the base class, holds the radius and angle parameters and their setters. It is not part of this model. `SetRadiusParams` and `SetAngleParams` only assign the fields.
