# scirpy TCR distances and neighbours, modelled in Dafny

This project models the core of `scirpy/_preprocessing/_tcr_dist.py`. That
module builds a cell × cell neighbourhood graph from the CDR3 sequences of
T-cell receptors. There are four stages.

1. **Sequence distances** (`DistanceCalc`, `Levenshtein`). A distance
   calculator turns a pool of unique sequences into a sparse, upper-triangular
   matrix. Row `i` keeps each column `j >= i` whose distance `d` is at most the
   cutoff and stores `d + 1`, so the implicit 0 of a sparse matrix means
   "farther than the cutoff". Values are stored as `uint8`. There are three
   calculators:
   - identity: the identity matrix;
   - Levenshtein: the standard recursive edit distance;
   - alignment: the smaller of the two self-alignment scores minus the pair's
     score. The external aligner is a function parameter `score`.

   The worker pool becomes a sequential loop over the rows (`CalcDistMat`),
   proved against the function `DistMat`. `tcr_dist` dispatches on the metric
   name.
2. **Sequence index** (`SeqIndex`, `Neighbors.TcrNeighbors.BuildIndexDict`).
   For each selected receptor arm:
   - a sorted, duplicate-free pool of the non-missing sequences of the
     selected chain slots;
   - per chain slot, a map from each pool index to the increasing list of
     cells carrying that sequence.

   A missing value is `None`. `_seq_to_cell_idx` is a loop that appends cells
   (`SeqToCellIdx`), proved against the function `CellLists`.
3. **Cell distances** (`CellDist`). Every stored entry of every arm's matrix
   reaches the cell pairs whose chains carry the two sequences. It reaches them
   in both orientations off the diagonal, and once on it.
   - The model describes this as a sequence of *arrivals* (`AllAdds`).
   - Folding `_add_to_dict` over the arrivals gives the nested dictionary
     cell pair → arm → chain pair → value.
   - The nested loops (`Accumulate`) are proved to compute that fold.
   - Each cell pair is then reduced:
     - `reduce_dual`: the `_reduce_dual_all` rules, or the minimum;
     - `reduce_arms`: over the arms present, in the order TRA, TRB. This is
       the sum for `receptor_arms="all"` and the minimum otherwise. Both are
       independent of the order.
   - Zero results are dropped.
4. **The `TcrNeighbors` object and `tcr_neighbors`** (`Neighbors`). The class
   holds the configuration, the index dictionary and the distance matrix:
   - `compute_distances` fills in every arm's distance matrix and then the
     cell matrix;
   - `connectivities` maps a stored value `v` to `(cutoff - (v - 1)) / cutoff`;
   - `tcr_neighbors` rewrites a zero cutoff to the identity metric.

Each raise site of the code is a constructor of `Common.Error`, returned in a
`Result`.

Integer behaviour follows NumPy 1.x, the version this code was written
against:
- building a `uint8` array from Python integers keeps them modulo 256;
- adding two `np.uint8` scalars gives a `np.uint8`, modulo 256;
- combining a `np.uint8` scalar with a Python integer gives an int64, which
  does not wrap.

Three places in the code do not do what their surrounding logic evidently
intends (see "## Findings"). In each case the model writes down the code as
written, shows the discrepancy on a concrete input, and uses a corrected
definition everywhere else:
- the cutoff bound of the constructor;
- the chain-pair store of `_add_to_dict`;
- the pairing sums of `_reduce_dual_all`, which add two `np.uint8` values and
  wrap modulo 256.

Every member from `Accumulate` on uses the corrected store,
`Policy.Corrected`, and the unbounded pairing sums of `ReduceDualAll`.

## Model

| member | source | states |
|---|---|---|
| DistanceCalc.NewCalculator | scirpy/_preprocessing/_tcr_dist.py:23-38 | a calculator is refused with `CutoffTooLarge` exactly when the cutoff exceeds the largest value whose offset fits in a uint8; otherwise it keeps the cutoff unchanged |
| DistanceCalc.AcceptedCutoffIsLossless | scirpy/_preprocessing/_tcr_dist.py:34-38 | for every accepted cutoff, each distance up to the cutoff survives the uint8 offset encoding unchanged and non-zero |
| DistanceCalc.AsWrittenCutoffLosesDistance255 | scirpy/_preprocessing/_tcr_dist.py:34-38 | the check as written accepts cutoff 255, whose offset distance 256 is stored as 0 |
| DistanceCalc.AsWrittenCutoff255DropsPair | scirpy/_preprocessing/_tcr_dist.py:34-38 | with the accepted cutoff 255, two sequences at Levenshtein distance 255 get no entry: the matrix holds only the diagonal |
| DistanceCalc.IdentityMatrix | scirpy/_preprocessing/_tcr_dist.py:65-67 | the identity calculator's matrix has exactly n entries, one per diagonal cell, each with value 1 |
| DistanceCalc.SelfScores | scirpy/_preprocessing/_tcr_dist.py:199-210 | one self-alignment score per pool sequence, in pool order |
| DistanceCalc.LevenshteinDists | scirpy/_preprocessing/_tcr_dist.py:77-81 | the distances row i looks at are the edit distances from sequence i to sequences i, i+1, … |
| DistanceCalc.AlignDists | scirpy/_preprocessing/_tcr_dist.py:170-178 | the alignment distance of (i, j) is the smaller self score minus the pair score |
| DistanceCalc.RowCoordsSound | scirpy/_preprocessing/_tcr_dist.py:77-81 | every coordinate the row generator yields is a column in range whose distance is within the cutoff, with value distance + 1 |
| DistanceCalc.RowCoordsComplete | scirpy/_preprocessing/_tcr_dist.py:77-81 | every column within the cutoff is yielded |
| DistanceCalc.RowCoordsIncreasing | scirpy/_preprocessing/_tcr_dist.py:77-81 | the generator yields columns in strictly increasing order |
| DistanceCalc.ComputeRow | scirpy/_preprocessing/_tcr_dist.py:73-85 | `_compute_row` (Levenshtein) and `_align_row` (alignment) fail only with `EmptyRow`, the unpacking of a generator that yielded nothing |
| DistanceCalc.StoreRow | scirpy/_preprocessing/_tcr_dist.py:83-85 | unpacking fails with `EmptyRow` exactly when the generator yielded nothing; otherwise each yielded value is stored as uint8 in generator order |
| DistanceCalc.RowDists | scirpy/_preprocessing/_tcr_dist.py:73-85 | row i of the Levenshtein or alignment calculator is the stored form of the coordinates generated from the pair distances of sequence i with sequences i.. n-1 |
| DistanceCalc.RowEmptyIff | scirpy/_preprocessing/_tcr_dist.py:170-182 | a row fails with `EmptyRow` if and only if every distance from sequence i onwards exceeds the cutoff |
| DistanceCalc.RowSound | scirpy/_preprocessing/_tcr_dist.py:73-85 | every entry of row i is at a column j >= i with distance within the cutoff, storing uint8(distance + 1) |
| DistanceCalc.RowComplete | scirpy/_preprocessing/_tcr_dist.py:144-182 | every column j >= i within the cutoff has an entry in row i |
| DistanceCalc.RowIncreasing | scirpy/_preprocessing/_tcr_dist.py:73-85 | a row's columns are strictly increasing |
| DistanceCalc.Place | scirpy/_preprocessing/_tcr_dist.py:97 | stacking places each row entry at its row index, keeping column and value |
| DistanceCalc.NonZero | scirpy/_preprocessing/_tcr_dist.py:98 | `eliminate_zeros` keeps exactly the entries with a non-zero value |
| DistanceCalc.DistMat | scirpy/_preprocessing/_tcr_dist.py:87-101 | `calc_dist_mat`: the identity calculator never fails; the others fail only with `EmptyRow` (an empty row) or `NoRows` (stacking no rows), and a result holds no zero value |
| DistanceCalc.StackErrPersists | scirpy/_preprocessing/_tcr_dist.py:87-101 | once a row fails, the whole matrix computation fails with that row's error |
| DistanceCalc.CalcDistMat | scirpy/_preprocessing/_tcr_dist.py:87-101 | the sequential loop over rows, stacking and zero elimination compute the specified matrix, or its first row's error |
| DistanceCalc.DiagonalDistanceZero | scirpy/_preprocessing/_tcr_dist.py:175-176 | a sequence is at distance 0 from itself under every calculator |
| DistanceCalc.StackSound | scirpy/_preprocessing/_tcr_dist.py:225-227 | every stacked entry lies in the upper triangle, has distance within the cutoff, and stores uint8(distance + 1) |
| DistanceCalc.StackComplete | scirpy/_preprocessing/_tcr_dist.py:225-227 | every upper-triangle pair within the cutoff is among the stacked entries |
| DistanceCalc.StackRowMajor | scirpy/_preprocessing/_tcr_dist.py:97 | the stacked entries are in row-major order |
| DistanceCalc.StackOk | scirpy/_preprocessing/_tcr_dist.py:87-99 | with a non-negative cutoff no row is empty, because the diagonal is always within it |
| DistanceCalc.NonZeroKeepsAll | scirpy/_preprocessing/_tcr_dist.py:98 | zero elimination leaves a matrix without zeros unchanged |
| DistanceCalc.DistMatIsStack | scirpy/_preprocessing/_tcr_dist.py:97-99 | for an accepted calculator and a non-empty pool, zero elimination removes nothing from the stacked rows |
| DistanceCalc.EntryLossless | scirpy/_preprocessing/_tcr_dist.py:34-38 | an accepted calculator stores exactly distance + 1 for every pair within its cutoff |
| DistanceCalc.DistMatSound | scirpy/_preprocessing/_tcr_dist.py:87-101 | for an accepted calculator and a non-empty pool, every entry is an upper-triangle pair within the cutoff storing distance + 1, in [1, cutoff + 1] |
| DistanceCalc.DistMatComplete | scirpy/_preprocessing/_tcr_dist.py:184-229 | every upper-triangle pair within the cutoff appears with value distance + 1 |
| DistanceCalc.DistMatRowMajor | scirpy/_preprocessing/_tcr_dist.py:87-101 | the matrix entries are in row-major order |
| DistanceCalc.DistMatFails | scirpy/_preprocessing/_tcr_dist.py:87-101 | the computation fails if and only if the pool is empty (`NoRows`, stacking nothing) or the cutoff is negative (`EmptyRow`) |
| DistanceCalc.RowCoordsBeyond | scirpy/_preprocessing/_tcr_dist.py:77-81 | a row whose distances all exceed the cutoff yields nothing |
| DistanceCalc.ZeroCutoffLevenshteinRow | scirpy/_preprocessing/_tcr_dist.py:73-85 | with cutoff 0 and a duplicate-free pool, Levenshtein row i holds only the diagonal with value 1 |
| DistanceCalc.ZeroCutoffLevenshteinStack | scirpy/_preprocessing/_tcr_dist.py:87-99 | with cutoff 0 and a duplicate-free pool, the stacked Levenshtein rows form the identity matrix |
| DistanceCalc.ZeroCutoffLevenshteinIsIdentity | scirpy/_preprocessing/_tcr_dist.py:60-67 | on a duplicate-free pool, Levenshtein with cutoff 0 gives the same matrix as the identity calculator |
| DistanceCalc.SelectCalculator | scirpy/_preprocessing/_tcr_dist.py:242-251 | a calculator instance is used as given; an unknown name fails with `InvalidMetric`; a known name builds the matching calculator with the given cutoff (default alignment parameters), or fails with `CutoffTooLarge` |
| DistanceCalc.TcrDist | scirpy/_preprocessing/_tcr_dist.py:232-254 | `tcr_dist` fails only with `InvalidMetric`, `CutoffTooLarge`, `EmptyRow` or `NoRows`, and a result holds no zero value |
| DistanceCalc.TcrDistOutcome | scirpy/_preprocessing/_tcr_dist.py:232-254 | `tcr_dist` by name fails if and only if the name is unknown, the cutoff is too large, or a non-identity metric meets an empty pool or a negative cutoff; the identity metric returns the identity matrix |
| DistanceCalc.TcrDistEntries | scirpy/_preprocessing/_tcr_dist.py:232-254 | every entry of `tcr_dist`'s result is in the upper triangle and at least 1; it is exactly 1 for identity and at most cutoff + 1 otherwise |
| DistanceCalc.ComputeTcrDist | scirpy/_preprocessing/_tcr_dist.py:232-254 | the dispatch followed by the calculator's loop returns the specified matrix or error |
| Levenshtein.SelfDistance | scirpy/_preprocessing/_tcr_dist.py:79 | the edit distance of a sequence to itself is 0 |
| Levenshtein.ZeroMeansEqual | scirpy/_preprocessing/_tcr_dist.py:79 | edit distance 0 holds only for equal sequences |
| Levenshtein.Symmetric | scirpy/_preprocessing/_tcr_dist.py:79 | the edit distance is symmetric |
| SeqIndex.LessIrreflexive | scirpy/_preprocessing/_tcr_dist.py:318 | the string order that `np.unique` sorts by is irreflexive |
| SeqIndex.LessTransitive | scirpy/_preprocessing/_tcr_dist.py:318 | the string order is transitive |
| SeqIndex.LessTotal | scirpy/_preprocessing/_tcr_dist.py:318 | any two distinct strings are ordered one way or the other |
| SeqIndex.SortedIsDistinct | scirpy/_preprocessing/_tcr_dist.py:318 | a strictly sorted pool holds no sequence twice |
| SeqIndex.Insert | scirpy/_preprocessing/_tcr_dist.py:318 | inserting into a strictly sorted pool keeps it strictly sorted and adds exactly that sequence |
| SeqIndex.SortedUnique | scirpy/_preprocessing/_tcr_dist.py:318 | `np.unique` returns a strictly sorted sequence with exactly the input's values |
| SeqIndex.Values | scirpy/_preprocessing/_tcr_dist.py:318 | the non-missing values of a column are exactly the sequences it carries |
| SeqIndex.AllValues | scirpy/_preprocessing/_tcr_dist.py:317-318 | stacking the columns and dropping missing values leaves exactly the sequences some column carries |
| SeqIndex.UniquePool | scirpy/_preprocessing/_tcr_dist.py:313-318 | the pool is strictly sorted, duplicate-free, and as a set equal to the non-missing values of the selected columns |
| SeqIndex.SameHead | scirpy/_preprocessing/_tcr_dist.py:293-296 | two increasing cell lists with the same members start with the same cell |
| SeqIndex.TailIn | scirpy/_preprocessing/_tcr_dist.py:293-296 | after equal heads, the rest of one increasing list lies in the rest of the other |
| SeqIndex.IncreasingUnique | scirpy/_preprocessing/_tcr_dist.py:293-296 | two strictly increasing cell lists with the same members are equal, so a cell list is determined by its members |
| SeqIndex.Present | scirpy/_preprocessing/_tcr_dist.py:285 | the cells with a chain are exactly the cells whose value is not missing, in increasing order |
| SeqIndex.CellsOf | scirpy/_preprocessing/_tcr_dist.py:293-296 | the cell list of a sequence is strictly increasing and holds exactly the cells carrying it |
| SeqIndex.SeqToIndex | scirpy/_preprocessing/_tcr_dist.py:282 | the reverse mapping has exactly the pool's sequences as keys, each mapped to a position holding it |
| SeqIndex.DistinctIndex | scirpy/_preprocessing/_tcr_dist.py:282 | on a duplicate-free pool each sequence maps to its own position, and the indices are exactly 0..n-1 |
| SeqIndex.KeyOfSequence | scirpy/_preprocessing/_tcr_dist.py:288-290 | an index of the reverse mapping names sequence v if and only if the pool holds v there |
| SeqIndex.CellLists | scirpy/_preprocessing/_tcr_dist.py:293-298 | `seq_to_cell` has one key per pool index, listing the cells that carry that index's sequence |
| SeqIndex.SelectMembers | scirpy/_preprocessing/_tcr_dist.py:294-296 | the cells appended for a sequence are exactly the visited cells carrying it |
| SeqIndex.SelectIncreasing | scirpy/_preprocessing/_tcr_dist.py:294-296 | visiting cells in increasing order appends them in increasing order |
| SeqIndex.SeqToCellIdx | scirpy/_preprocessing/_tcr_dist.py:259-298 | the appending loop fails with `UnknownSequence` (the KeyError) if and only if some cell carries a sequence missing from the pool; otherwise it returns the specified `seq_to_cell` |
| SeqIndex.ListsAfterStep | scirpy/_preprocessing/_tcr_dist.py:294-296 | one loop step appends the visited cell to its sequence's list and changes nothing else |
| SeqIndex.AppendCells | scirpy/_preprocessing/_tcr_dist.py:293-296 | the appending loop over the cells with a chain builds the lists of the specification |
| SeqIndex.AppendStep | scirpy/_preprocessing/_tcr_dist.py:294-296 | after one more cell, a sequence's list grows by that cell exactly when the cell carries it |
| SeqIndex.SelectStep | scirpy/_preprocessing/_tcr_dist.py:294-296 | selecting over one more cell appends it exactly when it carries the sequence |
| SeqIndex.SelectPresent | scirpy/_preprocessing/_tcr_dist.py:285-296 | selecting among the cells with a chain gives exactly the cell list of the sequence |
| SeqIndex.CellListsPartition | scirpy/_preprocessing/_tcr_dist.py:282-298 | a missing cell is in no list; a non-missing cell is in the list of exactly the index of its own sequence; the keys are exactly 0..n-1 |
| SeqIndex.PoolKnowsEveryCell | scirpy/_preprocessing/_tcr_dist.py:313-321 | a pool built from the selected columns knows every sequence of those columns, so building the index never raises the KeyError |
| CellDist.Product | scirpy/_preprocessing/_tcr_dist.py:438-440 | `itertools.product` holds exactly the pairs of a row cell and a column cell |
| CellDist.FlatMapStep | scirpy/_preprocessing/_tcr_dist.py:436-443 | the arrivals of one more loop item follow those of the items before it |
| CellDist.FlatMapMember | scirpy/_preprocessing/_tcr_dist.py:436-443 | an arrival occurs in the nested loops if and only if some loop item produces it |
| CellDist.StoreChainPair | scirpy/_preprocessing/_tcr_dist.py:418-422 | the corrected store fails with `DuplicateChainPair` exactly when both orientations of the chain pair are taken; otherwise it adds one key, keeps every earlier value and adds the new value |
| CellDist.StoredValues | scirpy/_preprocessing/_tcr_dist.py:418-422 | storing under a fresh key adds exactly that value to the stored values |
| CellDist.AsWrittenStoreLosesValue | scirpy/_preprocessing/_tcr_dist.py:418-422 | the store as written, on a repeated chain pair, overwrites the earlier value so it is lost; the corrected store keeps it |
| CellDist.AddToDict | scirpy/_preprocessing/_tcr_dist.py:412-428 | `_add_to_dict` fails only with `DuplicateChainPair`, and only when the cell pair and the arm are already present; on success the cell pair, the arm and the chain pair are all present |
| CellDist.ApplyConcat | scirpy/_preprocessing/_tcr_dist.py:430-443 | processing two runs of arrivals in turn is processing their concatenation |
| CellDist.ApplyErrors | scirpy/_preprocessing/_tcr_dist.py:430-443 | the accumulation loop either keeps the error it started from or fails with `DuplicateChainPair`, the only error `_add_to_dict` raises |
| CellDist.ApplyErr | scirpy/_preprocessing/_tcr_dist.py:412-428 | once an assertion fails, later arrivals leave the error in place |
| CellDist.ApplyStopsAtError | scirpy/_preprocessing/_tcr_dist.py:430-443 | an error after a prefix of the loop items is the result of the whole loop |
| CellDist.ApplyPairAdds | scirpy/_preprocessing/_tcr_dist.py:441-443 | a cell pair reached from an off-diagonal entry is recorded in both orientations; from a diagonal entry, once |
| CellDist.AddCellPairs | scirpy/_preprocessing/_tcr_dist.py:438-443 | the innermost loop over cell pairs folds `_add_to_dict` over exactly their arrivals |
| CellDist.AddEntry | scirpy/_preprocessing/_tcr_dist.py:437-443 | the loop over chain-slot pairs of one entry folds exactly that entry's arrivals |
| CellDist.AddArm | scirpy/_preprocessing/_tcr_dist.py:436-443 | the loop over one arm's entries folds exactly that arm's arrivals |
| CellDist.Accumulate | scirpy/_preprocessing/_tcr_dist.py:410-443 | the whole accumulation loop computes the fold of `_add_to_dict` over all arrivals, from an empty dictionary |
| CellDist.AppendedSets | scirpy/_preprocessing/_tcr_dist.py:412-428 | one arrival adds its cell pair, its arm at that pair, and its value at that pair and arm, and nothing else |
| CellDist.RecordsUpdate | scirpy/_preprocessing/_tcr_dist.py:412-428 | a dictionary update that adds the arrival's arm and value at its pair keeps the dictionary a faithful record of the arrivals |
| CellDist.AddRecords | scirpy/_preprocessing/_tcr_dist.py:412-428 | a successful corrected `_add_to_dict` keeps the dictionary a record of the arrivals: its keys, arms and value sets are exactly those that arrived |
| CellDist.ApplyRecords | scirpy/_preprocessing/_tcr_dist.py:410-443 | a successful accumulation records exactly the cell pairs, arms and values that arrived |
| CellDist.FlatMapWitness | scirpy/_preprocessing/_tcr_dist.py:436-443 | an arrival of the nested loops comes from some loop item |
| CellDist.FlatMapIncludes | scirpy/_preprocessing/_tcr_dist.py:436-443 | an arrival produced by a loop item occurs in the nested loops |
| CellDist.EntryMirror | scirpy/_preprocessing/_tcr_dist.py:437-443 | every arrival of one entry has a mirror arrival: the swapped cell pair, same arm and value |
| CellDist.AllAddsMirror | scirpy/_preprocessing/_tcr_dist.py:436-443 | every arrival of the whole loop has a mirror arrival with the swapped cell pair |
| CellDist.SwappedKeys | scirpy/_preprocessing/_tcr_dist.py:441-443 | every reached cell pair is also reached swapped |
| CellDist.SwappedArms | scirpy/_preprocessing/_tcr_dist.py:441-443 | the arms reaching a cell pair also reach it swapped |
| CellDist.SwappedValues | scirpy/_preprocessing/_tcr_dist.py:441-443 | the values an arm brings to a cell pair it also brings to the swapped pair |
| CellDist.AccumulatedSymmetric | scirpy/_preprocessing/_tcr_dist.py:430-443 | the accumulated dictionary is symmetric: each pair's swap is present with the same arms and, per arm, the same set of values |
| CellDist.RecordsWellFormed | scirpy/_preprocessing/_tcr_dist.py:412-428 | a record of arrivals has no empty arm or chain dictionary |
| CellDist.ReduceDualAll | scirpy/_preprocessing/_tcr_dist.py:473-482 | the corrected `_reduce_dual_all`, with unbounded sums: it fails with `InconsistentChains` unless it has 1 entry, 2 entries, or the 4 chain pairs; 1 entry gives its value, 2 entries give 0, 4 give the smaller of the two pairings' summed distances, re-offset by 1 |
| CellDist.ReduceDualAllAsWritten | scirpy/_preprocessing/_tcr_dist.py:478 | `_reduce_dual_all` as written under NumPy 1.x: both pairing sums are taken modulo 256, and the final `- 1` (an int64) is not. It succeeds exactly when the corrected reduction does, equals it unless there are 4 chain pairs, and otherwise lies in [-1, 254] |
| CellDist.DualAllAgreesBelowWrap | scirpy/_preprocessing/_tcr_dist.py:478 | for offset values of at least 1 whose pairing sums stay below 256, the as-written and the corrected reductions agree, with a value in [1, 254] |
| CellDist.FourPairs | scirpy/_preprocessing/_tcr_dist.py:473-478 | the chain dictionary of two dual-chain cells holds exactly the four chain pairs with the given values |
| CellDist.AsWrittenDualSumWraps | scirpy/_preprocessing/_tcr_dist.py:478 | four chain pairs at offset value 151 give 301 corrected but 45 as written; values 129, 128, 129, 128 give 256 corrected but 0 as written, which zero elimination drops; four values of 128 give 255 corrected but -1 as written |
| CellDist.ReduceDualMin | scirpy/_preprocessing/_tcr_dist.py:485-486 | the other dual policies give the least stored value |
| CellDist.DualReductionsAgreeOnOnePair | scirpy/_preprocessing/_tcr_dist.py:473-486 | with a single chain pair both dual policies give its value |
| CellDist.PresentArms | scirpy/_preprocessing/_tcr_dist.py:446-447 | `reduce_arms` sees exactly the arms that reached the cell pair |
| CellDist.ReduceEach | scirpy/_preprocessing/_tcr_dist.py:446-447 | one `reduce_dual` value per present arm, or the error of an arm that fails |
| CellDist.MinOf | scirpy/_preprocessing/_tcr_dist.py:487 | `min` over the arms gives their least value |
| CellDist.ArmReductions | scirpy/_preprocessing/_tcr_dist.py:445-450 | a cell pair's reduction fails exactly when an arm's dual reduction fails; one present arm gives that arm's value; two give their sum for "all" and their minimum otherwise |
| CellDist.ReducePair | scirpy/_preprocessing/_tcr_dist.py:445-450 | one cell pair's reduction fails only under the "all" dual rule, with `InconsistentChains` |
| CellDist.ReducePairBySets | scirpy/_preprocessing/_tcr_dist.py:445-450 | under the minimum dual policy a cell pair's value depends only on the set of values each arm brought |
| CellDist.ReduceAll | scirpy/_preprocessing/_tcr_dist.py:445-450 | the reduction fails exactly when some cell pair fails; otherwise every reached cell pair keeps its key with its reduced value |
| CellDist.StoreKeepsPair | scirpy/_preprocessing/_tcr_dist.py:418-422 | after a successful store the chain pair is present |
| CellDist.WellFormedUpdate | scirpy/_preprocessing/_tcr_dist.py:412-428 | replacing a pair's arm dictionary with a non-empty one keeps the dictionary free of empty parts |
| CellDist.AddWellFormed | scirpy/_preprocessing/_tcr_dist.py:412-428 | `_add_to_dict` never leaves an empty arm or chain dictionary |
| CellDist.ApplyWellFormed | scirpy/_preprocessing/_tcr_dist.py:410-443 | the accumulation never leaves an empty arm or chain dictionary |
| CellDist.MinReductionSucceeds | scirpy/_preprocessing/_tcr_dist.py:484-487 | without the "all" dual rule the reduction never fails |
| CellDist.CellDistMatBy | scirpy/_preprocessing/_tcr_dist.py:393-451 | the accumulation under a given store followed by the reduction fails only with `DuplicateChainPair` or, under the "all" dual rule, `InconsistentChains`; on success the accumulation succeeded and the result has exactly its cell pairs as keys |
| CellDist.CellDistMatReduce | scirpy/_preprocessing/_tcr_dist.py:393-451 | `_cell_dist_mat_reduce` accumulates with the loops and reduces every cell pair, giving the specified result |
| CellDist.CellDistMatSymmetric | scirpy/_preprocessing/_tcr_dist.py:393-451 | without the "all" dual rule the cell distance dictionary is symmetric: each pair's swap is present with the same value |
| CellDist.ArrivalValue | scirpy/_preprocessing/_tcr_dist.py:436-443 | every arrival carries the value of some stored entry of some arm's matrix |
| CellDist.CellDistMatWithin | scirpy/_preprocessing/_tcr_dist.py:393-451 | with the minimum on both levels every cell distance lies within the bounds of the sequence distances |
| CellDist.ArrivalCells | scirpy/_preprocessing/_tcr_dist.py:438-440 | both cells of an arrival come from the cell lists of the index dictionary |
| CellDist.CellDistMatShape | scirpy/_preprocessing/_tcr_dist.py:490-494 | every cell pair of the result indexes cells of the index dictionary, so the n_obs × n_obs matrix can hold it |
| CellDist.AsWrittenExampleDict | scirpy/_preprocessing/_tcr_dist.py:418-422 | on the pool A, BBB, BBC with two cells, the store as written leaves different chain values at (0, 1) and at (1, 0) |
| CellDist.SingleArmPair | scirpy/_preprocessing/_tcr_dist.py:485-487 | a pair reached by one arm gets that arm's minimum |
| CellDist.AsWrittenBreaksSymmetry | scirpy/_preprocessing/_tcr_dist.py:393-451 | with the store as written, the same example gives distance 2 at (0, 1) and 1 at (1, 0) |
| Neighbors.CheckConfig | scirpy/_preprocessing/_tcr_dist.py:344-349 | the argument checks pass exactly when an identity metric has cutoff 0 and alignment is not asked of nucleotide sequences; `IdentityNeedsZeroCutoff` is reported exactly for the identity metric with a non-zero cutoff, `NucleotideAlignment` exactly for alignment of nucleotides, the identity check first |
| Neighbors.NormalisedConfig | scirpy/_preprocessing/_tcr_dist.py:581-590 | after the zero-cutoff rewrite, a zero cutoff is always accepted; any other cutoff is refused exactly for the identity metric and for alignment of nucleotide sequences |
| Neighbors.IndexArm | scirpy/_preprocessing/_tcr_dist.py:312-330 | one arm's entry is its unique pool and, per chain slot, the cell lists of that pool |
| Neighbors.ArmPool | scirpy/_preprocessing/_tcr_dist.py:313-318 | an arm's pool is strictly sorted and holds exactly the non-missing values of the arm's selected columns |
| Neighbors.ArmSlots | scirpy/_preprocessing/_tcr_dist.py:319-321 | each selected chain slot has a cell-list map with one key per pool index |
| Neighbors.ArmCells | scirpy/_preprocessing/_tcr_dist.py:319-321 | a cell is in the list of slot k and pool index j if and only if its slot-k value is that pool sequence |
| Neighbors.IndexedPools | scirpy/_preprocessing/_tcr_dist.py:300-332 | the built index dictionary satisfies what the accumulation loop needs, and every listed cell is below n_obs |
| Neighbors.Computed | scirpy/_preprocessing/_tcr_dist.py:464-470 | the per-arm loop stops at the first arm whose distance computation fails, after every earlier arm succeeded |
| Neighbors.UnfilledWithDists | scirpy/_preprocessing/_tcr_dist.py:464-470 | writing the distance matrices changes nothing else in the index dictionary |
| Neighbors.FilledIndexed | scirpy/_preprocessing/_tcr_dist.py:464-470 | once every arm has its matrix, every entry's rows and columns are indexed |
| Neighbors.FilledCellsBelow | scirpy/_preprocessing/_tcr_dist.py:464-470 | writing the matrices keeps every listed cell below n_obs |
| Neighbors.FilledValuesWithin | scirpy/_preprocessing/_tcr_dist.py:464-470 | for an accepted configuration every stored sequence distance lies in [1, cutoff + 1] |
| Neighbors.Distances | scirpy/_preprocessing/_tcr_dist.py:453-496 | `compute_distances` fails only with an error of `tcr_dist`, of the accumulation, of the reduction (`InconsistentChains` only under the "all" dual rule) or `EmptyResult`; a result holds no zero distance |
| Neighbors.StoredDistances | scirpy/_preprocessing/_tcr_dist.py:490-496 | an empty cell dictionary fails the unpacking with `EmptyResult`; otherwise zero elimination keeps exactly the non-zero pairs with their values |
| Neighbors.DistancesSymmetric | scirpy/_preprocessing/_tcr_dist.py:453-496 | without the "all" dual rule the cell distance matrix is symmetric |
| Neighbors.DistancesInShape | scirpy/_preprocessing/_tcr_dist.py:490-494 | every stored cell pair is within n_obs × n_obs |
| Neighbors.DistancesWithin | scirpy/_preprocessing/_tcr_dist.py:484-487 | with the minimum on both levels every cell distance lies in [1, cutoff + 1] |
| Neighbors.Weight | scirpy/_preprocessing/_tcr_dist.py:517 | a stored value 1 (identical sequences) has weight 1, and a value cutoff + 1 (distance exactly the cutoff) has weight 0 |
| Neighbors.WeightInverse | scirpy/_preprocessing/_tcr_dist.py:514-517 | the weight decodes back to the stored value, and it is 0 exactly when the decoded distance equals the cutoff |
| Neighbors.WeightBounds | scirpy/_preprocessing/_tcr_dist.py:514-517 | for stored values in [1, cutoff + 1] the weight is in [0, 1], is 1 exactly for distance 0, and decreases as the distance grows |
| Neighbors.ConnectivitiesOf | scirpy/_preprocessing/_tcr_dist.py:508-519 | with cutoff 0 the distance matrix itself; otherwise the same pattern minus the pairs at exactly the cutoff, each weight decoding to its stored distance |
| Neighbors.ConnectivitiesWithin | scirpy/_preprocessing/_tcr_dist.py:511-519 | for distances within the cutoff every connectivity lies in (0, 1], is 1 exactly for identical sequences, and is no larger for a larger distance |
| Neighbors.TcrNeighbors.constructor | scirpy/_preprocessing/_tcr_dist.py:334-357 | an accepted configuration is stored, the index dictionary is built, and there is no distance matrix yet |
| Neighbors.TcrNeighbors.BuildIndexDict | scirpy/_preprocessing/_tcr_dist.py:300-332 | the arm loop sets the index dictionary to one entry per selected arm, in arm order |
| Neighbors.TcrNeighbors.StoreArmDists | scirpy/_preprocessing/_tcr_dist.py:464-470 | the per-arm loop writes each arm's distance matrix in order and reports the first failure |
| Neighbors.TcrNeighbors.ComputeDistances | scirpy/_preprocessing/_tcr_dist.py:453-496 | computes the specified cell distance matrix and stores it; on an error the previous matrix stays; the index dictionary keeps its invariant |
| Neighbors.TcrNeighbors.Connectivities | scirpy/_preprocessing/_tcr_dist.py:502-519 | the connectivities of the stored distance matrix, a subset of its pairs |
| Neighbors.NewTcrNeighbors | scirpy/_preprocessing/_tcr_dist.py:344-349 | construction fails exactly when the argument checks refuse, with their error; otherwise a fresh object holding the configuration and the built index |
| Neighbors.NeighborGraph | scirpy/_preprocessing/_tcr_dist.py:522-595 | `tcr_neighbors` for `inplace=False` fails with the argument check's error whenever the check refuses the (zero-cutoff-rewritten) metric; a returned graph has connectivities only where it has distances |
| Neighbors.TcrNeighborsRun | scirpy/_preprocessing/_tcr_dist.py:581-595 | `tcr_neighbors` with `inplace=False` returns the specified graph or error |
| Neighbors.NeighborGraphFacts | scirpy/_preprocessing/_tcr_dist.py:522-595 | the returned matrices index cells of `adata`; connectivities only where there is a distance; without the "all" dual rule the connectivities are symmetric; with the minimum on both levels distances are in [1, cutoff + 1] and connectivities in (0, 1]; a zero cutoff links only identical sequences, with weight 1 |

## Left out

- The worker pool (`Pool`, `starmap_progress`, chunk size, progress output) is a sequential loop over rows that keeps row order.
- The external aligner is the function parameter `score`. Its self scores are computed by `SelfScores`. Substitution-matrix handling is not modelled.
- `Levenshtein.distance` is a compiled extension. It is modelled by the standard recursive edit distance.
- A negative alignment distance would wrap in uint8. `AlignmentNonNegative` (and `Neighbors.AlignerSound`) rule it out as a precondition instead of modelling the wrap.
- Sparse formats are representation only. A matrix is a sequence of entries (COO) or a map from cell pair to value. `vstack`, `tocsr` and the shape assertions have no counterpart.
- `adata.obs` is a map from CDR3 column to one optional sequence per cell; `_is_na` is `None`. `Neighbors.HasColumns` requires every selected column to be present with `n_obs` rows. The source would raise a KeyError on a missing column, and this is not modelled.
- `adata.uns` storage (`inplace=True`) and logging are not modelled. `tcr_neighbors` is modelled for the returned pair of matrices.
- `_build_cell_dist_mat_min` is never called, and it reads the key `"chains"`, which `_build_index_dict` never sets. It is not modelled.
- `reduce_arms = sum` (line 487) starts from the Python integer 0, so under NumPy 1.x every partial sum is an int64 and nothing wraps. The model's unbounded `SumOf` is the code as written. Under NumPy 2 the sum would stay `uint8` and wrap; that version is not modelled.
- NumPy 2 refuses to build a `uint8` array from an out-of-range Python integer and raises OverflowError, where NumPy 1.x wraps. The model follows NumPy 1.x throughout.
- Connectivities use exact reals, not floating-point rounding.
- The cutoff is an integer. The source annotates it as `float`, but uses it only as an integer bound.
- `Neighbors.TcrNeighbors.Connectivities` requires a distance matrix. Before `compute_distances` the source's property would fail on `None`.
- Python dictionaries keep insertion order. The model keeps the index dictionary as a sequence in arm order. Cell-pair dictionaries are maps, whose order only affects the order of COO entries.
- CellDist.CellDistMatSymmetric: states symmetry only for a successful result, and only without the "all" dual rule. It is not proved that `DuplicateChainPair` never occurs for an index built from real columns, nor that the "all" dual rule gives a symmetric result.
- Neighbors.DistancesSymmetric: the same limits as `CellDist.CellDistMatSymmetric`.
- Neighbors.DistancesWithin: stated only for the minimum over arms and chains. With `receptor_arms="all"` the sum adds both arms' offset values, so identical cells store 2 (weight (cutoff - 1) / cutoff rather than 1), and a sum beyond cutoff + 1 gives a negative connectivity. With `dual_tcr="all"` two reached chain pairs give 0, which zero elimination then drops. Neither case is bounded here.
- Neighbors.NeighborGraphFacts: the bounds are stated only under the same restrictions as `Neighbors.DistancesWithin`.

## Findings

| source | as written | input that shows it | evidently intended | confidence | as-written member | corrected member |
|---|---|---|---|---|---|---|
| scirpy/_preprocessing/_tcr_dist.py:34 | the constructor refuses only cutoff > 255, but it stores distance + 1 as uint8, which NumPy 1.x keeps modulo 256 | cutoff 255 with the pool "B" and "B" followed by 255 × "A" (Levenshtein distance 255): 256 is stored as 0, and `eliminate_zeros` drops the pair | refuse any cutoff above 254, so that every distance within the cutoff is stored | not executed | DistanceCalc.AsWrittenCutoff255DropsPair | DistanceCalc.AcceptedCutoffIsLossless |
| scirpy/_preprocessing/_tcr_dist.py:418-422 | on a repeated chain pair `_add_to_dict` writes the value to the swapped chain pair and then also overwrites the original, so the earlier value is lost | TRA pool A, BBB, BBC; Levenshtein cutoff 1; `dual_tcr="any"`; cell 0 carries A (primary) and BBC (secondary), cell 1 carries BBB and A: the result has distance 2 at (0, 1) and 1 at (1, 0) | keep the earlier value and store the new one under the swapped chain pair, so that the cell distance matrix is symmetric | not executed | CellDist.AsWrittenBreaksSymmetry | CellDist.CellDistMatSymmetric |
| scirpy/_preprocessing/_tcr_dist.py:478 | `_reduce_dual_all` adds two `np.uint8` values of `dist_mat.data` for each pairing, so both pairing sums wrap modulo 256 before the int64 `- 1` | cell 0 carries TRA_1 "A" × 150 and TRA_2 "C" × 150, cell 1 carries TRA_1 "D" × 150 and TRA_2 "E" × 150; Levenshtein cutoff 200; `dual_tcr="all"`, `receptor_arms="TRA"`: all four chain pairs store 151, giving 45 instead of 301; values 129, 128, 129, 128 give 0, and the pair is dropped; four values of 128 give -1 | compute the pairing sums without wrapping, so the result is the best pairing's total distance plus 1 | not executed | CellDist.AsWrittenDualSumWraps | CellDist.ReduceDualAll |
