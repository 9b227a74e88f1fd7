/** `TcrNeighbors` and `tcr_neighbors`: the index of each receptor arm's
    sequence pool, the distances between its sequences, the cell x cell
    distance matrix reduced from them, and the connectivities derived from
    that matrix. */
module Neighbors {
  import opened Common
  import DistanceCalc
  import SeqIndex
  import CellDist

  /** A CDR3 column of `adata.obs`: `{arm}_{chain}_cdr3`, or
      `{arm}_{chain}_cdr3_nt` for nucleotide sequences. */
  datatype Column = Column(arm: Arm, chain: nat, nt: bool)

  /** The CDR3 columns of `adata.obs`: one optional sequence per cell. */
  type Obs = map<Column, seq<Option<string>>>

  /** What `tcr_neighbors` returns: the weighted adjacency matrix and the
      offset distance matrix, both as maps from cell pairs to stored values. */
  datatype Graph = Graph(connectivities: map<CellDist.CellPair, real>, distances: map<CellDist.CellPair, int>)

  // ---------------------------------------------------------------------
  // Configuration

  /** The argument checks of `TcrNeighbors.__init__`, in their order. */
  function CheckConfig(metric: string, cutoff: int, sequence: string): (r: Option<Error>)
    ensures r.None? <==> (metric == "identity" ==> cutoff == 0) && !(metric == "alignment" && sequence == "nt")
    ensures r == Some(IdentityNeedsZeroCutoff) <==> metric == "identity" && cutoff != 0
    ensures r == Some(NucleotideAlignment) <==> metric == "alignment" && sequence == "nt"
  {
    if metric == "identity" && cutoff != 0 then Some(IdentityNeedsZeroCutoff)
    else if sequence == "nt" && metric == "alignment" then Some(NucleotideAlignment)
    else None
  }

  /** `tcr_neighbors` switches to the identity metric for a zero cutoff. */
  function NormaliseMetric(metric: string, cutoff: int): string
  {
    if cutoff == 0 then "identity" else metric
  }

  /** A zero cutoff is accepted with every metric and sequence kind, because
      it is run as the identity metric; any other cutoff is refused with the
      identity metric and with alignment of nucleotide sequences. */
  lemma NormalisedConfig(metric: string, cutoff: int, sequence: string)
    ensures cutoff == 0 ==> CheckConfig(NormaliseMetric(metric, cutoff), cutoff, sequence).None?
    ensures cutoff != 0 ==>
      (CheckConfig(NormaliseMetric(metric, cutoff), cutoff, sequence).None? <==>
        metric != "identity" && !(sequence == "nt" && metric == "alignment"))
  {
  }

  /** The arms `receptor_arms` selects: one for "TRA" or "TRB", both otherwise. */
  function SelectedArms(receptorArms: string): seq<Arm>
  {
    if receptorArms == "TRA" then [TRA]
    else if receptorArms == "TRB" then [TRB]
    else [TRA, TRB]
  }

  /** The chain slots `dual_tcr` selects: the primary one for "primary_only". */
  function ChainInds(dualTcr: string): seq<nat>
  {
    if dualTcr == "primary_only" then [1] else [1, 2]
  }

  /** Every value but "aa" selects the nucleotide columns. */
  function Nt(sequence: string): bool
  {
    sequence != "aa"
  }

  /** `adata.obs` holds every selected column, with one row per cell. */
  predicate HasColumns(obs: Obs, nObs: nat, receptorArms: string, dualTcr: string, sequence: string)
  {
    forall arm, k :: arm in SelectedArms(receptorArms) && k in ChainInds(dualTcr) ==>
      Column(arm, k, Nt(sequence)) in obs && |obs[Column(arm, k, Nt(sequence))]| == nObs
  }

  // ---------------------------------------------------------------------
  // The index dictionary

  /** The arm's selected columns, in chain-slot order. */
  function ChainColumns(obs: Obs, arm: Arm, chains: seq<nat>, nt: bool): (r: seq<seq<Option<string>>>)
    requires forall k :: k in chains ==> Column(arm, k, nt) in obs
  {
    seq(|chains|, j requires 0 <= j < |chains| => obs[Column(arm, chains[j], nt)])
  }

  /** `seq_to_cell`: per chain slot, the cells of every pool sequence. */
  function SlotLists(obs: Obs, arm: Arm, chains: seq<nat>, nt: bool, u: seq<string>): map<nat, map<nat, seq<nat>>>
    requires forall k :: k in chains ==> Column(arm, k, nt) in obs
  {
    map k | k in chains :: SeqIndex.CellLists(u, obs[Column(arm, k, nt)])
  }

  /** One arm's entry of the index dictionary, before any distances. */
  function ArmEntry(obs: Obs, arm: Arm, chains: seq<nat>, nt: bool): ArmInfo
    requires forall k :: k in chains ==> Column(arm, k, nt) in obs
  {
    var u := SeqIndex.UniquePool(ChainColumns(obs, arm, chains, nt));
    CellDist.ArmInfo(arm, chains, u, SlotLists(obs, arm, chains, nt, u), None)
  }

  /** The index dictionary `_build_index_dict` builds, arm by arm. */
  function IndexDict(obs: Obs, nObs: nat, receptorArms: string, dualTcr: string, sequence: string): seq<ArmInfo>
    requires HasColumns(obs, nObs, receptorArms, dualTcr, sequence)
  {
    var arms := SelectedArms(receptorArms);
    seq(|arms|, i requires 0 <= i < |arms| => ArmEntry(obs, arms[i], ChainInds(dualTcr), Nt(sequence)))
  }

  type ArmInfo = CellDist.ArmInfo

  /** One arm of `_build_index_dict`: the pool of the arm's sequences, then
      the dictionary comprehension over the chain slots. */
  method IndexArm(obs: Obs, arm: Arm, chains: seq<nat>, nt: bool) returns (info: ArmInfo)
    requires forall k :: k in chains ==> Column(arm, k, nt) in obs
    ensures info == ArmEntry(obs, arm, chains, nt)
  {
    var cols := ChainColumns(obs, arm, chains, nt);
    var u := SeqIndex.UniquePool(cols);
    var seqToCell: map<nat, map<nat, seq<nat>>> := map[];
    for j := 0 to |chains|
      invariant forall k :: k in seqToCell <==> k in chains[..j]
      invariant forall k :: k in seqToCell ==> seqToCell[k] == SeqIndex.CellLists(u, obs[Column(arm, k, nt)])
    {
      var idx := SeqIndex.SeqToCellIdx(u, cols[j]);
      assert idx == Ok(SeqIndex.CellLists(u, obs[Column(arm, chains[j], nt)])) by {
        SeqIndex.PoolKnowsEveryCell(cols, j);
      }
      SlotListsStep(obs, arm, chains, nt, u, seqToCell, j);
      seqToCell := seqToCell[chains[j] := idx.value];
    }
    assert chains[..|chains|] == chains;
    SlotListsByKeys(obs, arm, chains, nt, u, seqToCell);
    info := CellDist.ArmInfo(arm, chains, u, seqToCell, None);
  }

  /** Adding slot j's cell lists extends the dictionary of the first j slots
      to the first j + 1. */
  lemma SlotListsStep(obs: Obs, arm: Arm, chains: seq<nat>, nt: bool, u: seq<string>,
                      m: map<nat, map<nat, seq<nat>>>, j: nat)
    requires forall k :: k in chains ==> Column(arm, k, nt) in obs
    requires j < |chains|
    requires forall k :: k in m <==> k in chains[..j]
    requires forall k :: k in m ==> m[k] == SeqIndex.CellLists(u, obs[Column(arm, k, nt)])
    ensures var m2 := m[chains[j] := SeqIndex.CellLists(u, obs[Column(arm, chains[j], nt)])];
      && (forall k :: k in m2 <==> k in chains[..j + 1])
      && (forall k :: k in m2 ==> m2[k] == SeqIndex.CellLists(u, obs[Column(arm, k, nt)]))
  {
    assert chains[..j + 1] == chains[..j] + [chains[j]];
  }

  /** A dictionary with the chain slots as keys and each slot's cell lists
      as values is the one the comprehension builds. */
  lemma SlotListsByKeys(obs: Obs, arm: Arm, chains: seq<nat>, nt: bool, u: seq<string>, m: map<nat, map<nat, seq<nat>>>)
    requires forall k :: k in chains ==> Column(arm, k, nt) in obs
    requires forall k :: k in m <==> k in chains
    requires forall k :: k in m ==> m[k] == SeqIndex.CellLists(u, obs[Column(arm, k, nt)])
    ensures m == SlotLists(obs, arm, chains, nt, u)
  {
  }

  /** An arm's pool is sorted and holds exactly the sequences of its
      selected columns. */
  lemma ArmPool(obs: Obs, arm: Arm, chains: seq<nat>, nt: bool)
    requires forall k :: k in chains ==> Column(arm, k, nt) in obs
    ensures SeqIndex.StrictlySorted(ArmEntry(obs, arm, chains, nt).uniqueSeqs)
    ensures forall y :: y in ArmEntry(obs, arm, chains, nt).uniqueSeqs <==>
      exists k :: k in chains && Some(y) in obs[Column(arm, k, nt)]
  {
    var cols := ChainColumns(obs, arm, chains, nt);
    var u := SeqIndex.UniquePool(cols);
    assert u == ArmEntry(obs, arm, chains, nt).uniqueSeqs;
    forall y ensures y in u <==> exists k :: k in chains && Some(y) in obs[Column(arm, k, nt)] {
      if y in u {
        var kk :| 0 <= kk < |cols| && Some(y) in cols[kk];
        assert chains[kk] in chains && Some(y) in obs[Column(arm, chains[kk], nt)];
      }
      if exists k :: k in chains && Some(y) in obs[Column(arm, k, nt)] {
        var k :| k in chains && Some(y) in obs[Column(arm, k, nt)];
        var kk :| 0 <= kk < |chains| && chains[kk] == k;
        assert Some(y) in cols[kk];
      }
    }
  }

  /** Each slot's dictionary of an arm has a cell list for every pool index
      and for nothing else. */
  lemma ArmSlots(obs: Obs, arm: Arm, chains: seq<nat>, nt: bool, k: nat)
    requires forall k :: k in chains ==> Column(arm, k, nt) in obs
    requires k in chains
    ensures k in ArmEntry(obs, arm, chains, nt).seqToCell
    ensures forall j: nat :: j in ArmEntry(obs, arm, chains, nt).seqToCell[k] <==>
      j < |ArmEntry(obs, arm, chains, nt).uniqueSeqs|
  {
    var u := SeqIndex.UniquePool(ChainColumns(obs, arm, chains, nt));
    var stc := SlotLists(obs, arm, chains, nt, u);
    assert ArmEntry(obs, arm, chains, nt) == CellDist.ArmInfo(arm, chains, u, stc, None);
    SeqIndex.DistinctIndex(u);
    assert stc[k] == SeqIndex.CellLists(u, obs[Column(arm, k, nt)]);
  }

  /** The list of a slot and pool index holds exactly the cells whose chain
      in that slot carries the indexed sequence. */
  lemma ArmCells(obs: Obs, arm: Arm, chains: seq<nat>, nt: bool, k: nat, j: nat, c: nat)
    requires forall k :: k in chains ==> Column(arm, k, nt) in obs
    requires k in chains && j < |ArmEntry(obs, arm, chains, nt).uniqueSeqs|
    ensures k in ArmEntry(obs, arm, chains, nt).seqToCell && j in ArmEntry(obs, arm, chains, nt).seqToCell[k]
    ensures c in ArmEntry(obs, arm, chains, nt).seqToCell[k][j] <==>
      c < |obs[Column(arm, k, nt)]| && obs[Column(arm, k, nt)][c] == Some(ArmEntry(obs, arm, chains, nt).uniqueSeqs[j])
  {
    ArmSlots(obs, arm, chains, nt, k);
    var u := SeqIndex.UniquePool(ChainColumns(obs, arm, chains, nt));
    var stc := SlotLists(obs, arm, chains, nt, u);
    assert ArmEntry(obs, arm, chains, nt) == CellDist.ArmInfo(arm, chains, u, stc, None);
    assert stc[k][j] == SeqIndex.CellsOf(obs[Column(arm, k, nt)], u[j]);
  }

  /** Every chain slot of every arm has a cell list for each pool index. */
  ghost predicate PoolsIndexed(infos: seq<ArmInfo>)
  {
    forall info, k :: info in infos && k in info.chainInds ==>
      k in info.seqToCell && forall j: nat :: j < |info.uniqueSeqs| ==> j in info.seqToCell[k]
  }

  /** An index dictionary with its distances cleared. */
  function Unfilled(infos: seq<ArmInfo>): seq<ArmInfo>
  {
    seq(|infos|, i requires 0 <= i < |infos| => infos[i].(distMat := None))
  }

  /** Any dictionary that agrees with the built one up to its distances has
      a cell list for each pool index and lists only cells below n_obs. */
  lemma IndexedPools(obs: Obs, nObs: nat, receptorArms: string, dualTcr: string, sequence: string, infos: seq<ArmInfo>)
    requires HasColumns(obs, nObs, receptorArms, dualTcr, sequence)
    requires Unfilled(infos) == IndexDict(obs, nObs, receptorArms, dualTcr, sequence)
    ensures PoolsIndexed(infos)
    ensures CellDist.CellsBelow(infos, nObs)
  {
    forall info, k | info in infos && k in info.chainInds
      ensures k in info.seqToCell && forall j: nat :: j < |info.uniqueSeqs| ==> j in info.seqToCell[k]
    {
      var i :| 0 <= i < |infos| && infos[i] == info;
      var arm := IndexedArm(obs, nObs, receptorArms, dualTcr, sequence, infos, i);
      ArmSlots(obs, arm, ChainInds(dualTcr), Nt(sequence), k);
    }
    forall info, c, j, x | info in infos && x in CellDist.Lookup(info.seqToCell, c, j)
      ensures x < nObs
    {
      var i :| 0 <= i < |infos| && infos[i] == info;
      var arm := IndexedArm(obs, nObs, receptorArms, dualTcr, sequence, infos, i);
      CellOfArm(obs, arm, ChainInds(dualTcr), Nt(sequence), nObs, c, j, x);
    }
  }

  /** Entry i of a dictionary that agrees with the built one up to its
      distances has the pool and the slot lists of its arm. */
  lemma IndexedArm(obs: Obs, nObs: nat, receptorArms: string, dualTcr: string, sequence: string, infos: seq<ArmInfo>, i: nat)
    returns (arm: Arm)
    requires HasColumns(obs, nObs, receptorArms, dualTcr, sequence)
    requires Unfilled(infos) == IndexDict(obs, nObs, receptorArms, dualTcr, sequence)
    requires i < |infos|
    ensures forall k :: k in ChainInds(dualTcr) ==>
      Column(arm, k, Nt(sequence)) in obs && |obs[Column(arm, k, Nt(sequence))]| == nObs
    ensures infos[i].chainInds == ChainInds(dualTcr)
    ensures infos[i].uniqueSeqs == ArmEntry(obs, arm, ChainInds(dualTcr), Nt(sequence)).uniqueSeqs
    ensures infos[i].seqToCell == ArmEntry(obs, arm, ChainInds(dualTcr), Nt(sequence)).seqToCell
  {
    var arms := SelectedArms(receptorArms);
    assert |infos| == |arms|;
    arm := arms[i];
    assert arm in arms;
    assert Unfilled(infos)[i] == infos[i].(distMat := None);
  }

  /** Every cell an arm's slot lists is a row of that slot's column. */
  lemma CellOfArm(obs: Obs, arm: Arm, chains: seq<nat>, nt: bool, nObs: nat, c: nat, j: nat, x: nat)
    requires forall k :: k in chains ==> Column(arm, k, nt) in obs && |obs[Column(arm, k, nt)]| == nObs
    requires x in CellDist.Lookup(ArmEntry(obs, arm, chains, nt).seqToCell, c, j)
    ensures x < nObs
  {
    var stc := ArmEntry(obs, arm, chains, nt).seqToCell;
    assert c in stc && j in stc[c];
    assert c in chains;
    ArmSlots(obs, arm, chains, nt, c);
    ArmCells(obs, arm, chains, nt, c, j, x);
  }

  // ---------------------------------------------------------------------
  // The distances of every arm

  /** `tcr_dist` over one arm's pool, with the object's metric and cutoff. */
  function ArmDist(info: ArmInfo, metric: string, cutoff: int, score: DistanceCalc.Scorer): Result<seq<Entry>>
  {
    DistanceCalc.TcrDist(info.uniqueSeqs, DistanceCalc.Named(metric), cutoff, score)
  }

  /** The number of arms, in order, whose distances are computed before the
      first failure. */
  function Computed(infos: seq<ArmInfo>, metric: string, cutoff: int, score: DistanceCalc.Scorer): (k: nat)
    ensures k <= |infos|
    ensures forall i :: 0 <= i < k ==> ArmDist(infos[i], metric, cutoff, score).Ok?
    ensures k < |infos| ==> ArmDist(infos[k], metric, cutoff, score).Err?
    decreases |infos|
  {
    if infos == [] || ArmDist(infos[0], metric, cutoff, score).Err? then 0
    else
      var rest := Computed(infos[1..], metric, cutoff, score);
      assert forall i :: 1 <= i < |infos| ==> infos[i] == infos[1..][i - 1];
      1 + rest
  }

  /** The dictionary after the first k arms received their distances. */
  function WithDists(infos: seq<ArmInfo>, metric: string, cutoff: int, score: DistanceCalc.Scorer, k: nat): seq<ArmInfo>
    requires k <= |infos|
    requires forall i :: 0 <= i < k ==> ArmDist(infos[i], metric, cutoff, score).Ok?
  {
    seq(|infos|, i requires 0 <= i < |infos| =>
      if i < k then infos[i].(distMat := Some(ArmDist(infos[i], metric, cutoff, score).value)) else infos[i])
  }

  /** Storing arm k's distances extends the first k arms' dictionary to k + 1. */
  lemma WithDistsStep(infos: seq<ArmInfo>, metric: string, cutoff: int, score: DistanceCalc.Scorer, k: nat)
    requires k < |infos|
    requires forall i :: 0 <= i <= k ==> ArmDist(infos[i], metric, cutoff, score).Ok?
    ensures WithDists(infos, metric, cutoff, score, k)[k].uniqueSeqs == infos[k].uniqueSeqs
    ensures WithDists(infos, metric, cutoff, score, k)[k := infos[k].(distMat := Some(ArmDist(infos[k], metric, cutoff, score).value))]
      == WithDists(infos, metric, cutoff, score, k + 1)
  {
  }

  lemma UnfilledWithDists(infos: seq<ArmInfo>, metric: string, cutoff: int, score: DistanceCalc.Scorer, k: nat)
    requires k <= |infos|
    requires forall i :: 0 <= i < k ==> ArmDist(infos[i], metric, cutoff, score).Ok?
    ensures Unfilled(WithDists(infos, metric, cutoff, score, k)) == Unfilled(infos)
  {
  }

  /** The alignment scorer yields no negative distance within any arm's pool
      (vacuous for the other metrics). */
  ghost predicate AlignerSound(metric: string, cutoff: int, infos: seq<ArmInfo>, score: DistanceCalc.Scorer)
  {
    forall i :: 0 <= i < |infos| ==>
      (DistanceCalc.KnownMetric(metric) && cutoff <= DistanceCalc.MaxCutoff ==>
        DistanceCalc.AlignmentNonNegative(
          DistanceCalc.SelectCalculator(DistanceCalc.Named(metric), cutoff).value, infos[i].uniqueSeqs, score))
  }

  /** Once every arm has its distances, every stored entry indexes a pool
      sequence, so every lookup of the reduction finds its cell list. */
  lemma FilledIndexed(infos: seq<ArmInfo>, metric: string, cutoff: int, score: DistanceCalc.Scorer)
    requires PoolsIndexed(infos) && AlignerSound(metric, cutoff, infos, score)
    requires forall i :: 0 <= i < |infos| ==> ArmDist(infos[i], metric, cutoff, score).Ok?
    ensures forall info :: info in WithDists(infos, metric, cutoff, score, |infos|) ==> CellDist.Indexed(info)
  {
    var filled := WithDists(infos, metric, cutoff, score, |infos|);
    forall info | info in filled ensures CellDist.Indexed(info) {
      var i :| 0 <= i < |filled| && filled[i] == info;
      assert infos[i] in infos;
      ArmIndexed(infos[i], metric, cutoff, score);
    }
  }

  /** One arm whose chains index every pool sequence, with its distances
      stored: every stored entry indexes a pool sequence. */
  lemma ArmIndexed(info: ArmInfo, metric: string, cutoff: int, score: DistanceCalc.Scorer)
    requires forall k :: k in info.chainInds ==>
      k in info.seqToCell && forall j: nat :: j < |info.uniqueSeqs| ==> j in info.seqToCell[k]
    requires DistanceCalc.KnownMetric(metric) && cutoff <= DistanceCalc.MaxCutoff ==>
      DistanceCalc.AlignmentNonNegative(
        DistanceCalc.SelectCalculator(DistanceCalc.Named(metric), cutoff).value, info.uniqueSeqs, score)
    requires ArmDist(info, metric, cutoff, score).Ok?
    ensures CellDist.Indexed(info.(distMat := Some(ArmDist(info, metric, cutoff, score).value)))
  {
    DistanceCalc.TcrDistEntries(info.uniqueSeqs, DistanceCalc.Named(metric), cutoff, score);
  }

  /** Filled dictionaries keep the cells of the built one. */
  lemma FilledCellsBelow(infos: seq<ArmInfo>, metric: string, cutoff: int, score: DistanceCalc.Scorer, k: nat, n: nat)
    requires k <= |infos|
    requires forall i :: 0 <= i < k ==> ArmDist(infos[i], metric, cutoff, score).Ok?
    requires CellDist.CellsBelow(infos, n)
    ensures CellDist.CellsBelow(WithDists(infos, metric, cutoff, score, k), n)
  {
    var filled := WithDists(infos, metric, cutoff, score, k);
    forall info, c, j, x | info in filled && x in CellDist.Lookup(info.seqToCell, c, j) ensures x < n {
      var i :| 0 <= i < |filled| && filled[i] == info;
      assert infos[i] in infos && infos[i].seqToCell == info.seqToCell;
    }
  }

  /** With an accepted configuration every stored offset distance of every
      arm lies in [1, cutoff + 1]. */
  lemma FilledValuesWithin(infos: seq<ArmInfo>, metric: string, cutoff: int, sequence: string, score: DistanceCalc.Scorer)
    requires CheckConfig(metric, cutoff, sequence).None? && AlignerSound(metric, cutoff, infos, score)
    requires forall i :: 0 <= i < |infos| ==> ArmDist(infos[i], metric, cutoff, score).Ok?
    ensures CellDist.ValuesWithin(WithDists(infos, metric, cutoff, score, |infos|), 1, cutoff + 1)
  {
    var filled := WithDists(infos, metric, cutoff, score, |infos|);
    forall info, e | info in filled && e in CellDist.DistOf(info) ensures 1 <= e.value <= cutoff + 1 {
      var i :| 0 <= i < |filled| && filled[i] == info;
      DistanceCalc.TcrDistEntries(infos[i].uniqueSeqs, DistanceCalc.Named(metric), cutoff, score);
    }
  }

  // ---------------------------------------------------------------------
  // The cell x cell matrix

  /** `zip(*coord_dict.items())` raises on an empty dictionary; the sparse
      matrix then drops the zero values (`eliminate_zeros`) and keeps the
      others where they are. */
  function StoredDistances(m: map<CellDist.CellPair, int>): (r: Result<map<CellDist.CellPair, int>>)
    ensures r.Err? <==> m == map[]
    ensures r.Err? ==> r.error == EmptyResult
    ensures r.Ok? ==> forall key :: key in r.value <==> key in m && m[key] != 0
    ensures r.Ok? ==> forall key :: key in r.value ==> r.value[key] == m[key]
  {
    if m == map[] then Err(EmptyResult)
    else Ok(map key | key in m && m[key] != 0 :: m[key])
  }

  /** `compute_distances`: every arm's distances, then the reduction (the dual
      chains by the "all" rule or by the minimum, the arms by sum for "all"
      and by the minimum otherwise), then the sparse matrix. */
  function Distances(infos: seq<ArmInfo>, metric: string, cutoff: int, dualTcr: string, receptorArms: string,
                     score: DistanceCalc.Scorer): (r: Result<map<CellDist.CellPair, int>>)
    ensures r.Err? ==> r.error in {InvalidMetric, CutoffTooLarge, EmptyRow, NoRows,
                                   DuplicateChainPair, InconsistentChains, EmptyResult}
    ensures r.Err? && r.error == InconsistentChains ==> dualTcr == "all"
    ensures r.Ok? ==> forall key :: key in r.value ==> r.value[key] != 0
  {
    var k := Computed(infos, metric, cutoff, score);
    if k < |infos| then Err(ArmDist(infos[k], metric, cutoff, score).error)
    else
      match CellDist.CellDistMatBy(CellDist.Corrected, WithDists(infos, metric, cutoff, score, k),
                                   dualTcr == "all", receptorArms == "all")
      case Err(e) => Err(e)
      case Ok(m) => StoredDistances(m)
  }

  /** Without the "all" dual-chain rule the distance matrix is symmetric. */
  lemma DistancesSymmetric(infos: seq<ArmInfo>, metric: string, cutoff: int, dualTcr: string, receptorArms: string,
                           score: DistanceCalc.Scorer, m: map<CellDist.CellPair, int>)
    requires dualTcr != "all"
    requires Distances(infos, metric, cutoff, dualTcr, receptorArms, score) == Ok(m)
    ensures forall key :: key in m ==> CellDist.Swap(key) in m && m[CellDist.Swap(key)] == m[key]
  {
    var k := Computed(infos, metric, cutoff, score);
    var filled := WithDists(infos, metric, cutoff, score, k);
    var sumArms := receptorArms == "all";
    var cm := CellDist.CellDistMatBy(CellDist.Corrected, filled, false, sumArms).value;
    CellDist.CellDistMatSymmetric(filled, sumArms, cm);
  }

  /** Every stored cell pair indexes the n_obs x n_obs matrix. */
  lemma DistancesInShape(infos: seq<ArmInfo>, metric: string, cutoff: int, dualTcr: string, receptorArms: string,
                         score: DistanceCalc.Scorer, m: map<CellDist.CellPair, int>, nObs: nat)
    requires CellDist.CellsBelow(infos, nObs)
    requires Distances(infos, metric, cutoff, dualTcr, receptorArms, score) == Ok(m)
    ensures forall key :: key in m ==> key.0 < nObs && key.1 < nObs
  {
    var k := Computed(infos, metric, cutoff, score);
    var filled := WithDists(infos, metric, cutoff, score, k);
    FilledCellsBelow(infos, metric, cutoff, score, k, nObs);
    var cm := CellDist.CellDistMatBy(CellDist.Corrected, filled, dualTcr == "all", receptorArms == "all").value;
    CellDist.CellDistMatShape(filled, dualTcr == "all", receptorArms == "all", cm, nObs);
  }

  /** With the minimum on both levels every stored value is an offset
      distance of some pair of sequences, in [1, cutoff + 1]. */
  lemma DistancesWithin(infos: seq<ArmInfo>, metric: string, cutoff: int, sequence: string, dualTcr: string,
                        receptorArms: string, score: DistanceCalc.Scorer, m: map<CellDist.CellPair, int>)
    requires CheckConfig(metric, cutoff, sequence).None? && AlignerSound(metric, cutoff, infos, score)
    requires dualTcr != "all" && receptorArms != "all"
    requires Distances(infos, metric, cutoff, dualTcr, receptorArms, score) == Ok(m)
    ensures forall key :: key in m ==> 1 <= m[key] <= cutoff + 1
  {
    assert Computed(infos, metric, cutoff, score) == |infos|;
    var filled := WithDists(infos, metric, cutoff, score, |infos|);
    var cm := CellDist.CellDistMatBy(CellDist.Corrected, filled, false, false).value;
    assert CellDist.CellDistMatBy(CellDist.Corrected, filled, false, false) == Ok(cm);
    assert StoredDistances(cm) == Ok(m);
    assert forall key :: key in cm ==> 1 <= cm[key] <= cutoff + 1 by {
      FilledValuesWithin(infos, metric, cutoff, sequence, score);
      CellDist.CellDistMatWithin(filled, cm, 1, cutoff + 1);
    }
  }

  // ---------------------------------------------------------------------
  // Connectivities

  /** The weight of an offset distance v: (cutoff - (v - 1)) / cutoff. */
  function Weight(cutoff: int, v: int): (w: real)
    requires cutoff != 0
    ensures v == 1 ==> w == 1.0
    ensures v == cutoff + 1 ==> w == 0.0
  {
    assert cutoff as real / cutoff as real == 1.0;
    (cutoff as real - (v - 1) as real) / cutoff as real
  }

  /** The weight is undone by v = cutoff * (1 - w) + 1, so the
      connectivities determine the distances they came from. */
  lemma WeightInverse(cutoff: int, v: int)
    requires cutoff != 0
    ensures v as real == cutoff as real * (1.0 - Weight(cutoff, v)) + 1.0
    ensures Weight(cutoff, v) == 0.0 <==> v - 1 == cutoff
  {
    var c := cutoff as real;
    var x := c - (v - 1) as real;
    assert Weight(cutoff, v) * c == x;
  }

  /** Dividing by a positive scale keeps order: the step behind the weight's
      bounds and monotonicity. */
  lemma ScaledOrder(w: real, w2: real, c: real, a: real, a2: real)
    requires c > 0.0 && w * c == a && w2 * c == a2
    ensures 0.0 <= a ==> 0.0 <= w
    ensures a <= c ==> w <= 1.0
    ensures a == c ==> w == 1.0
    ensures a2 <= a ==> w2 <= w
  {
    assert (w - 1.0) * c == a - c;
    assert (w - w2) * c == a - a2;
  }

  /** For distances within the cutoff the weight lies in [0, 1], is 1 exactly
      for identical sequences (offset 1), 0 exactly at the cutoff, and
      falls as the distance grows. */
  lemma WeightBounds(cutoff: int, v: int, v2: int)
    requires cutoff > 0 && 1 <= v <= cutoff + 1 && v <= v2
    ensures 0.0 <= Weight(cutoff, v) <= 1.0
    ensures Weight(cutoff, v) == 1.0 <==> v == 1
    ensures Weight(cutoff, v2) <= Weight(cutoff, v)
  {
    var c := cutoff as real;
    var w := Weight(cutoff, v);
    var w2 := Weight(cutoff, v2);
    var a := c - (v - 1) as real;
    var a2 := c - (v2 - 1) as real;
    assert w * c == a;
    assert w2 * c == a2;
    ScaledOrder(w, w2, c, a, a2);
    if w == 1.0 {
      assert a == c;
    }
  }

  /** The `connectivities` property over a distance matrix: the distances
      themselves for a zero cutoff, the weights otherwise, without zeros. */
  function ConnectivitiesOf(cutoff: int, dist: map<CellDist.CellPair, int>): (r: map<CellDist.CellPair, real>)
    ensures cutoff == 0 ==> forall key :: key in r <==> key in dist
    ensures cutoff == 0 ==> forall key :: key in r ==> r[key] == dist[key] as real
    ensures cutoff != 0 ==> forall key :: key in r <==> key in dist && dist[key] - 1 != cutoff
    ensures cutoff != 0 ==> forall key :: key in r ==>
      dist[key] as real == cutoff as real * (1.0 - r[key]) + 1.0
  {
    if cutoff == 0 then map key | key in dist :: dist[key] as real
    else
      var r := map key | key in dist && Weight(cutoff, dist[key]) != 0.0 :: Weight(cutoff, dist[key]);
      assert forall key :: key in dist ==> (Weight(cutoff, dist[key]) == 0.0 <==> dist[key] - 1 == cutoff) by {
        forall key | key in dist ensures Weight(cutoff, dist[key]) == 0.0 <==> dist[key] - 1 == cutoff {
          WeightInverse(cutoff, dist[key]);
        }
      }
      assert forall key :: key in r ==> dist[key] as real == cutoff as real * (1.0 - r[key]) + 1.0 by {
        forall key | key in r ensures dist[key] as real == cutoff as real * (1.0 - r[key]) + 1.0 {
          WeightInverse(cutoff, dist[key]);
        }
      }
      r
  }

  /** Within the cutoff every connectivity lies in (0, 1], is 1 exactly for
      identical sequences, and a closer pair is never less connected. */
  lemma ConnectivitiesWithin(cutoff: int, dist: map<CellDist.CellPair, int>)
    requires cutoff > 0
    requires forall key :: key in dist ==> 1 <= dist[key] <= cutoff + 1
    ensures forall key :: key in ConnectivitiesOf(cutoff, dist) ==>
      0.0 < ConnectivitiesOf(cutoff, dist)[key] <= 1.0
      && (ConnectivitiesOf(cutoff, dist)[key] == 1.0 <==> dist[key] == 1)
    ensures forall a, b :: a in ConnectivitiesOf(cutoff, dist) && b in ConnectivitiesOf(cutoff, dist) && dist[a] <= dist[b] ==>
      ConnectivitiesOf(cutoff, dist)[b] <= ConnectivitiesOf(cutoff, dist)[a]
  {
    var r := ConnectivitiesOf(cutoff, dist);
    forall key | key in r
      ensures 0.0 < r[key] <= 1.0 && (r[key] == 1.0 <==> dist[key] == 1)
    {
      WeightBounds(cutoff, dist[key], dist[key]);
      WeightInverse(cutoff, dist[key]);
    }
    forall a, b | a in r && b in r && dist[a] <= dist[b] ensures r[b] <= r[a] {
      WeightBounds(cutoff, dist[a], dist[b]);
    }
  }

  // ---------------------------------------------------------------------
  // The object

  /** `TcrNeighbors`: its arguments, the index dictionary it builds on
      construction, and the distance matrix `compute_distances` stores
      (`dist`, None before the first computation). */
  class TcrNeighbors {
    const nObs: nat
    const obs: Obs
    const metric: string
    const cutoff: int
    const receptorArms: string
    const dualTcr: string
    const sequence: string
    var indexDict: seq<ArmInfo>
    var distMat: Option<map<CellDist.CellPair, int>>

    /** The arguments passed the checks and the index dictionary is the one
        built from `adata.obs`, up to the distances stored in it. */
    ghost predicate Valid()
      reads this
    {
      && CheckConfig(metric, cutoff, sequence).None?
      && HasColumns(obs, nObs, receptorArms, dualTcr, sequence)
      && Unfilled(indexDict) == IndexDict(obs, nObs, receptorArms, dualTcr, sequence)
    }

    /** The assignments of `__init__` once its checks passed. */
    constructor (nObs: nat, obs: Obs, metric: string, cutoff: int, receptorArms: string, dualTcr: string, sequence: string)
      requires CheckConfig(metric, cutoff, sequence).None?
      requires HasColumns(obs, nObs, receptorArms, dualTcr, sequence)
      ensures Valid()
      ensures this.nObs == nObs && this.obs == obs && this.metric == metric && this.cutoff == cutoff
      ensures this.receptorArms == receptorArms && this.dualTcr == dualTcr && this.sequence == sequence
      ensures indexDict == IndexDict(obs, nObs, receptorArms, dualTcr, sequence)
      ensures distMat.None?
    {
      this.nObs := nObs;
      this.obs := obs;
      this.metric := metric;
      this.cutoff := cutoff;
      this.receptorArms := receptorArms;
      this.dualTcr := dualTcr;
      this.sequence := sequence;
      new;
      BuildIndexDict();
      distMat := None;
      assert Unfilled(indexDict) == indexDict;
    }

    /** `_build_index_dict`: one entry per selected arm, in order. */
    method BuildIndexDict()
      requires HasColumns(obs, nObs, receptorArms, dualTcr, sequence)
      modifies this`indexDict
      ensures indexDict == IndexDict(obs, nObs, receptorArms, dualTcr, sequence)
    {
      var arms := SelectedArms(receptorArms);
      var chains := ChainInds(dualTcr);
      var armDict: seq<ArmInfo> := [];
      for i := 0 to |arms|
        invariant armDict == IndexDict(obs, nObs, receptorArms, dualTcr, sequence)[..i]
      {
        var info := IndexArm(obs, arms[i], chains, Nt(sequence));
        armDict := armDict + [info];
      }
      indexDict := armDict;
    }

    /** The loop of `compute_distances` over the arms: store each arm's
        distances in the index dictionary, stopping at the first failure. */
    method StoreArmDists(score: DistanceCalc.Scorer) returns (failed: Option<Error>)
      modifies this`indexDict
      ensures indexDict == WithDists(old(indexDict), metric, cutoff, score, Computed(old(indexDict), metric, cutoff, score))
      ensures failed.None? <==> Computed(old(indexDict), metric, cutoff, score) == |old(indexDict)|
      ensures failed.Some? ==>
        failed.value == ArmDist(old(indexDict)[Computed(old(indexDict), metric, cutoff, score)], metric, cutoff, score).error
    {
      ghost var infos0 := indexDict;
      var i := 0;
      while i < |indexDict|
        invariant 0 <= i <= |infos0| && |indexDict| == |infos0|
        invariant forall j :: 0 <= j < i ==> ArmDist(infos0[j], metric, cutoff, score).Ok?
        invariant indexDict == WithDists(infos0, metric, cutoff, score, i)
      {
        assert indexDict[i] == infos0[i];
        var dm := DistanceCalc.ComputeTcrDist(indexDict[i].uniqueSeqs, DistanceCalc.Named(metric), cutoff, score);
        assert dm == ArmDist(infos0[i], metric, cutoff, score);
        if dm.Err? {
          assert Computed(infos0, metric, cutoff, score) == i;
          return Some(dm.error);
        }
        WithDistsStep(infos0, metric, cutoff, score, i);
        indexDict := indexDict[i := indexDict[i].(distMat := Some(dm.value))];
        i := i + 1;
      }
      assert Computed(infos0, metric, cutoff, score) == |infos0|;
      failed := None;
    }

    /** `compute_distances`: every arm's distances, then the reduction to the
        cell x cell matrix, which is stored. */
    method ComputeDistances(score: DistanceCalc.Scorer) returns (r: Result<map<CellDist.CellPair, int>>)
      requires Valid() && AlignerSound(metric, cutoff, indexDict, score)
      modifies this`indexDict, this`distMat
      ensures Valid()
      ensures indexDict == WithDists(old(indexDict), metric, cutoff, score, Computed(old(indexDict), metric, cutoff, score))
      ensures r == Distances(old(indexDict), metric, cutoff, dualTcr, receptorArms, score)
      ensures distMat == if r.Ok? then Some(r.value) else old(distMat)
    {
      ghost var infos0 := indexDict;
      IndexedPools(obs, nObs, receptorArms, dualTcr, sequence, infos0);
      var failed := StoreArmDists(score);
      UnfilledWithDists(infos0, metric, cutoff, score, Computed(infos0, metric, cutoff, score));
      if failed.Some? {
        return Err(failed.value);
      }
      FilledIndexed(infos0, metric, cutoff, score);
      var cm := CellDist.CellDistMatReduce(indexDict, dualTcr == "all", receptorArms == "all");
      if cm.Err? {
        return Err(cm.error);
      }
      r := StoredDistances(cm.value);
      if r.Ok? {
        distMat := Some(r.value);
      }
    }

    /** The `connectivities` property of a computed object. */
    function Connectivities(): (r: map<CellDist.CellPair, real>)
      reads this
      requires distMat.Some?
      ensures forall key :: key in r ==> key in distMat.value
      ensures r == ConnectivitiesOf(cutoff, distMat.value)
    {
      ConnectivitiesOf(cutoff, distMat.value)
    }
  }

  /** `TcrNeighbors(...)`: the checks of `__init__`, then the object. */
  method NewTcrNeighbors(nObs: nat, obs: Obs, metric: string, cutoff: int, receptorArms: string,
                         dualTcr: string, sequence: string) returns (r: Result<TcrNeighbors>)
    requires HasColumns(obs, nObs, receptorArms, dualTcr, sequence)
    ensures r.Err? <==> CheckConfig(metric, cutoff, sequence).Some?
    ensures r.Err? ==> r.error == CheckConfig(metric, cutoff, sequence).value
    ensures r.Ok? ==> fresh(r.value) && r.value.Valid() && r.value.distMat.None?
    ensures r.Ok? ==>
      && r.value.metric == metric && r.value.cutoff == cutoff
      && r.value.receptorArms == receptorArms && r.value.dualTcr == dualTcr && r.value.sequence == sequence
      && r.value.nObs == nObs && r.value.obs == obs
    ensures r.Ok? ==> r.value.indexDict == IndexDict(obs, nObs, receptorArms, dualTcr, sequence)
  {
    var refused := CheckConfig(metric, cutoff, sequence);
    if refused.Some? {
      return Err(refused.value);
    }
    var nb := new TcrNeighbors(nObs, obs, metric, cutoff, receptorArms, dualTcr, sequence);
    r := Ok(nb);
  }

  // ---------------------------------------------------------------------
  // tcr_neighbors

  /** What `tcr_neighbors` returns for `inplace=False`. */
  function NeighborGraph(obs: Obs, nObs: nat, metric: string, cutoff: int, receptorArms: string,
                         dualTcr: string, sequence: string, score: DistanceCalc.Scorer): (r: Result<Graph>)
    requires HasColumns(obs, nObs, receptorArms, dualTcr, sequence)
    ensures CheckConfig(NormaliseMetric(metric, cutoff), cutoff, sequence).Some? ==>
      r == Err(CheckConfig(NormaliseMetric(metric, cutoff), cutoff, sequence).value)
    ensures r.Ok? ==> forall key :: key in r.value.connectivities ==> key in r.value.distances
  {
    var name := NormaliseMetric(metric, cutoff);
    match CheckConfig(name, cutoff, sequence)
    case Some(e) => Err(e)
    case None =>
      match Distances(IndexDict(obs, nObs, receptorArms, dualTcr, sequence), name, cutoff, dualTcr, receptorArms, score)
      case Err(e) => Err(e)
      case Ok(dist) => Ok(Graph(ConnectivitiesOf(cutoff, dist), dist))
  }

  /** `tcr_neighbors`: the metric rewrite for a zero cutoff, the object, its
      distances, and the two matrices. */
  method TcrNeighborsRun(nObs: nat, obs: Obs, metric: string, cutoff: int, receptorArms: string,
                         dualTcr: string, sequence: string, score: DistanceCalc.Scorer) returns (r: Result<Graph>)
    requires HasColumns(obs, nObs, receptorArms, dualTcr, sequence)
    requires AlignerSound(NormaliseMetric(metric, cutoff), cutoff, IndexDict(obs, nObs, receptorArms, dualTcr, sequence), score)
    ensures r == NeighborGraph(obs, nObs, metric, cutoff, receptorArms, dualTcr, sequence, score)
  {
    var name := metric;
    if cutoff == 0 {
      name := "identity";
    }
    var made := NewTcrNeighbors(nObs, obs, name, cutoff, receptorArms, dualTcr, sequence);
    if made.Err? {
      return Err(made.error);
    }
    var nb := made.value;
    var dist := nb.ComputeDistances(score);
    if dist.Err? {
      return Err(dist.error);
    }
    r := Ok(Graph(nb.Connectivities(), nb.distMat.value));
  }

  /** A computed graph holds the distances of the built index dictionary,
      whose pools are indexed, and the connectivities of those distances. */
  lemma GraphParts(obs: Obs, nObs: nat, metric: string, cutoff: int, receptorArms: string,
                   dualTcr: string, sequence: string, score: DistanceCalc.Scorer, g: Graph)
    requires HasColumns(obs, nObs, receptorArms, dualTcr, sequence)
    requires NeighborGraph(obs, nObs, metric, cutoff, receptorArms, dualTcr, sequence, score) == Ok(g)
    ensures CheckConfig(NormaliseMetric(metric, cutoff), cutoff, sequence).None?
    ensures Distances(IndexDict(obs, nObs, receptorArms, dualTcr, sequence), NormaliseMetric(metric, cutoff),
                      cutoff, dualTcr, receptorArms, score) == Ok(g.distances)
    ensures g.connectivities == ConnectivitiesOf(cutoff, g.distances)
  {
  }

  /** The built index dictionary carries no distances yet. */
  lemma BuiltUnfilled(obs: Obs, nObs: nat, receptorArms: string, dualTcr: string, sequence: string)
    requires HasColumns(obs, nObs, receptorArms, dualTcr, sequence)
    ensures Unfilled(IndexDict(obs, nObs, receptorArms, dualTcr, sequence)) == IndexDict(obs, nObs, receptorArms, dualTcr, sequence)
  {
  }

  /** The graph `tcr_neighbors` returns indexes the cells of `adata`; without
      the "all" dual-chain rule both matrices are symmetric; with the
      minimum on both levels every distance is within the cutoff and every
      connectivity in (0, 1], and a zero cutoff links only cells with
      identical sequences, with weight 1. */
  lemma NeighborGraphFacts(obs: Obs, nObs: nat, metric: string, cutoff: int, receptorArms: string,
                           dualTcr: string, sequence: string, score: DistanceCalc.Scorer, g: Graph)
    requires HasColumns(obs, nObs, receptorArms, dualTcr, sequence)
    requires AlignerSound(NormaliseMetric(metric, cutoff), cutoff, IndexDict(obs, nObs, receptorArms, dualTcr, sequence), score)
    requires NeighborGraph(obs, nObs, metric, cutoff, receptorArms, dualTcr, sequence, score) == Ok(g)
    ensures forall key :: key in g.distances ==> key.0 < nObs && key.1 < nObs
    ensures forall key :: key in g.connectivities ==> key in g.distances
    ensures dualTcr != "all" ==> forall key :: key in g.connectivities ==>
      CellDist.Swap(key) in g.connectivities && g.connectivities[CellDist.Swap(key)] == g.connectivities[key]
    ensures dualTcr != "all" && receptorArms != "all" ==> forall key :: key in g.distances ==> 1 <= g.distances[key] <= cutoff + 1
    ensures dualTcr != "all" && receptorArms != "all" ==> forall key :: key in g.connectivities ==>
      0.0 < g.connectivities[key] <= 1.0
    ensures dualTcr != "all" && receptorArms != "all" && cutoff == 0 ==> forall key :: key in g.distances ==>
      key in g.connectivities && g.distances[key] == 1 && g.connectivities[key] == 1.0
  {
    var name := NormaliseMetric(metric, cutoff);
    var infos := IndexDict(obs, nObs, receptorArms, dualTcr, sequence);
    var dist := g.distances;
    GraphParts(obs, nObs, metric, cutoff, receptorArms, dualTcr, sequence, score, g);
    BuiltUnfilled(obs, nObs, receptorArms, dualTcr, sequence);
    IndexedPools(obs, nObs, receptorArms, dualTcr, sequence, infos);
    DistancesInShape(infos, name, cutoff, dualTcr, receptorArms, score, dist, nObs);
    if dualTcr != "all" {
      DistancesSymmetric(infos, name, cutoff, dualTcr, receptorArms, score, dist);
      if receptorArms != "all" {
        DistancesWithin(infos, name, cutoff, sequence, dualTcr, receptorArms, score, dist);
        if cutoff > 0 {
          ConnectivitiesWithin(cutoff, dist);
        }
      }
    }
  }
}
