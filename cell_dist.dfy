/** The cell x cell distance matrix (`TcrNeighbors._cell_dist_mat_reduce`,
    its `_add_to_dict`, and the reductions of `compute_distances`).

    Every stored entry (row, col, value) of an arm's sequence matrix reaches,
    for every pair of chain slots (c1, c2), every pair of cells carrying
    sequence row in slot c1 and sequence col in slot c2. Each such arrival is
    recorded in a nested dictionary cell pair -> arm -> (c1, c2) -> value, and
    once more with the cells swapped when row != col. The order of the
    arrivals is made explicit as a sequence of `Add`s; the loops are proved to
    fold exactly that sequence. */
module CellDist {
  import opened Common

  type CellPair = (nat, nat)
  type ChainPair = (nat, nat)
  type ChainDict = map<ChainPair, nat>
  type ArmDict = map<Arm, ChainDict>
  type CoordDict = map<CellPair, ArmDict>

  /** One arm's entry of the index dictionary. `seqToCell` maps a chain slot
      to the lookup pool index -> cells; `distMat` is set by
      `compute_distances`. */
  datatype ArmInfo = ArmInfo(
    arm: Arm,
    chainInds: seq<nat>,
    uniqueSeqs: seq<string>,
    seqToCell: map<nat, map<nat, seq<nat>>>,
    distMat: Option<seq<Entry>>)

  /** One call of `_add_to_dict`. */
  datatype Add = Add(cellRow: nat, cellCol: nat, arm: Arm, c1: nat, c2: nat, value: nat)

  // ---------------------------------------------------------------------
  // Orders of iteration

  /** `itertools.product(xs, ys)`: every x with every y, x-major. */
  function Product(xs: seq<nat>, ys: seq<nat>): (r: seq<(nat, nat)>)
    ensures forall p :: p in r <==> p.0 in xs && p.1 in ys
  {
    if xs == [] then []
    else
      var init := xs[..|xs| - 1];
      var x := xs[|xs| - 1];
      var row := seq(|ys|, j requires 0 <= j < |ys| => (x, ys[j]));
      assert forall p :: p in row <==> p.0 == x && p.1 in ys by {
        forall p: (nat, nat) | p.0 == x && p.1 in ys ensures p in row {
          var j :| 0 <= j < |ys| && ys[j] == p.1;
          assert row[j] == p;
        }
      }
      assert forall v :: v in xs <==> v in init || v == x;
      Product(init, ys) + row
  }

  /** The concatenation of f over xs, in order. */
  function FlatMap<X>(f: X -> seq<Add>, xs: seq<X>): seq<Add>
  {
    if xs == [] then [] else FlatMap(f, xs[..|xs| - 1]) + f(xs[|xs| - 1])
  }

  lemma FlatMapStep<X>(f: X -> seq<Add>, xs: seq<X>, i: nat)
    requires i < |xs|
    ensures FlatMap(f, xs[..i + 1]) == FlatMap(f, xs[..i]) + f(xs[i])
  {
    assert xs[..i + 1][..i] == xs[..i];
  }

  /** An element of a flat map comes from one of the inputs, and every
      input's elements are in it. */
  lemma {:induction false} FlatMapMember<X>(f: X -> seq<Add>, xs: seq<X>, a: Add)
    ensures a in FlatMap(f, xs) <==> exists x :: x in xs && a in f(x)
  {
    if xs != [] {
      var init := xs[..|xs| - 1];
      FlatMapMember(f, init, a);
      assert forall x :: x in xs <==> x in init || x == xs[|xs| - 1];
    }
  }

  // ---------------------------------------------------------------------
  // The arrivals

  /** `seq_to_cell[c][i]`, for a slot and index the index dictionary holds. */
  function Lookup(stc: map<nat, map<nat, seq<nat>>>, c: nat, i: nat): seq<nat>
  {
    if c in stc && i in stc[c] then stc[c][i] else []
  }

  /** The arrivals for one cell pair: once as (cell_row, cell_col), and once
      more swapped for an off-diagonal sequence entry. */
  function PairAdds(arm: Arm, c1: nat, c2: nat, e: Entry, p: CellPair): seq<Add>
  {
    [Add(p.0, p.1, arm, c1, c2, e.value)]
      + (if e.row != e.col then [Add(p.1, p.0, arm, c1, c2, e.value)] else [])
  }

  function PairF(arm: Arm, c1: nat, c2: nat, e: Entry): CellPair -> seq<Add>
  {
    p => PairAdds(arm, c1, c2, e, p)
  }

  /** The arrivals for one chain-slot pair of one sequence entry. */
  function ComboAdds(arm: Arm, stc: map<nat, map<nat, seq<nat>>>, e: Entry, cc: ChainPair): seq<Add>
  {
    FlatMap(PairF(arm, cc.0, cc.1, e), Product(Lookup(stc, cc.0, e.row), Lookup(stc, cc.1, e.col)))
  }

  function ComboF(arm: Arm, stc: map<nat, map<nat, seq<nat>>>, e: Entry): ChainPair -> seq<Add>
  {
    cc => ComboAdds(arm, stc, e, cc)
  }

  /** The arrivals for one sequence entry. */
  function EntryAdds(arm: Arm, chains: seq<nat>, stc: map<nat, map<nat, seq<nat>>>, e: Entry): seq<Add>
  {
    FlatMap(ComboF(arm, stc, e), Product(chains, chains))
  }

  function EntryF(arm: Arm, chains: seq<nat>, stc: map<nat, map<nat, seq<nat>>>): Entry -> seq<Add>
  {
    e => EntryAdds(arm, chains, stc, e)
  }

  /** The arrivals for one arm. */
  function ArmAdds(info: ArmInfo): seq<Add>
  {
    FlatMap(EntryF(info.arm, info.chainInds, info.seqToCell), DistOf(info))
  }

  function DistOf(info: ArmInfo): seq<Entry>
  {
    if info.distMat.Some? then info.distMat.value else []
  }

  /** All arrivals, arm by arm. */
  function AllAdds(infos: seq<ArmInfo>): seq<Add>
  {
    FlatMap(ArmAdds, infos)
  }

  // ---------------------------------------------------------------------
  // _add_to_dict

  /** Which version of the chain-pair store to use: the code as written, or
      the one that keeps every value (see the findings). */
  datatype Policy = AsWritten | Corrected

  /** The innermost store of `_add_to_dict` as written: a repeated (c1, c2)
      also writes (c2, c1), unless that is taken too (an AssertionError), and
      then overwrites (c1, c2) with the new value. */
  function StoreChainPairAsWritten(t: ChainDict, c1: nat, c2: nat, v: nat): Result<ChainDict>
  {
    if (c1, c2) in t then
      if (c2, c1) in t then Err(DuplicateChainPair) else Ok(t[(c2, c1) := v][(c1, c2) := v])
    else Ok(t[(c1, c2) := v])
  }

  /** The store as intended: a repeated (c1, c2) goes to (c2, c1) and leaves
      the earlier value in place. Every stored value stays, the new one is
      added under a key that was free, so the dictionary grows by one. */
  function StoreChainPair(t: ChainDict, c1: nat, c2: nat, v: nat): (r: Result<ChainDict>)
    ensures r.Err? <==> (c1, c2) in t && (c2, c1) in t
    ensures r.Err? ==> r.error == DuplicateChainPair
    ensures r.Ok? ==> |r.value| == |t| + 1
    ensures r.Ok? ==> forall k :: k in t ==> k in r.value && r.value[k] == t[k]
    ensures r.Ok? ==> r.value.Values == t.Values + {v}
  {
    if (c1, c2) in t then
      if (c2, c1) in t then Err(DuplicateChainPair)
      else
        var r := t[(c2, c1) := v];
        assert r.Values == t.Values + {v} by { StoredValues(t, (c2, c1), v); }
        Ok(r)
    else
      var r := t[(c1, c2) := v];
      assert r.Values == t.Values + {v} by { StoredValues(t, (c1, c2), v); }
      Ok(r)
  }

  /** Storing under a free key adds exactly the new value. */
  lemma StoredValues(t: ChainDict, k: ChainPair, v: nat)
    requires k !in t
    ensures t[k := v].Values == t.Values + {v}
  {
    var r := t[k := v];
    forall w | w in t.Values ensures w in r.Values {
      var j :| j in t && t[j] == w;
      assert r[j] == w;
    }
    assert r[k] == v;
    forall w | w in r.Values ensures w in t.Values + {v} {
      var j :| j in r && r[j] == w;
      if j != k {
        assert t[j] == w;
      }
    }
  }

  /** Under the as-written store a repeated chain pair loses the value stored
      first: both keys end up with the second value. */
  lemma AsWrittenStoreLosesValue()
    ensures StoreChainPairAsWritten(map[(1, 2) := 2], 1, 2, 1) == Ok(map[(1, 2) := 1, (2, 1) := 1])
    ensures 2 !in StoreChainPairAsWritten(map[(1, 2) := 2], 1, 2, 1).value.Values
    ensures StoreChainPair(map[(1, 2) := 2], 1, 2, 1) == Ok(map[(1, 2) := 2, (2, 1) := 1])
  {
    var r := map[(1, 2) := 1, (2, 1) := 1];
    var w := map[(1, 2) := 2][(2, 1) := 1][(1, 2) := 1];
    assert r.Keys == {(1, 2), (2, 1)} == w.Keys;
    assert r[(1, 2)] == 1 == w[(1, 2)] && r[(2, 1)] == 1 == w[(2, 1)];
    assert w == r;
    forall w | w in r.Values ensures w == 1 {
      var j :| j in r && r[j] == w;
    }
  }

  function Store(policy: Policy, t: ChainDict, c1: nat, c2: nat, v: nat): Result<ChainDict>
  {
    match policy
    case AsWritten => StoreChainPairAsWritten(t, c1, c2, v)
    case Corrected => StoreChainPair(t, c1, c2, v)
  }

  /** `_add_to_dict`: create the cell pair's dictionary or the arm's
      dictionary on first arrival, otherwise store the chain pair. */
  function AddToDict(policy: Policy, d: CoordDict, a: Add): (r: Result<CoordDict>)
    ensures r.Err? ==> r.error == DuplicateChainPair && KeyOf(a) in d && a.arm in d[KeyOf(a)]
    ensures r.Ok? ==> KeyOf(a) in r.value && a.arm in r.value[KeyOf(a)] && (a.c1, a.c2) in r.value[KeyOf(a)][a.arm]
  {
    var key := (a.cellRow, a.cellCol);
    var first: ChainDict := map[(a.c1, a.c2) := a.value];
    if key !in d then Ok(d[key := map[a.arm := first]])
    else if a.arm !in d[key] then Ok(d[key := d[key][a.arm := first]])
    else
      match Store(policy, d[key][a.arm], a.c1, a.c2, a.value)
      case Err(e) => Err(e)
      case Ok(t) => Ok(d[key := d[key][a.arm := t]])
  }

  /** The dictionary after a sequence of arrivals; the first error stops it. */
  function Apply(policy: Policy, st: Result<CoordDict>, adds: seq<Add>): Result<CoordDict>
  {
    if adds == [] then st
    else
      match Apply(policy, st, adds[..|adds| - 1])
      case Err(e) => Err(e)
      case Ok(d) => AddToDict(policy, d, adds[|adds| - 1])
  }

  /** The only error the accumulation raises itself is the AssertionError
      of the store; any other error is the one it started from. */
  lemma {:induction false} ApplyErrors(policy: Policy, st: Result<CoordDict>, adds: seq<Add>)
    ensures Apply(policy, st, adds).Err? ==> Apply(policy, st, adds) == st || Apply(policy, st, adds).error == DuplicateChainPair
  {
    if adds != [] {
      ApplyErrors(policy, st, adds[..|adds| - 1]);
    }
  }

  lemma {:induction false} ApplyConcat(policy: Policy, st: Result<CoordDict>, xs: seq<Add>, ys: seq<Add>)
    ensures Apply(policy, st, xs + ys) == Apply(policy, Apply(policy, st, xs), ys)
  {
    if ys != [] {
      assert (xs + ys)[..|xs + ys| - 1] == xs + ys[..|ys| - 1];
      ApplyConcat(policy, st, xs, ys[..|ys| - 1]);
    } else {
      assert xs + ys == xs;
    }
  }

  lemma {:induction false} ApplyErr(policy: Policy, e: Error, ys: seq<Add>)
    ensures Apply(policy, Err(e), ys) == Err(e)
  {
    if ys != [] {
      ApplyErr(policy, e, ys[..|ys| - 1]);
    }
  }

  /** Once the arrivals of a prefix of xs fail, the whole of xs fails alike. */
  lemma {:induction false} ApplyStopsAtError<X>(policy: Policy, st: Result<CoordDict>, f: X -> seq<Add>, xs: seq<X>, i: nat)
    requires i <= |xs|
    requires Apply(policy, st, FlatMap(f, xs[..i])).Err?
    ensures Apply(policy, st, FlatMap(f, xs)) == Apply(policy, st, FlatMap(f, xs[..i]))
    decreases |xs| - i
  {
    if i < |xs| {
      FlatMapStep(f, xs, i);
      ApplyConcat(policy, st, FlatMap(f, xs[..i]), f(xs[i]));
      ApplyErr(policy, Apply(policy, st, FlatMap(f, xs[..i])).error, f(xs[i]));
      ApplyStopsAtError(policy, st, f, xs, i + 1);
    } else {
      assert xs[..i] == xs;
    }
  }

  // ---------------------------------------------------------------------
  // The loops of _cell_dist_mat_reduce

  /** The arrivals of one cell pair, applied one after the other. */
  lemma ApplyPairAdds(policy: Policy, d: CoordDict, arm: Arm, c1: nat, c2: nat, e: Entry, p: CellPair)
    ensures var first := AddToDict(policy, d, Add(p.0, p.1, arm, c1, c2, e.value));
      Apply(policy, Ok(d), PairAdds(arm, c1, c2, e, p))
        == if first.Ok? && e.row != e.col then AddToDict(policy, first.value, Add(p.1, p.0, arm, c1, c2, e.value))
           else first
  {
    var a := Add(p.0, p.1, arm, c1, c2, e.value);
    assert Apply(policy, Ok(d), [a]) == AddToDict(policy, d, a) by {
      assert [a][..0] == [];
    }
    if e.row != e.col {
      var b := Add(p.1, p.0, arm, c1, c2, e.value);
      assert [a, b][..1] == [a];
    }
  }

  /** One pass of a loop over `xs` that applies the arrivals of `f(xs[i])`:
      the prefix grows by one, and an error ends the whole loop. */
  lemma ApplyLoopStep<X>(d0: CoordDict, f: X -> seq<Add>, xs: seq<X>, i: nat, d: CoordDict, st: Result<CoordDict>)
    requires i < |xs|
    requires Apply(Corrected, Ok(d0), FlatMap(f, xs[..i])) == Ok(d)
    requires st == Apply(Corrected, Ok(d), f(xs[i]))
    ensures Apply(Corrected, Ok(d0), FlatMap(f, xs[..i + 1])) == st
    ensures st.Err? ==> Apply(Corrected, Ok(d0), FlatMap(f, xs)) == st
  {
    FlatMapStep(f, xs, i);
    ApplyConcat(Corrected, Ok(d0), FlatMap(f, xs[..i]), f(xs[i]));
    if st.Err? {
      ApplyStopsAtError(Corrected, Ok(d0), f, xs, i + 1);
    }
  }

  /** The body of the innermost loop: the arrival at (cell_row, cell_col),
      then, for an off-diagonal entry, the mirrored one. */
  method AddCellPair(d: CoordDict, arm: Arm, c1: nat, c2: nat, e: Entry, cellRow: nat, cellCol: nat)
    returns (st: Result<CoordDict>)
    ensures st == Apply(Corrected, Ok(d), PairAdds(arm, c1, c2, e, (cellRow, cellCol)))
  {
    st := AddToDict(Corrected, d, Add(cellRow, cellCol, arm, c1, c2, e.value));
    if st.Ok? && e.row != e.col {
      st := AddToDict(Corrected, st.value, Add(cellCol, cellRow, arm, c1, c2, e.value));
    }
    ApplyPairAdds(Corrected, d, arm, c1, c2, e, (cellRow, cellCol));
  }

  /** The innermost loop: every (cell_row, cell_col) of the product, with the
      mirrored arrival for an off-diagonal entry. */
  method AddCellPairs(d0: CoordDict, arm: Arm, c1: nat, c2: nat, e: Entry, rows: seq<nat>, cols: seq<nat>)
    returns (r: Result<CoordDict>)
    ensures r == Apply(Corrected, Ok(d0), FlatMap(PairF(arm, c1, c2, e), Product(rows, cols)))
  {
    var ps := Product(rows, cols);
    var f := PairF(arm, c1, c2, e);
    var d := d0;
    var i := 0;
    while i < |ps|
      invariant 0 <= i <= |ps|
      invariant Apply(Corrected, Ok(d0), FlatMap(f, ps[..i])) == Ok(d)
    {
      var st := AddCellPair(d, arm, c1, c2, e, ps[i].0, ps[i].1);
      ApplyLoopStep(d0, f, ps, i, d, st);
      if st.Err? {
        return st;
      }
      d := st.value;
      i := i + 1;
    }
    assert ps[..i] == ps;
    r := Ok(d);
  }

  /** Every chain slot of the arm is indexed for both sequences of the entry. */
  predicate EntryIndexed(chains: seq<nat>, stc: map<nat, map<nat, seq<nat>>>, e: Entry)
  {
    forall c :: c in chains ==> c in stc && e.row in stc[c] && e.col in stc[c]
  }

  /** The loop over `itertools.product(chain_inds, repeat=2)` for one entry. */
  method AddEntry(d0: CoordDict, arm: Arm, chains: seq<nat>, stc: map<nat, map<nat, seq<nat>>>, e: Entry)
    returns (r: Result<CoordDict>)
    requires EntryIndexed(chains, stc, e)
    ensures r == Apply(Corrected, Ok(d0), EntryAdds(arm, chains, stc, e))
  {
    var combos := Product(chains, chains);
    var f := ComboF(arm, stc, e);
    var d := d0;
    var i := 0;
    while i < |combos|
      invariant 0 <= i <= |combos|
      invariant Apply(Corrected, Ok(d0), FlatMap(f, combos[..i])) == Ok(d)
    {
      var (c1, c2) := combos[i];
      assert combos[i] in combos;
      var st := AddCellPairs(d, arm, c1, c2, e, stc[c1][e.row], stc[c2][e.col]);
      ApplyLoopStep(d0, f, combos, i, d, st);
      if st.Err? {
        return st;
      }
      d := st.value;
      i := i + 1;
    }
    assert combos[..i] == combos;
    r := Ok(d);
  }

  /** The arm's distance matrix is computed and indexed for every entry. */
  predicate Indexed(info: ArmInfo)
  {
    info.distMat.Some? && forall e :: e in info.distMat.value ==> EntryIndexed(info.chainInds, info.seqToCell, e)
  }

  /** The loop over the entries of one arm's sequence matrix. */
  method AddArm(d0: CoordDict, info: ArmInfo) returns (r: Result<CoordDict>)
    requires Indexed(info)
    ensures r == Apply(Corrected, Ok(d0), ArmAdds(info))
  {
    var es := info.distMat.value;
    var f := EntryF(info.arm, info.chainInds, info.seqToCell);
    var d := d0;
    var i := 0;
    while i < |es|
      invariant 0 <= i <= |es|
      invariant Apply(Corrected, Ok(d0), FlatMap(f, es[..i])) == Ok(d)
    {
      assert es[i] in es;
      var st := AddEntry(d, info.arm, info.chainInds, info.seqToCell, es[i]);
      ApplyLoopStep(d0, f, es, i, d, st);
      if st.Err? {
        return st;
      }
      d := st.value;
      i := i + 1;
    }
    assert es[..i] == es;
    r := Ok(d);
  }

  /** The loop over the arms: the accumulated dictionary. */
  method Accumulate(infos: seq<ArmInfo>) returns (r: Result<CoordDict>)
    requires forall info :: info in infos ==> Indexed(info)
    ensures r == Apply(Corrected, Ok(map[]), AllAdds(infos))
  {
    var d: CoordDict := map[];
    var i := 0;
    while i < |infos|
      invariant 0 <= i <= |infos|
      invariant Apply(Corrected, Ok(map[]), FlatMap(ArmAdds, infos[..i])) == Ok(d)
    {
      assert infos[i] in infos;
      var st := AddArm(d, infos[i]);
      ApplyLoopStep(map[], ArmAdds, infos, i, d, st);
      if st.Err? {
        return st;
      }
      d := st.value;
      i := i + 1;
    }
    assert infos[..i] == infos;
    r := Ok(d);
  }

  // ---------------------------------------------------------------------
  // What the dictionary records

  function KeyOf(a: Add): CellPair { (a.cellRow, a.cellCol) }

  /** The cell pairs some arrival reached. */
  function KeysOf(adds: seq<Add>): set<CellPair>
  {
    set a | a in adds :: KeyOf(a)
  }

  /** The arms some arrival at `key` came from. */
  function ArmsAt(adds: seq<Add>, key: CellPair): set<Arm>
  {
    set a | a in adds && KeyOf(a) == key :: a.arm
  }

  /** The values that arrived at `key` from `arm`. */
  function ValuesAt(adds: seq<Add>, key: CellPair, arm: Arm): set<nat>
  {
    set a | a in adds && KeyOf(a) == key && a.arm == arm :: a.value
  }

  /** The dictionary holds exactly the cell pairs, arms and values that
      arrived: nothing stored is lost and nothing else appears. */
  predicate Records(d: CoordDict, adds: seq<Add>)
  {
    && d.Keys == KeysOf(adds)
    && (forall key :: key in d ==> d[key].Keys == ArmsAt(adds, key))
    && (forall key, arm :: key in d && arm in d[key] ==> d[key][arm].Values == ValuesAt(adds, key, arm))
  }

  lemma AppendedSets(init: seq<Add>, a: Add, key: CellPair, arm: Arm)
    ensures KeysOf(init + [a]) == KeysOf(init) + {KeyOf(a)}
    ensures ArmsAt(init + [a], key) == ArmsAt(init, key) + (if KeyOf(a) == key then {a.arm} else {})
    ensures ValuesAt(init + [a], key, arm)
      == ValuesAt(init, key, arm) + (if KeyOf(a) == key && a.arm == arm then {a.value} else {})
  {
    assert forall b :: b in init + [a] <==> b in init || b == a;
  }

  /** A cell pair or arm missing from a faithful dictionary saw no arrival. */
  lemma NothingArrived(d: CoordDict, init: seq<Add>, key: CellPair, arm: Arm)
    requires Records(d, init)
    ensures key !in d ==> ArmsAt(init, key) == {} && ValuesAt(init, key, arm) == {}
    ensures key in d && arm !in d[key] ==> ValuesAt(init, key, arm) == {}
  {
    if key !in d {
      forall b | b in init ensures KeyOf(b) != key {
        assert KeyOf(b) in KeysOf(init);
      }
    } else if arm !in d[key] {
      forall b | b in init && KeyOf(b) == key ensures b.arm != arm {
        assert b.arm in ArmsAt(init, key);
      }
    }
  }

  /** Replacing the arm dictionary of the arriving cell pair by one that adds
      the arriving arm and value keeps the dictionary faithful. */
  lemma RecordsUpdate(d: CoordDict, init: seq<Add>, a: Add, ad: ArmDict)
    requires Records(d, init)
    requires ad.Keys == (if KeyOf(a) in d then d[KeyOf(a)].Keys else {}) + {a.arm}
    requires forall arm :: arm in ad && arm != a.arm ==> ad[arm] == d[KeyOf(a)][arm]
    requires ad[a.arm].Values
      == (if KeyOf(a) in d && a.arm in d[KeyOf(a)] then d[KeyOf(a)][a.arm].Values else {}) + {a.value}
    ensures Records(d[KeyOf(a) := ad], init + [a])
  {
    var d2 := d[KeyOf(a) := ad];
    AppendedSets(init, a, KeyOf(a), a.arm);
    forall key | key in d2 ensures d2[key].Keys == ArmsAt(init + [a], key) {
      UpdateArmsAt(d, init, a, ad, key);
    }
    forall key, arm | key in d2 && arm in d2[key]
      ensures d2[key][arm].Values == ValuesAt(init + [a], key, arm)
    {
      UpdateValuesAt(d, init, a, ad, key, arm);
    }
  }

  lemma UpdateArmsAt(d: CoordDict, init: seq<Add>, a: Add, ad: ArmDict, key: CellPair)
    requires Records(d, init)
    requires ad.Keys == (if KeyOf(a) in d then d[KeyOf(a)].Keys else {}) + {a.arm}
    requires key in d || key == KeyOf(a)
    ensures d[KeyOf(a) := ad][key].Keys == ArmsAt(init + [a], key)
  {
    AppendedSets(init, a, key, a.arm);
    NothingArrived(d, init, key, a.arm);
  }

  lemma UpdateValuesAt(d: CoordDict, init: seq<Add>, a: Add, ad: ArmDict, key: CellPair, arm: Arm)
    requires Records(d, init)
    requires ad.Keys == (if KeyOf(a) in d then d[KeyOf(a)].Keys else {}) + {a.arm}
    requires forall arm :: arm in ad && arm != a.arm ==> ad[arm] == d[KeyOf(a)][arm]
    requires ad[a.arm].Values
      == (if KeyOf(a) in d && a.arm in d[KeyOf(a)] then d[KeyOf(a)][a.arm].Values else {}) + {a.value}
    requires key in d[KeyOf(a) := ad] && arm in d[KeyOf(a) := ad][key]
    ensures d[KeyOf(a) := ad][key][arm].Values == ValuesAt(init + [a], key, arm)
  {
    AppendedSets(init, a, key, arm);
    NothingArrived(d, init, key, arm);
  }

  /** One arrival under the corrected store keeps the dictionary faithful. */
  lemma AddRecords(d: CoordDict, init: seq<Add>, a: Add, d2: CoordDict)
    requires Records(d, init)
    requires AddToDict(Corrected, d, a) == Ok(d2)
    ensures Records(d2, init + [a])
  {
    var k0 := KeyOf(a);
    var first := FirstChain(a);
    if k0 !in d {
      assert d2 == d[k0 := map[a.arm := first]];
      RecordsNewPair(d, init, a);
    } else if a.arm !in d[k0] {
      assert d2 == d[k0 := d[k0][a.arm := first]];
      RecordsNewArm(d, init, a);
    } else {
      var t := StoreChainPair(d[k0][a.arm], a.c1, a.c2, a.value).value;
      assert d2 == d[k0 := d[k0][a.arm := t]];
      RecordsStored(d, init, a, t);
    }
  }

  /** The chain dictionary a first arrival creates. */
  function FirstChain(a: Add): (r: ChainDict)
    ensures r == map[(a.c1, a.c2) := a.value]
    ensures (a.c1, a.c2) in r && r[(a.c1, a.c2)] == a.value
    ensures r.Values == {a.value}
  {
    var first: ChainDict := map[(a.c1, a.c2) := a.value];
    assert first[(a.c1, a.c2)] == a.value;
    first
  }

  /** The first arrival at a cell pair. */
  lemma RecordsNewPair(d: CoordDict, init: seq<Add>, a: Add)
    requires Records(d, init) && KeyOf(a) !in d
    ensures Records(d[KeyOf(a) := map[a.arm := FirstChain(a)]], init + [a])
  {
    RecordsUpdate(d, init, a, map[a.arm := FirstChain(a)]);
  }

  /** The first arrival of an arm at a cell pair already reached. */
  lemma RecordsNewArm(d: CoordDict, init: seq<Add>, a: Add)
    requires Records(d, init) && KeyOf(a) in d && a.arm !in d[KeyOf(a)]
    ensures Records(d[KeyOf(a) := d[KeyOf(a)][a.arm := FirstChain(a)]], init + [a])
  {
    RecordsUpdate(d, init, a, d[KeyOf(a)][a.arm := FirstChain(a)]);
  }

  /** A further arrival of an arm, stored by the corrected store. */
  lemma RecordsStored(d: CoordDict, init: seq<Add>, a: Add, t: ChainDict)
    requires Records(d, init) && KeyOf(a) in d && a.arm in d[KeyOf(a)]
    requires StoreChainPair(d[KeyOf(a)][a.arm], a.c1, a.c2, a.value) == Ok(t)
    ensures Records(d[KeyOf(a) := d[KeyOf(a)][a.arm := t]], init + [a])
  {
    RecordsUpdate(d, init, a, d[KeyOf(a)][a.arm := t]);
  }

  /** The accumulated dictionary records exactly the arrivals. */
  lemma {:induction false} ApplyRecords(adds: seq<Add>, d: CoordDict)
    requires Apply(Corrected, Ok(map[]), adds) == Ok(d)
    ensures Records(d, adds)
  {
    if adds == [] {
      assert KeysOf(adds) == {};
    } else {
      var init := adds[..|adds| - 1];
      var a := adds[|adds| - 1];
      assert init + [a] == adds;
      var prev := Apply(Corrected, Ok(map[]), init);
      ApplyRecords(init, prev.value);
      AddRecords(prev.value, init, a, d);
    }
  }

  // ---------------------------------------------------------------------
  // Every arrival has a mirror

  function Swap(key: CellPair): CellPair { (key.1, key.0) }

  /** b arrives at the swapped cell pair, from the same arm, with the same
      value (its chain-slot label may differ). */
  predicate Mirrors(a: Add, b: Add)
  {
    KeyOf(b) == Swap(KeyOf(a)) && b.arm == a.arm && b.value == a.value
  }

  lemma FlatMapWitness<X>(f: X -> seq<Add>, xs: seq<X>, a: Add) returns (x: X)
    requires a in FlatMap(f, xs)
    ensures x in xs && a in f(x)
  {
    FlatMapMember(f, xs, a);
    x :| x in xs && a in f(x);
  }

  lemma FlatMapIncludes<X>(f: X -> seq<Add>, xs: seq<X>, x: X, a: Add)
    requires x in xs && a in f(x)
    ensures a in FlatMap(f, xs)
  {
    FlatMapMember(f, xs, a);
  }

  /** An off-diagonal sequence entry is mirrored by the second arrival of the
      same cell pair; a diagonal one by the arrival of the swapped chain-slot
      pair (c2, c1), which reaches the swapped cell pair. */
  lemma EntryMirror(arm: Arm, chains: seq<nat>, stc: map<nat, map<nat, seq<nat>>>, e: Entry, a: Add)
    returns (b: Add)
    requires a in EntryAdds(arm, chains, stc, e)
    ensures b in EntryAdds(arm, chains, stc, e) && Mirrors(a, b)
  {
    var combos := Product(chains, chains);
    var cc := FlatMapWitness(ComboF(arm, stc, e), combos, a);
    var ps := Product(Lookup(stc, cc.0, e.row), Lookup(stc, cc.1, e.col));
    var p := FlatMapWitness(PairF(arm, cc.0, cc.1, e), ps, a);
    if e.row != e.col {
      var there := Add(p.0, p.1, arm, cc.0, cc.1, e.value);
      var back := Add(p.1, p.0, arm, cc.0, cc.1, e.value);
      b := if a == there then back else there;
      assert b in PairAdds(arm, cc.0, cc.1, e, p);
      FlatMapIncludes(PairF(arm, cc.0, cc.1, e), ps, p, b);
      FlatMapIncludes(ComboF(arm, stc, e), combos, cc, b);
    } else {
      var cc2 := (cc.1, cc.0);
      var p2 := (p.1, p.0);
      var ps2 := Product(Lookup(stc, cc2.0, e.row), Lookup(stc, cc2.1, e.col));
      b := Add(p2.0, p2.1, arm, cc2.0, cc2.1, e.value);
      assert p2 in ps2;
      assert b in PairAdds(arm, cc2.0, cc2.1, e, p2);
      FlatMapIncludes(PairF(arm, cc2.0, cc2.1, e), ps2, p2, b);
      assert cc2 in combos;
      FlatMapIncludes(ComboF(arm, stc, e), combos, cc2, b);
    }
  }

  /** A mirror of an arrival of one arm's matrix, among all arrivals. */
  lemma AllAddsMirror(infos: seq<ArmInfo>, a: Add) returns (b: Add)
    requires a in AllAdds(infos)
    ensures b in AllAdds(infos) && Mirrors(a, b)
  {
    var info := FlatMapWitness(ArmAdds, infos, a);
    var f := EntryF(info.arm, info.chainInds, info.seqToCell);
    var e := FlatMapWitness(f, DistOf(info), a);
    b := EntryMirror(info.arm, info.chainInds, info.seqToCell, e, a);
    FlatMapIncludes(f, DistOf(info), e, b);
    FlatMapIncludes(ArmAdds, infos, info, b);
  }

  /** The arrivals reach a cell pair and its swap alike. */
  lemma SwappedKeys(infos: seq<ArmInfo>, key: CellPair)
    requires key in KeysOf(AllAdds(infos))
    ensures Swap(key) in KeysOf(AllAdds(infos))
  {
    var a :| a in AllAdds(infos) && KeyOf(a) == key;
    var b := AllAddsMirror(infos, a);
  }

  lemma SwappedArms(infos: seq<ArmInfo>, key: CellPair)
    ensures ArmsAt(AllAdds(infos), key) <= ArmsAt(AllAdds(infos), Swap(key))
  {
    var adds := AllAdds(infos);
    forall x | x in ArmsAt(adds, key) ensures x in ArmsAt(adds, Swap(key)) {
      var a :| a in adds && KeyOf(a) == key && a.arm == x;
      var b := AllAddsMirror(infos, a);
    }
  }

  lemma SwappedValues(infos: seq<ArmInfo>, key: CellPair, arm: Arm)
    ensures ValuesAt(AllAdds(infos), key, arm) <= ValuesAt(AllAdds(infos), Swap(key), arm)
  {
    var adds := AllAdds(infos);
    forall v | v in ValuesAt(adds, key, arm) ensures v in ValuesAt(adds, Swap(key), arm) {
      var a :| a in adds && KeyOf(a) == key && a.arm == arm && a.value == v;
      var b := AllAddsMirror(infos, a);
    }
  }

  /** The accumulated dictionary is symmetric: a cell pair and its swap are
      both present, with the same arms and, per arm, the same stored values. */
  lemma AccumulatedSymmetric(infos: seq<ArmInfo>, d: CoordDict)
    requires Apply(Corrected, Ok(map[]), AllAdds(infos)) == Ok(d)
    ensures forall key :: key in d ==> Swap(key) in d && d[Swap(key)].Keys == d[key].Keys
    ensures forall key, arm :: key in d && arm in d[key] ==> d[Swap(key)][arm].Values == d[key][arm].Values
  {
    var adds := AllAdds(infos);
    ApplyRecords(adds, d);
    forall key | key in d ensures Swap(key) in d && d[Swap(key)].Keys == d[key].Keys {
      SwappedKeys(infos, key);
      SwappedArms(infos, key);
      SwappedArms(infos, Swap(key));
      assert Swap(Swap(key)) == key;
    }
    forall key, arm | key in d && arm in d[key]
      ensures d[Swap(key)][arm].Values == d[key][arm].Values
    {
      SwappedKeys(infos, key);
      SwappedValues(infos, key, arm);
      SwappedValues(infos, Swap(key), arm);
      assert Swap(Swap(key)) == key;
    }
  }

  // ---------------------------------------------------------------------
  // The reductions of compute_distances

  /** Every cell pair has an arm and every arm a chain pair. */
  predicate WellFormed(d: CoordDict)
  {
    forall key :: key in d ==> d[key] != map[] && forall arm :: arm in d[key] ==> d[key][arm] != map[]
  }

  lemma RecordsWellFormed(d: CoordDict, adds: seq<Add>)
    requires Records(d, adds)
    ensures WellFormed(d)
  {
    forall key | key in d ensures d[key] != map[] && forall arm :: arm in d[key] ==> d[key][arm] != map[] {
      var a :| a in adds && KeyOf(a) == key;
      assert a.arm in ArmsAt(adds, key);
      forall arm | arm in d[key] ensures d[key][arm] != map[] {
        var b :| b in adds && KeyOf(b) == key && b.arm == arm;
        assert b.value in ValuesAt(adds, key, arm);
      }
    }
  }

  /** `_reduce_dual_all`: one chain pair gives its value; all four pairs of a
      cell pair with two chains on both sides give the better of the two
      pairings (1 with 1 and 2 with 2, or crosswise), summed and offset once;
      two chain pairs give 0 (no edge); any other count is an error. */
  function ReduceDualAll(t: ChainDict): (r: Result<int>)
    requires t != map[]
    ensures r.Err? <==> !(|t| == 1 || |t| == 2 || (|t| == 4 && (1, 2) in t && (2, 1) in t && (1, 1) in t && (2, 2) in t))
    ensures r.Err? ==> r.error == InconsistentChains
    ensures |t| == 1 ==> forall k :: k in t ==> r == Ok(t[k])
    ensures |t| == 2 ==> r == Ok(0)
    ensures r.Ok? && |t| == 4 ==>
      r.value - 1 == Min((t[(1, 2)] as int - 1) + (t[(2, 1)] as int - 1), (t[(1, 1)] as int - 1) + (t[(2, 2)] as int - 1))
  {
    if |t| == 1 then
      assert forall k :: k in t ==> t.Values == {t[k]} by {
        forall k | k in t ensures t.Values == {t[k]} {
          SingleKey(t, k);
        }
      }
      Ok(SetMin(t.Values))
    else if |t| == 4 then
      if (1, 2) in t && (2, 1) in t && (1, 1) in t && (2, 2) in t then
        Ok(Min(t[(1, 2)] + t[(2, 1)], t[(1, 1)] + t[(2, 2)]) - 1)
      else Err(InconsistentChains)
    else if |t| == 2 then Ok(0)
    else Err(InconsistentChains)
  }

  /** `_reduce_dual_all` as written, under NumPy 1.x. The four values are
      `np.uint8` scalars taken from `dist_mat.data`, so each pairing sum of
      two of them wraps modulo 256; subtracting the Python integer 1 then
      promotes to int64, so the final `- 1` does not wrap and can reach -1.
      Every other case is that of `ReduceDualAll`. */
  function ReduceDualAllAsWritten(t: ChainDict): (r: Result<int>)
    requires t != map[]
    ensures r.Ok? <==> ReduceDualAll(t).Ok?
    ensures |t| != 4 ==> r == ReduceDualAll(t)
    ensures r.Ok? ==> -1 <= r.value
    ensures r.Ok? && |t| == 4 ==> r.value < 255
  {
    if |t| == 4 && (1, 2) in t && (2, 1) in t && (1, 1) in t && (2, 2) in t then
      Ok(Min(Uint8(t[(1, 2)] + t[(2, 1)]), Uint8(t[(1, 1)] + t[(2, 2)])) - 1)
    else ReduceDualAll(t)
  }

  /** While both pairing sums fit in a uint8, the wrap is invisible and the
      as-written reduction gives the best pairing. */
  lemma DualAllAgreesBelowWrap(t: ChainDict)
    requires |t| == 4 && (1, 2) in t && (2, 1) in t && (1, 1) in t && (2, 2) in t
    requires forall k :: k in t ==> t[k] >= 1
    requires t[(1, 2)] + t[(2, 1)] < 256 && t[(1, 1)] + t[(2, 2)] < 256
    ensures ReduceDualAllAsWritten(t) == ReduceDualAll(t)
    ensures ReduceDualAll(t).Ok? && 1 <= ReduceDualAll(t).value < 255
  {
    assert t[(1, 2)] >= 1 && t[(2, 1)] >= 1;
    assert t[(1, 1)] >= 1 && t[(2, 2)] >= 1;
  }

  /** The chain dictionary of two cells with two chains each: all four
      chain pairs, with the given values. */
  function FourPairs(v12: nat, v21: nat, v11: nat, v22: nat): (t: ChainDict)
    ensures t.Keys == {(1, 2), (2, 1), (1, 1), (2, 2)}
    ensures |t| == 4 && t[(1, 2)] == v12 && t[(2, 1)] == v21 && t[(1, 1)] == v11 && t[(2, 2)] == v22
  {
    var t := map[(1, 2) := v12, (2, 1) := v21, (1, 1) := v11, (2, 2) := v22];
    assert t.Keys == {(1, 2), (2, 1), (1, 1), (2, 2)};
    t
  }

  /** Finding: four chain pairs at distance 150 (offset value 151) give
      (150 + 150) + 1 = 301 as intended, but 45 as written; values 129 and
      128 make the better pairing sum 257, which wraps to 1 and leaves 0, so
      zero elimination drops the pair; and four values of 128 make both
      sums wrap to 0, leaving the negative distance -1. */
  lemma AsWrittenDualSumWraps()
    ensures ReduceDualAll(FourPairs(151, 151, 151, 151)) == Ok(301)
    ensures ReduceDualAllAsWritten(FourPairs(151, 151, 151, 151)) == Ok(45)
    ensures ReduceDualAll(FourPairs(129, 128, 129, 128)) == Ok(256)
    ensures ReduceDualAllAsWritten(FourPairs(129, 128, 129, 128)) == Ok(0)
    ensures ReduceDualAll(FourPairs(128, 128, 128, 128)) == Ok(255)
    ensures ReduceDualAllAsWritten(FourPairs(128, 128, 128, 128)) == Ok(-1)
  {
    var t := FourPairs(151, 151, 151, 151);
    assert Uint8(302) == 46;
    var u := FourPairs(129, 128, 129, 128);
    assert Uint8(257) == 1;
    var w := FourPairs(128, 128, 128, 128);
    assert Uint8(256) == 0;
  }

  /** `min(x.values())`, the reduction for every other dual-chain policy: the
      least stored value. */
  function ReduceDualMin(t: ChainDict): (r: nat)
    requires t != map[]
    ensures r in t.Values && forall k :: k in t ==> r <= t[k]
  {
    assert forall k :: k in t ==> t[k] in t.Values;
    assert t.Values != {} by {
      var k := SomeKey(t);
    }
    SetMin(t.Values)
  }

  function ReduceDual(dualAll: bool, t: ChainDict): Result<int>
    requires t != map[]
  {
    if dualAll then ReduceDualAll(t) else Ok(ReduceDualMin(t))
  }

  /** With a single chain pair, as under "primary_only", both reductions give
      its value. */
  lemma DualReductionsAgreeOnOnePair(t: ChainDict)
    requires |t| == 1
    ensures ReduceDual(true, t) == ReduceDual(false, t)
  {
    var k := SomeKey(t);
    SingleKey(t, k);
    assert t.Values == {t[k]};
  }

  /** The arms a cell pair was reached by, in the order TRA, TRB. */
  function PresentArms(ad: ArmDict): (r: seq<Arm>)
    ensures forall arm :: arm in r <==> arm in ad
  {
    var r := (if TRA in ad then [TRA] else []) + (if TRB in ad then [TRB] else []);
    assert forall arm :: arm in r <==> arm in ad by {
      forall arm ensures arm in r <==> arm in ad {
        if arm == TRA {} else {}
      }
    }
    r
  }

  /** The dual-chain reduction of each listed arm; the first error stops it. */
  function ReduceEach(dualAll: bool, ad: ArmDict, arms: seq<Arm>): (r: Result<seq<int>>)
    requires forall arm :: arm in arms ==> arm in ad && ad[arm] != map[]
    ensures r.Ok? ==> |r.value| == |arms|
    ensures r.Ok? ==> forall i :: 0 <= i < |arms| ==> ReduceDual(dualAll, ad[arms[i]]) == Ok(r.value[i])
    ensures r.Err? <==> exists i :: 0 <= i < |arms| && ReduceDual(dualAll, ad[arms[i]]).Err?
    ensures r.Err? ==> dualAll && r.error == InconsistentChains
  {
    if arms == [] then Ok([])
    else
      match ReduceDual(dualAll, ad[arms[0]])
      case Err(e) => Err(e)
      case Ok(v) =>
        match ReduceEach(dualAll, ad, arms[1..])
        case Err(e) => assert arms[1..][0] == arms[1]; Err(e)
        case Ok(vs) => Ok([v] + vs)
  }

  function SumOf(vs: seq<int>): int
  {
    if vs == [] then 0 else vs[0] + SumOf(vs[1..])
  }

  function MinOf(vs: seq<int>): (m: int)
    requires vs != []
    ensures m in vs && forall v :: v in vs ==> m <= v
  {
    assert forall v :: v in vs ==> v == vs[0] || v in vs[1..];
    if |vs| == 1 then vs[0] else Min(vs[0], MinOf(vs[1..]))
  }

  /** One cell pair's value: the dual-chain reduction of every arm, then the
      sum over the arms when both arms must match ("all"), else the least. */
  function ReducePair(dualAll: bool, sumArms: bool, ad: ArmDict): (r: Result<int>)
    requires ad != map[] && forall arm :: arm in ad ==> ad[arm] != map[]
    ensures r.Err? ==> dualAll && r.error == InconsistentChains
  {
    match ReduceEach(dualAll, ad, PresentArms(ad))
    case Err(e) => Err(e)
    case Ok(vs) => Ok(if sumArms then SumOf(vs) else MinOf(vs))
  }

  /** Sum and minimum of the values of one or two arms. */
  lemma ShortReductions(a: int, b: int)
    ensures SumOf([a]) == a && MinOf([a]) == a
    ensures SumOf([a, b]) == a + b && MinOf([a, b]) == Min(a, b)
  {
    assert [a, b][1..] == [b];
    assert SumOf([b]) == b + SumOf([]);
  }

  /** The arm list of a pair reached by both arms, by TRA only, or by TRB only. */
  lemma PresentArmsCases(ad: ArmDict)
    requires ad != map[]
    ensures TRA in ad && TRB in ad ==> PresentArms(ad) == [TRA, TRB]
    ensures TRA in ad && TRB !in ad ==> PresentArms(ad) == [TRA]
    ensures TRA !in ad ==> TRB in ad && PresentArms(ad) == [TRB]
  {
    var k := SomeKey(ad);
    var tra: seq<Arm> := if TRA in ad then [TRA] else [];
    var trb: seq<Arm> := if TRB in ad then [TRB] else [];
    assert PresentArms(ad) == tra + trb;
    if TRA !in ad {
      assert k == TRB;
      assert tra + trb == [TRB];
    } else if TRB !in ad {
      assert tra + trb == [TRA];
    }
  }

  /** `reduce_arms` sees one value per arm that reached the cell pair: a pair
      reached by one arm gets that arm's value, a pair reached by both the
      sum (for "all") or the smaller of the two; an error of either arm is
      raised. */
  lemma ArmReductions(dualAll: bool, sumArms: bool, ad: ArmDict)
    requires ad != map[] && forall arm :: arm in ad ==> ad[arm] != map[]
    ensures ReducePair(dualAll, sumArms, ad).Err? <==> exists arm :: arm in ad && ReduceDual(dualAll, ad[arm]).Err?
    ensures ReducePair(dualAll, sumArms, ad).Ok? && TRA in ad && TRB !in ad ==>
      ReducePair(dualAll, sumArms, ad) == ReduceDual(dualAll, ad[TRA])
    ensures ReducePair(dualAll, sumArms, ad).Ok? && TRB in ad && TRA !in ad ==>
      ReducePair(dualAll, sumArms, ad) == ReduceDual(dualAll, ad[TRB])
    ensures ReducePair(dualAll, sumArms, ad).Ok? && TRA in ad && TRB in ad ==>
      var a := ReduceDual(dualAll, ad[TRA]).value;
      var b := ReduceDual(dualAll, ad[TRB]).value;
      ReducePair(dualAll, sumArms, ad).value == if sumArms then a + b else Min(a, b)
  {
    var arms := PresentArms(ad);
    PresentArmsCases(ad);
    var each := ReduceEach(dualAll, ad, arms);
    if each.Ok? {
      var vs := each.value;
      if |vs| == 2 {
        ShortReductions(vs[0], vs[1]);
        assert vs == [vs[0], vs[1]];
      } else {
        ShortReductions(vs[0], vs[0]);
        assert vs == [vs[0]];
      }
    } else {
      var i :| 0 <= i < |arms| && ReduceDual(dualAll, ad[arms[i]]).Err?;
      assert arms[i] in ad;
    }
  }

  /** Under a min dual reduction a cell pair's value depends only on which
      arms reached it and on the sets of values they stored. */
  lemma ReducePairBySets(sumArms: bool, ad1: ArmDict, ad2: ArmDict)
    requires ad1 != map[] && forall arm :: arm in ad1 ==> ad1[arm] != map[]
    requires ad1.Keys == ad2.Keys
    requires forall arm :: arm in ad1 ==> ad2[arm].Values == ad1[arm].Values
    ensures ad2 != map[] && forall arm :: arm in ad2 ==> ad2[arm] != map[]
    ensures ReducePair(false, sumArms, ad1) == ReducePair(false, sumArms, ad2)
  {
    assert ad2 != map[] by {
      var k := SomeKey(ad1);
    }
    forall arm | arm in ad2 ensures ad2[arm] != map[] && ReduceDual(false, ad1[arm]) == ReduceDual(false, ad2[arm]) {
      SameValuesSameMin(ad1[arm], ad2[arm]);
    }
    assert PresentArms(ad1) == PresentArms(ad2);
    ReduceEachAgrees(ad1, ad2, PresentArms(ad1));
  }

  /** Chain dictionaries with the same values have the same least value. */
  lemma SameValuesSameMin(t1: ChainDict, t2: ChainDict)
    requires t1 != map[] && t2.Values == t1.Values
    ensures t2 != map[] && ReduceDual(false, t1) == ReduceDual(false, t2)
  {
    var k := SomeKey(t1);
    assert t1[k] in t2.Values;
  }

  /** The min dual reductions of two arm dictionaries that agree arm by arm
      give the same list. */
  lemma {:induction false} ReduceEachAgrees(ad1: ArmDict, ad2: ArmDict, arms: seq<Arm>)
    requires forall arm :: arm in arms ==> arm in ad1 && ad1[arm] != map[] && arm in ad2 && ad2[arm] != map[]
    requires forall arm :: arm in arms ==> ReduceDual(false, ad1[arm]) == ReduceDual(false, ad2[arm])
    ensures ReduceEach(false, ad1, arms) == ReduceEach(false, ad2, arms)
  {
    if arms != [] {
      assert arms[0] in arms;
      assert forall arm :: arm in arms[1..] ==> arm in arms;
      ReduceEachAgrees(ad1, ad2, arms[1..]);
    }
  }

  /** The dictionary comprehension over the cell pairs: an error at any pair
      is raised, otherwise every pair maps to its reduced value. */
  function ReduceAll(dualAll: bool, sumArms: bool, d: CoordDict): (r: Result<map<CellPair, int>>)
    requires WellFormed(d)
    ensures r.Err? <==> exists key :: key in d && ReducePair(dualAll, sumArms, d[key]).Err?
    ensures r.Ok? ==> forall key :: key in r.value <==> key in d
    ensures r.Ok? ==> forall key :: key in d ==> ReducePair(dualAll, sumArms, d[key]) == Ok(r.value[key])
    ensures r.Err? ==> dualAll && r.error == InconsistentChains
  {
    if exists key :: key in d && ReducePair(dualAll, sumArms, d[key]).Err? then Err(InconsistentChains)
    else
      var m := map key | key in d :: ReducePair(dualAll, sumArms, d[key]).value;
      assert forall key :: key in m <==> key in d;
      assert forall key :: key in d ==> ReducePair(dualAll, sumArms, d[key]) == Ok(m[key]);
      Ok(m)
  }

  /** The stored chain pair is present after the store, under either policy. */
  lemma StoreKeepsPair(policy: Policy, t: ChainDict, c1: nat, c2: nat, v: nat)
    requires Store(policy, t, c1, c2, v).Ok?
    ensures (c1, c2) in Store(policy, t, c1, c2, v).value
  {
  }

  lemma WellFormedUpdate(d: CoordDict, k0: CellPair, ad: ArmDict)
    requires WellFormed(d)
    requires ad != map[] && forall arm :: arm in ad ==> ad[arm] != map[]
    ensures WellFormed(d[k0 := ad])
  {
  }

  lemma AddWellFormed(policy: Policy, d: CoordDict, a: Add, d2: CoordDict)
    requires WellFormed(d)
    requires AddToDict(policy, d, a) == Ok(d2)
    ensures WellFormed(d2)
  {
    var k0 := KeyOf(a);
    var first: ChainDict := map[(a.c1, a.c2) := a.value];
    assert (a.c1, a.c2) in first;
    if k0 !in d {
      var ad := map[a.arm := first];
      assert a.arm in ad;
      WellFormedUpdate(d, k0, ad);
    } else if a.arm !in d[k0] {
      WellFormedUpdate(d, k0, d[k0][a.arm := first]);
    } else {
      var t := Store(policy, d[k0][a.arm], a.c1, a.c2, a.value).value;
      StoreKeepsPair(policy, d[k0][a.arm], a.c1, a.c2, a.value);
      WellFormedUpdate(d, k0, d[k0][a.arm := t]);
    }
  }

  /** Every arrival leaves a non-empty arm dictionary and chain dictionary
      behind, under either store. */
  lemma {:induction false} ApplyWellFormed(policy: Policy, adds: seq<Add>, d: CoordDict)
    requires Apply(policy, Ok(map[]), adds) == Ok(d)
    ensures WellFormed(d)
  {
    if adds != [] {
      var init := adds[..|adds| - 1];
      var prev := Apply(policy, Ok(map[]), init).value;
      ApplyWellFormed(policy, init, prev);
      AddWellFormed(policy, prev, adds[|adds| - 1], d);
    }
  }

  /** Accumulate all arms under the given store, then reduce every pair. */
  function CellDistMatBy(policy: Policy, infos: seq<ArmInfo>, dualAll: bool, sumArms: bool): (r: Result<map<CellPair, int>>)
    ensures r.Err? ==> r.error == DuplicateChainPair || (dualAll && r.error == InconsistentChains)
    ensures r.Ok? ==> Apply(policy, Ok(map[]), AllAdds(infos)).Ok?
    ensures r.Ok? ==> r.value.Keys == Apply(policy, Ok(map[]), AllAdds(infos)).value.Keys
  {
    ApplyErrors(policy, Ok(map[]), AllAdds(infos));
    match Apply(policy, Ok(map[]), AllAdds(infos))
    case Err(e) => Err(e)
    case Ok(d) =>
      ApplyWellFormed(policy, AllAdds(infos), d);
      ReduceAll(dualAll, sumArms, d)
  }

  /** With the min reduction of the chains no cell pair fails. */
  lemma MinReductionSucceeds(sumArms: bool, d: CoordDict)
    requires WellFormed(d)
    ensures ReduceAll(false, sumArms, d).Ok?
  {
    forall key | key in d ensures ReducePair(false, sumArms, d[key]).Ok? {
      var r := ReduceEach(false, d[key], PresentArms(d[key]));
    }
  }

  /** `_cell_dist_mat_reduce`: the loops, then the reduction of every pair. */
  method CellDistMatReduce(infos: seq<ArmInfo>, dualAll: bool, sumArms: bool)
    returns (r: Result<map<CellPair, int>>)
    requires forall info :: info in infos ==> Indexed(info)
    ensures r == CellDistMatBy(Corrected, infos, dualAll, sumArms)
  {
    var acc := Accumulate(infos);
    if acc.Err? {
      return Err(acc.error);
    }
    ApplyWellFormed(Corrected, AllAdds(infos), acc.value);
    r := ReduceAll(dualAll, sumArms, acc.value);
  }

  /** Unless every chain must match ("all"), the cell x cell matrix is
      symmetric. */
  lemma CellDistMatSymmetric(infos: seq<ArmInfo>, sumArms: bool, m: map<CellPair, int>)
    requires CellDistMatBy(Corrected, infos, false, sumArms) == Ok(m)
    ensures forall key :: key in m ==> Swap(key) in m && m[Swap(key)] == m[key]
  {
    var d := Apply(Corrected, Ok(map[]), AllAdds(infos)).value;
    ApplyWellFormed(Corrected, AllAdds(infos), d);
    AccumulatedSymmetric(infos, d);
    forall key | key in m ensures Swap(key) in m && m[Swap(key)] == m[key] {
      ReducePairBySets(sumArms, d[key], d[Swap(key)]);
    }
  }

  // ---------------------------------------------------------------------
  // Where the values come from

  /** An arrival of one sequence entry comes from one chain-slot pair and one
      cell pair of the slots' cell lists, with the entry's value. */
  lemma EntryArrival(arm: Arm, chains: seq<nat>, stc: map<nat, map<nat, seq<nat>>>, e: Entry, a: Add)
    returns (cc: ChainPair, p: CellPair)
    requires a in EntryAdds(arm, chains, stc, e)
    ensures p in Product(Lookup(stc, cc.0, e.row), Lookup(stc, cc.1, e.col))
    ensures a == Add(p.0, p.1, arm, cc.0, cc.1, e.value)
      || (e.row != e.col && a == Add(p.1, p.0, arm, cc.0, cc.1, e.value))
  {
    cc := FlatMapWitness(ComboF(arm, stc, e), Product(chains, chains), a);
    p := FlatMapWitness(PairF(arm, cc.0, cc.1, e), Product(Lookup(stc, cc.0, e.row), Lookup(stc, cc.1, e.col)), a);
  }

  /** Every arrival comes from a stored entry of some arm. */
  lemma ArrivalEntry(infos: seq<ArmInfo>, a: Add) returns (info: ArmInfo, e: Entry)
    requires a in AllAdds(infos)
    ensures info in infos && e in DistOf(info)
    ensures a in EntryAdds(info.arm, info.chainInds, info.seqToCell, e)
  {
    info := FlatMapWitness(ArmAdds, infos, a);
    e := FlatMapWitness(EntryF(info.arm, info.chainInds, info.seqToCell), DistOf(info), a);
  }

  /** Every arrival carries the value of a stored entry of some arm. */
  lemma ArrivalValue(infos: seq<ArmInfo>, a: Add) returns (info: ArmInfo, e: Entry)
    requires a in AllAdds(infos)
    ensures info in infos && e in DistOf(info) && a.value == e.value
  {
    info, e := ArrivalEntry(infos, a);
    var cc, p := EntryArrival(info.arm, info.chainInds, info.seqToCell, e, a);
  }

  /** All stored entries of all arms lie in [lo, hi]. */
  predicate ValuesWithin(infos: seq<ArmInfo>, lo: int, hi: int)
  {
    forall info, e :: info in infos && e in DistOf(info) ==> lo <= e.value <= hi
  }

  /** With the min reductions on both levels a cell pair's value is a value
      some arm stored for it. */
  lemma MinPairIsStored(ad: ArmDict) returns (arm: Arm)
    requires ad != map[] && forall arm :: arm in ad ==> ad[arm] != map[]
    ensures arm in ad && ReducePair(false, false, ad) == Ok(ReduceDualMin(ad[arm]))
  {
    ArmReductions(false, false, ad);
    if TRA in ad && (TRB !in ad || ReduceDualMin(ad[TRA]) <= ReduceDualMin(ad[TRB])) {
      arm := TRA;
    } else {
      arm := TRB;
    }
  }

  /** With the min reductions on both levels every cell pair's value is one
      of the stored sequence distances, so it keeps their bounds. */
  lemma CellDistMatWithin(infos: seq<ArmInfo>, m: map<CellPair, int>, lo: int, hi: int)
    requires CellDistMatBy(Corrected, infos, false, false) == Ok(m)
    requires ValuesWithin(infos, lo, hi)
    ensures forall key :: key in m ==> lo <= m[key] <= hi
  {
    var adds := AllAdds(infos);
    var d := Apply(Corrected, Ok(map[]), adds).value;
    ApplyRecords(adds, d);
    ApplyWellFormed(Corrected, adds, d);
    forall key | key in m ensures lo <= m[key] <= hi {
      var arm := MinPairIsStored(d[key]);
      var v := ReduceDualMin(d[key][arm]);
      assert v in ValuesAt(adds, key, arm);
      var a :| a in adds && KeyOf(a) == key && a.arm == arm && a.value == v;
      var info, e := ArrivalValue(infos, a);
    }
  }

  // ---------------------------------------------------------------------
  // Where the cells come from

  /** Every arrival's two cells come from the cell lists of its arm's index. */
  lemma ArrivalCells(infos: seq<ArmInfo>, a: Add)
    returns (info: ArmInfo, c1: nat, i1: nat, c2: nat, i2: nat)
    requires a in AllAdds(infos)
    ensures info in infos
    ensures a.cellRow in Lookup(info.seqToCell, c1, i1) && a.cellCol in Lookup(info.seqToCell, c2, i2)
  {
    var e;
    info, e := ArrivalEntry(infos, a);
    var cc, p := EntryArrival(info.arm, info.chainInds, info.seqToCell, e, a);
    if a == Add(p.0, p.1, info.arm, cc.0, cc.1, e.value) {
      c1, i1, c2, i2 := cc.0, e.row, cc.1, e.col;
    } else {
      c1, i1, c2, i2 := cc.1, e.col, cc.0, e.row;
    }
  }

  /** Every cell any arm's index lists is below n. */
  ghost predicate CellsBelow(infos: seq<ArmInfo>, n: nat)
  {
    forall info, c, i, x :: info in infos && x in Lookup(info.seqToCell, c, i) ==> x < n
  }

  /** The cell pairs of the result index an n x n matrix when the index lists
      only cells below n: the `shape` of the sparse matrix holds them. */
  lemma CellDistMatShape(infos: seq<ArmInfo>, dualAll: bool, sumArms: bool, m: map<CellPair, int>, n: nat)
    requires CellDistMatBy(Corrected, infos, dualAll, sumArms) == Ok(m)
    requires CellsBelow(infos, n)
    ensures forall key :: key in m ==> key.0 < n && key.1 < n
  {
    var adds := AllAdds(infos);
    var d := Apply(Corrected, Ok(map[]), adds).value;
    ApplyRecords(adds, d);
    ApplyWellFormed(Corrected, adds, d);
    forall key | key in m ensures key.0 < n && key.1 < n {
      assert key in KeysOf(adds);
      var a :| a in adds && KeyOf(a) == key;
      var info, c1, i1, c2, i2 := ArrivalCells(infos, a);
    }
  }

  // ---------------------------------------------------------------------
  // The as-written store breaks the symmetry

  /** Two cells over the TRA pool ["A", "BBB", "BBC"] with the Levenshtein
      calculator at cutoff 1: cell 0 carries "A" as primary and "BBC" as
      secondary chain, cell 1 carries "BBB" and "A". */
  function ExampleInfos(): seq<ArmInfo>
  {
    [ArmInfo(TRA, [1, 2], ["A", "BBB", "BBC"], ExampleIndex(),
             Some([Entry(0, 0, 1), Entry(1, 1, 1), Entry(1, 2, 2), Entry(2, 2, 1)]))]
  }

  /** Slot -> pool index -> cells of the example. */
  function ExampleIndex(): map<nat, map<nat, seq<nat>>>
  {
    map[1 := map[0 := [0], 1 := [1], 2 := []], 2 := map[0 := [1], 1 := [], 2 := [0]]]
  }

  lemma ExampleLookups()
    ensures Lookup(ExampleIndex(), 1, 0) == [0] && Lookup(ExampleIndex(), 1, 1) == [1]
    ensures Lookup(ExampleIndex(), 1, 2) == []
    ensures Lookup(ExampleIndex(), 2, 0) == [1] && Lookup(ExampleIndex(), 2, 2) == [0]
    ensures Lookup(ExampleIndex(), 2, 1) == []
  {
  }

  /** The arrivals of the example, in the order of the loops. */
  function ExampleAdds(): seq<Add>
  {
    [Add(0, 0, TRA, 1, 1, 1), Add(0, 1, TRA, 1, 2, 1), Add(1, 0, TRA, 2, 1, 1), Add(1, 1, TRA, 2, 2, 1),
     Add(1, 1, TRA, 1, 1, 1),
     Add(1, 0, TRA, 1, 2, 2), Add(0, 1, TRA, 1, 2, 2),
     Add(0, 0, TRA, 2, 2, 1)]
  }

  lemma ProductOne(x: nat, y: nat)
    ensures Product([x], [y]) == [(x, y)]
  {
    assert [x][..0] == [];
  }

  lemma ProductNone(xs: seq<nat>, ys: seq<nat>)
    requires xs == [] || ys == []
    ensures Product(xs, ys) == []
  {
  }

  lemma ProductOfSlots()
    ensures Product([1, 2], [1, 2]) == [(1, 1), (1, 2), (2, 1), (2, 2)]
  {
    assert [1, 2][..1] == [1];
    assert [1][..0] == [];
  }

  lemma FlatMapOne<X>(f: X -> seq<Add>, x: X)
    ensures FlatMap(f, [x]) == f(x)
  {
    assert [x][..0] == [];
  }

  lemma FlatMapFour<X>(f: X -> seq<Add>, xs: seq<X>)
    requires |xs| == 4
    ensures FlatMap(f, xs) == f(xs[0]) + f(xs[1]) + f(xs[2]) + f(xs[3])
  {
    assert xs[..0] == [];
    FlatMapStep(f, xs, 0);
    FlatMapStep(f, xs, 1);
    FlatMapStep(f, xs, 2);
    FlatMapStep(f, xs, 3);
    assert xs[..4] == xs;
  }

  /** A chain-slot pair whose two lookups hold one cell each. */
  lemma ComboOne(arm: Arm, stc: map<nat, map<nat, seq<nat>>>, e: Entry, cc: ChainPair, x: nat, y: nat)
    requires Lookup(stc, cc.0, e.row) == [x] && Lookup(stc, cc.1, e.col) == [y]
    ensures ComboAdds(arm, stc, e, cc) == PairAdds(arm, cc.0, cc.1, e, (x, y))
  {
    ProductOne(x, y);
    FlatMapOne(PairF(arm, cc.0, cc.1, e), (x, y));
  }

  lemma ComboNone(arm: Arm, stc: map<nat, map<nat, seq<nat>>>, e: Entry, cc: ChainPair)
    requires Lookup(stc, cc.0, e.row) == [] || Lookup(stc, cc.1, e.col) == []
    ensures ComboAdds(arm, stc, e, cc) == []
  {
    ProductNone(Lookup(stc, cc.0, e.row), Lookup(stc, cc.1, e.col));
  }

  lemma EntryOverSlots(arm: Arm, stc: map<nat, map<nat, seq<nat>>>, e: Entry)
    ensures EntryAdds(arm, [1, 2], stc, e)
      == ComboAdds(arm, stc, e, (1, 1)) + ComboAdds(arm, stc, e, (1, 2))
       + ComboAdds(arm, stc, e, (2, 1)) + ComboAdds(arm, stc, e, (2, 2))
  {
    ProductOfSlots();
    FlatMapFour(ComboF(arm, stc, e), [(1, 1), (1, 2), (2, 1), (2, 2)]);
  }

  lemma ComboDiagonal(arm: Arm, stc: map<nat, map<nat, seq<nat>>>, e: Entry, cc: ChainPair, x: nat, y: nat)
    requires e.row == e.col
    requires Lookup(stc, cc.0, e.row) == [x] && Lookup(stc, cc.1, e.col) == [y]
    ensures ComboAdds(arm, stc, e, cc) == [Add(x, y, arm, cc.0, cc.1, e.value)]
  {
    ComboOne(arm, stc, e, cc, x, y);
  }

  /** A diagonal entry over two chain slots, each holding one cell. */
  lemma DiagonalOverSlots(arm: Arm, stc: map<nat, map<nat, seq<nat>>>, e: Entry, x1: nat, x2: nat)
    requires e.row == e.col
    requires Lookup(stc, 1, e.row) == [x1] && Lookup(stc, 2, e.row) == [x2]
    ensures EntryAdds(arm, [1, 2], stc, e)
      == [Add(x1, x1, arm, 1, 1, e.value), Add(x1, x2, arm, 1, 2, e.value),
          Add(x2, x1, arm, 2, 1, e.value), Add(x2, x2, arm, 2, 2, e.value)]
  {
    ComboDiagonal(arm, stc, e, (1, 1), x1, x1);
    ComboDiagonal(arm, stc, e, (1, 2), x1, x2);
    ComboDiagonal(arm, stc, e, (2, 1), x2, x1);
    ComboDiagonal(arm, stc, e, (2, 2), x2, x2);
    EntryOfSingleCombos(arm, stc, e, Add(x1, x1, arm, 1, 1, e.value), Add(x1, x2, arm, 1, 2, e.value),
      Add(x2, x1, arm, 2, 1, e.value), Add(x2, x2, arm, 2, 2, e.value));
  }

  lemma EntryOfSingleCombos(arm: Arm, stc: map<nat, map<nat, seq<nat>>>, e: Entry, a11: Add, a12: Add, a21: Add, a22: Add)
    requires ComboAdds(arm, stc, e, (1, 1)) == [a11] && ComboAdds(arm, stc, e, (1, 2)) == [a12]
    requires ComboAdds(arm, stc, e, (2, 1)) == [a21] && ComboAdds(arm, stc, e, (2, 2)) == [a22]
    ensures EntryAdds(arm, [1, 2], stc, e) == [a11, a12, a21, a22]
  {
    EntryOverSlots(arm, stc, e);
    SingletonsConcat(ComboAdds(arm, stc, e, (1, 1)), ComboAdds(arm, stc, e, (1, 2)),
      ComboAdds(arm, stc, e, (2, 1)), ComboAdds(arm, stc, e, (2, 2)), a11, a12, a21, a22);
  }

  lemma SingletonsConcat<T>(s1: seq<T>, s2: seq<T>, s3: seq<T>, s4: seq<T>, x1: T, x2: T, x3: T, x4: T)
    requires s1 == [x1] && s2 == [x2] && s3 == [x3] && s4 == [x4]
    ensures s1 + s2 + s3 + s4 == [x1, x2, x3, x4]
  {
    assert [x1] + [x2] + [x3] + [x4] == [x1, x2, x3, x4];
  }

  lemma ExampleEntry1()
    ensures EntryAdds(TRA, [1, 2], ExampleIndex(), Entry(0, 0, 1))
      == [Add(0, 0, TRA, 1, 1, 1), Add(0, 1, TRA, 1, 2, 1), Add(1, 0, TRA, 2, 1, 1), Add(1, 1, TRA, 2, 2, 1)]
  {
    ExampleLookups();
    DiagonalOverSlots(TRA, ExampleIndex(), Entry(0, 0, 1), 0, 1);
  }

  lemma ExampleEntry2()
    ensures EntryAdds(TRA, [1, 2], ExampleIndex(), Entry(1, 1, 1)) == [Add(1, 1, TRA, 1, 1, 1)]
  {
    var stc, e := ExampleIndex(), Entry(1, 1, 1);
    ExampleLookups();
    EntryOverSlots(TRA, stc, e);
    ComboOne(TRA, stc, e, (1, 1), 1, 1);
    ComboNone(TRA, stc, e, (1, 2));
    ComboNone(TRA, stc, e, (2, 1));
    ComboNone(TRA, stc, e, (2, 2));
  }

  lemma ExampleEntry3()
    ensures EntryAdds(TRA, [1, 2], ExampleIndex(), Entry(1, 2, 2)) == [Add(1, 0, TRA, 1, 2, 2), Add(0, 1, TRA, 1, 2, 2)]
  {
    var stc, e := ExampleIndex(), Entry(1, 2, 2);
    ExampleLookups();
    EntryOverSlots(TRA, stc, e);
    ComboNone(TRA, stc, e, (1, 1));
    ComboOne(TRA, stc, e, (1, 2), 1, 0);
    ComboNone(TRA, stc, e, (2, 1));
    ComboNone(TRA, stc, e, (2, 2));
  }

  lemma ExampleEntry4()
    ensures EntryAdds(TRA, [1, 2], ExampleIndex(), Entry(2, 2, 1)) == [Add(0, 0, TRA, 2, 2, 1)]
  {
    var stc, e := ExampleIndex(), Entry(2, 2, 1);
    ExampleLookups();
    EntryOverSlots(TRA, stc, e);
    ComboNone(TRA, stc, e, (1, 1));
    ComboNone(TRA, stc, e, (1, 2));
    ComboNone(TRA, stc, e, (2, 1));
    ComboOne(TRA, stc, e, (2, 2), 0, 0);
  }

  lemma ExampleAddsByEntry()
    ensures ExampleAdds()
      == [Add(0, 0, TRA, 1, 1, 1), Add(0, 1, TRA, 1, 2, 1), Add(1, 0, TRA, 2, 1, 1), Add(1, 1, TRA, 2, 2, 1)]
       + [Add(1, 1, TRA, 1, 1, 1)] + [Add(1, 0, TRA, 1, 2, 2), Add(0, 1, TRA, 1, 2, 2)] + [Add(0, 0, TRA, 2, 2, 1)]
  {
  }

  /** The loops of the example produce exactly these arrivals. */
  lemma ExampleArrivals()
    ensures AllAdds(ExampleInfos()) == ExampleAdds()
  {
    var info := ExampleInfos()[0];
    var stc := ExampleIndex();
    var e1, e2, e3, e4 := Entry(0, 0, 1), Entry(1, 1, 1), Entry(1, 2, 2), Entry(2, 2, 1);
    ExampleEntry1();
    ExampleEntry2();
    ExampleEntry3();
    ExampleEntry4();
    var f := EntryF(TRA, [1, 2], stc);
    FlatMapFour(f, [e1, e2, e3, e4]);
    assert ArmAdds(info) == f(e1) + f(e2) + f(e3) + f(e4);
    ExampleAddsByEntry();
    FlatMapOne(ArmAdds, info);
  }

  lemma ApplyPrefix(policy: Policy, st: Result<CoordDict>, adds: seq<Add>, i: nat)
    requires i < |adds|
    ensures Apply(policy, st, adds[..i + 1])
      == match Apply(policy, st, adds[..i])
         case Err(e) => Err(e)
         case Ok(d) => AddToDict(policy, d, adds[i])
  {
    assert adds[..i + 1][..i] == adds[..i];
  }

  /** The first two arrivals of the example, under the as-written store:
      cells (0, 0) and (0, 1) get their first chain pairs. */
  lemma AsWrittenExampleTwoSteps() returns (d2: CoordDict)
    ensures Apply(AsWritten, Ok(map[]), ExampleAdds()[..2]) == Ok(d2)
    ensures d2 == map[(0, 0) := map[TRA := map[(1, 1) := 1]], (0, 1) := map[TRA := map[(1, 2) := 1]]]
  {
    var adds := ExampleAdds();
    var d0: CoordDict := map[];
    assert adds[..0] == [];
    var d1 := AddFresh(AsWritten, d0, adds[0]);
    ApplyStep(AsWritten, adds, 0, d0, d1);
    d2 := AddFresh(AsWritten, d1, adds[1]);
    ApplyStep(AsWritten, adds, 1, d1, d2);
  }

  /** The first four arrivals of the example, under the as-written store:
      every cell pair gets its first chain pair. */
  lemma AsWrittenExampleFirstHalf() returns (d4: CoordDict)
    ensures Apply(AsWritten, Ok(map[]), ExampleAdds()[..4]) == Ok(d4)
    ensures d4 == map[(0, 0) := map[TRA := map[(1, 1) := 1]], (0, 1) := map[TRA := map[(1, 2) := 1]],
                      (1, 0) := map[TRA := map[(2, 1) := 1]], (1, 1) := map[TRA := map[(2, 2) := 1]]]
  {
    var adds := ExampleAdds();
    var d2 := AsWrittenExampleTwoSteps();
    var d3 := AddFresh(AsWritten, d2, adds[2]);
    ApplyStep(AsWritten, adds, 2, d2, d3);
    d4 := AddFresh(AsWritten, d3, adds[3]);
    ApplyStep(AsWritten, adds, 3, d3, d4);
  }

  /** The first arrival at a cell pair creates its dictionary. */
  lemma AddFresh(policy: Policy, d: CoordDict, a: Add) returns (d2: CoordDict)
    requires KeyOf(a) !in d
    ensures d2 == d[KeyOf(a) := map[a.arm := FirstChain(a)]]
    ensures AddToDict(policy, d, a) == Ok(d2)
  {
    d2 := d[KeyOf(a) := map[a.arm := FirstChain(a)]];
  }

  /** One more arrival on top of a prefix whose dictionary is known. */
  lemma ApplyStep(policy: Policy, adds: seq<Add>, i: nat, d: CoordDict, d2: CoordDict)
    requires i < |adds| && Apply(policy, Ok(map[]), adds[..i]) == Ok(d)
    requires AddToDict(policy, d, adds[i]) == Ok(d2)
    ensures Apply(policy, Ok(map[]), adds[..i + 1]) == Ok(d2)
  {
    ApplyPrefix(policy, Ok(map[]), adds, i);
  }

  /** An arrival for the only arm present at its cell pair goes to the store. */
  lemma AddToSoleArm(policy: Policy, d: CoordDict, a: Add, t: ChainDict)
    requires KeyOf(a) in d && d[KeyOf(a)].Keys == {a.arm}
    requires Store(policy, d[KeyOf(a)][a.arm], a.c1, a.c2, a.value) == Ok(t)
    ensures AddToDict(policy, d, a) == Ok(d[KeyOf(a) := map[a.arm := t]])
  {
    assert d[KeyOf(a)][a.arm := t] == map[a.arm := t];
  }

  /** Arrival five: a second chain pair for cells (1, 1). */
  lemma AsWrittenExampleFiveSteps() returns (d5: CoordDict)
    ensures Apply(AsWritten, Ok(map[]), ExampleAdds()[..5]) == Ok(d5)
    ensures (0, 0) in d5 && d5[(0, 0)] == map[TRA := map[(1, 1) := 1]]
    ensures (0, 1) in d5 && d5[(0, 1)] == map[TRA := map[(1, 2) := 1]]
    ensures (1, 0) in d5 && d5[(1, 0)] == map[TRA := map[(2, 1) := 1]]
  {
    var adds := ExampleAdds();
    var d4 := AsWrittenExampleFirstHalf();
    var t5 := map[(2, 2) := 1][(1, 1) := 1];
    d5 := d4[(1, 1) := map[TRA := t5]];
    assert AddToDict(AsWritten, d4, adds[4]) == Ok(d5) by {
      assert d4[(1, 1)].Keys == {TRA};
      AddToSoleArm(AsWritten, d4, adds[4], t5);
    }
    ApplyStep(AsWritten, adds, 4, d4, d5);
  }

  /** Arrival six: a second chain pair for cells (1, 0). */
  lemma AsWrittenExampleSixSteps() returns (d6: CoordDict)
    ensures Apply(AsWritten, Ok(map[]), ExampleAdds()[..6]) == Ok(d6)
    ensures (0, 0) in d6 && d6[(0, 0)] == map[TRA := map[(1, 1) := 1]]
    ensures (0, 1) in d6 && d6[(0, 1)] == map[TRA := map[(1, 2) := 1]]
    ensures (1, 0) in d6 && d6[(1, 0)] == map[TRA := map[(2, 1) := 1, (1, 2) := 2]]
  {
    var adds := ExampleAdds();
    var d5 := AsWrittenExampleFiveSteps();
    var t6 := map[(2, 1) := 1][(1, 2) := 2];
    d6 := d5[(1, 0) := map[TRA := t6]];
    assert AddToDict(AsWritten, d5, adds[5]) == Ok(d6) by {
      assert d5[(1, 0)].Keys == {TRA};
      AddToSoleArm(AsWritten, d5, adds[5], t6);
    }
    ApplyStep(AsWritten, adds, 5, d5, d6);
    assert t6 == map[(2, 1) := 1, (1, 2) := 2];
  }

  /** Arrival seven: the repeated chain pair (1, 2) of cells (0, 1). */
  lemma AsWrittenExampleSevenSteps() returns (d7: CoordDict)
    ensures Apply(AsWritten, Ok(map[]), ExampleAdds()[..7]) == Ok(d7)
    ensures (0, 0) in d7 && d7[(0, 0)] == map[TRA := map[(1, 1) := 1]]
    ensures (0, 1) in d7 && d7[(0, 1)] == map[TRA := map[(1, 2) := 2, (2, 1) := 2]]
    ensures (1, 0) in d7 && d7[(1, 0)] == map[TRA := map[(2, 1) := 1, (1, 2) := 2]]
  {
    var adds := ExampleAdds();
    var d6 := AsWrittenExampleSixSteps();
    var t7: ChainDict := map[(1, 2) := 2, (2, 1) := 2];
    d7 := d6[(0, 1) := map[TRA := t7]];
    assert AddToDict(AsWritten, d6, adds[6]) == Ok(d7) by {
      assert d6[(0, 1)].Keys == {TRA};
      AsWrittenRepeatStore();
      AddToSoleArm(AsWritten, d6, adds[6], t7);
    }
    ApplyStep(AsWritten, adds, 6, d6, d7);
  }

  /** The as-written store of a repeated (1, 2): the value goes to (2, 1)
      and also overwrites (1, 2). */
  lemma AsWrittenRepeatStore()
    ensures StoreChainPairAsWritten(map[(1, 2) := 1], 1, 2, 2) == Ok(map[(1, 2) := 2, (2, 1) := 2])
  {
    assert map[(1, 2) := 1][(2, 1) := 2][(1, 2) := 2] == map[(1, 2) := 2, (2, 1) := 2];
  }

  /** Under the as-written store the example's dictionary keeps only the
      second value for the chain pair (1, 2) of cells (0, 1), while the
      swapped cells (1, 0) keep both values. */
  lemma AsWrittenExampleDict() returns (d: CoordDict)
    ensures Apply(AsWritten, Ok(map[]), ExampleAdds()) == Ok(d)
    ensures (0, 1) in d && d[(0, 1)] == map[TRA := map[(1, 2) := 2, (2, 1) := 2]]
    ensures (1, 0) in d && d[(1, 0)] == map[TRA := map[(2, 1) := 1, (1, 2) := 2]]
  {
    var adds := ExampleAdds();
    var d7 := AsWrittenExampleSevenSteps();
    var t8 := map[(1, 1) := 1][(2, 2) := 1];
    d := d7[(0, 0) := map[TRA := t8]];
    assert AddToDict(AsWritten, d7, adds[7]) == Ok(d) by {
      assert d7[(0, 0)].Keys == {TRA};
      AddToSoleArm(AsWritten, d7, adds[7], t8);
    }
    ApplyStep(AsWritten, adds, 7, d7, d);
    assert adds[..8] == adds;
  }

  lemma SingleArmPair(sumArms: bool, t: ChainDict)
    requires t != map[]
    ensures var ad := map[TRA := t]; TRA in ad && ReducePair(false, sumArms, ad) == Ok(ReduceDualMin(t))
  {
    var ad := map[TRA := t];
    assert PresentArms(ad) == [TRA];
    assert [TRA][1..] == [];
    assert ReduceDual(false, ad[TRA]) == Ok(ReduceDualMin(t));
    assert ReduceEach(false, ad, []) == Ok([]);
    assert [ReduceDualMin(t)] + [] == [ReduceDualMin(t)];
    assert ReduceEach(false, ad, [TRA]) == Ok([ReduceDualMin(t)]);
    assert SumOf([ReduceDualMin(t)]) == ReduceDualMin(t) by {
      assert [ReduceDualMin(t)][1..] == [];
    }
  }

  lemma ExampleMinima()
    ensures var t: ChainDict := map[(1, 2) := 2, (2, 1) := 2]; (1, 2) in t && ReduceDualMin(t) == 2
    ensures var t: ChainDict := map[(2, 1) := 1, (1, 2) := 2]; (1, 2) in t && ReduceDualMin(t) == 1
  {
    var t01: ChainDict := map[(1, 2) := 2, (2, 1) := 2];
    var t10: ChainDict := map[(2, 1) := 1, (1, 2) := 2];
    assert t01[(1, 2)] == 2;
    forall v | v in t01.Values ensures v == 2 {
      var k :| k in t01 && t01[k] == v;
    }
    assert t10[(2, 1)] == 1;
    forall v | v in t10.Values ensures v >= 1 {
      var k :| k in t10 && t10[k] == v;
    }
  }

  /** With dual_tcr "any" and receptor_arms "TRA" the as-written store gives
      the example's cells distance entry 2 one way and 1 the other way: the
      cell x cell matrix is not symmetric. */
  lemma AsWrittenBreaksSymmetry() returns (m: map<CellPair, int>)
    ensures CellDistMatBy(AsWritten, ExampleInfos(), false, false) == Ok(m)
    ensures (0, 1) in m && (1, 0) in m && m[(0, 1)] == 2 && m[(1, 0)] == 1
  {
    ExampleArrivals();
    var d := AsWrittenExampleDict();
    ApplyWellFormed(AsWritten, ExampleAdds(), d);
    MinReductionSucceeds(false, d);
    m := ReduceAll(false, false, d).value;
    SingleArmPair(false, map[(1, 2) := 2, (2, 1) := 2]);
    SingleArmPair(false, map[(2, 1) := 1, (1, 2) := 2]);
    ExampleMinima();
  }
}
