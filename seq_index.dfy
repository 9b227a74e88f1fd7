/** The sequence pool of one receptor arm and the lookup from pool index to
    the cells carrying that sequence (`TcrNeighbors._seq_to_cell_idx` and the
    pool built in `_build_index_dict`). A missing CDR3 value is `None`. */
module SeqIndex {
  import opened Common

  // ---------------------------------------------------------------------
  // String order (numpy sorts strings by code point, lexicographically)

  predicate Less(a: string, b: string)
    decreases |a|
  {
    if |a| == 0 then |b| > 0
    else if |b| == 0 then false
    else if a[0] != b[0] then a[0] < b[0]
    else Less(a[1..], b[1..])
  }

  lemma {:induction false} LessIrreflexive(a: string)
    ensures !Less(a, a)
    decreases |a|
  {
    if |a| > 0 {
      LessIrreflexive(a[1..]);
    }
  }

  lemma {:induction false} LessTransitive(a: string, b: string, c: string)
    requires Less(a, b) && Less(b, c)
    ensures Less(a, c)
    decreases |a|
  {
    if |a| > 0 && a[0] == b[0] && b[0] == c[0] {
      LessTransitive(a[1..], b[1..], c[1..]);
    }
  }

  /** Two different strings are ordered one way or the other. */
  lemma {:induction false} LessTotal(a: string, b: string)
    requires a != b
    ensures Less(a, b) || Less(b, a)
    decreases |a|
  {
    if |a| > 0 && |b| > 0 && a[0] == b[0] {
      assert a == [a[0]] + a[1..] && b == [b[0]] + b[1..];
      LessTotal(a[1..], b[1..]);
    }
  }

  predicate StrictlySorted(s: seq<string>)
  {
    forall a, b :: 0 <= a < b < |s| ==> Less(s[a], s[b])
  }

  lemma SortedIsDistinct(s: seq<string>)
    requires StrictlySorted(s)
    ensures Distinct(s)
  {
    forall a, b | 0 <= a < b < |s| ensures s[a] != s[b] {
      if s[a] == s[b] {
        LessIrreflexive(s[a]);
      }
    }
  }

  // ---------------------------------------------------------------------
  // np.unique

  /** Insert x into a strictly sorted sequence, unless it is already there. */
  function Insert(x: string, s: seq<string>): (r: seq<string>)
    requires StrictlySorted(s)
    ensures StrictlySorted(r)
    ensures forall y :: y in r <==> y == x || y in s
    decreases |s|
  {
    if s == [] then [x]
    else if x == s[0] then s
    else if Less(x, s[0]) then
      assert forall b :: 0 < b < |s| ==> Less(s[0], s[b]);
      forall b | 0 < b < |s| ensures Less(x, s[b]) {
        LessTransitive(x, s[0], s[b]);
      }
      [x] + s
    else
      LessTotal(x, s[0]);
      var rest := Insert(x, s[1..]);
      assert forall y :: y in s <==> y == s[0] || y in s[1..];
      forall b | 0 <= b < |rest| ensures Less(s[0], rest[b]) {
        assert rest[b] in rest;
      }
      [s[0]] + rest
  }

  /** `np.unique`: the distinct values, sorted. */
  function SortedUnique(vals: seq<string>): (r: seq<string>)
    ensures StrictlySorted(r)
    ensures forall y :: y in r <==> y in vals
  {
    if vals == [] then []
    else
      var init := vals[..|vals| - 1];
      assert forall y :: y in vals <==> y in init || y == vals[|vals| - 1];
      Insert(vals[|vals| - 1], SortedUnique(init))
  }

  /** The non-missing values of a column, in cell order. */
  function Values(col: seq<Option<string>>): (r: seq<string>)
    ensures forall y :: y in r <==> Some(y) in col
  {
    if col == [] then []
    else
      var init := col[..|col| - 1];
      var last := col[|col| - 1];
      assert forall v :: v in col <==> v in init || v == last;
      Values(init) + (if last.Some? then [last.value] else [])
  }

  /** `np.hstack` of the chain columns with the missing values dropped. */
  function AllValues(cols: seq<seq<Option<string>>>): (r: seq<string>)
    ensures forall y :: y in r <==> exists k :: 0 <= k < |cols| && Some(y) in cols[k]
  {
    if cols == [] then []
    else
      var init := cols[..|cols| - 1];
      var rest := AllValues(init);
      assert forall k :: 0 <= k < |cols| - 1 ==> cols[k] == init[k];
      rest + Values(cols[|cols| - 1])
  }

  /** The pool of one arm: sorted, free of duplicates, and holding exactly the
      values present in any of the chain columns. */
  function UniquePool(cols: seq<seq<Option<string>>>): (r: seq<string>)
    ensures StrictlySorted(r) && Distinct(r)
    ensures forall y :: y in r <==> exists k :: 0 <= k < |cols| && Some(y) in cols[k]
  {
    var r := SortedUnique(AllValues(cols));
    SortedIsDistinct(r);
    r
  }

  // ---------------------------------------------------------------------
  // Cells of a column

  predicate StrictlyIncreasing(xs: seq<nat>)
  {
    forall a, b :: 0 <= a < b < |xs| ==> xs[a] < xs[b]
  }

  /** The first elements of two strictly increasing lists with the same
      members agree. */
  lemma SameHead(xs: seq<nat>, ys: seq<nat>)
    requires xs != [] && ys != []
    requires StrictlyIncreasing(xs) && StrictlyIncreasing(ys)
    requires xs[0] in ys && ys[0] in xs
    ensures xs[0] == ys[0]
  {
    var m :| 0 <= m < |ys| && ys[m] == xs[0];
    var m' :| 0 <= m' < |xs| && xs[m'] == ys[0];
    assert xs[0] <= xs[m'] && ys[0] <= ys[m];
  }

  /** Below a shared head, every later member of xs is a later member of ys. */
  lemma TailIn(xs: seq<nat>, ys: seq<nat>)
    requires xs != [] && ys != [] && xs[0] == ys[0]
    requires StrictlyIncreasing(xs)
    requires forall a :: 0 <= a < |xs| ==> xs[a] in ys
    ensures forall a :: 0 <= a < |xs| - 1 ==> xs[1..][a] in ys[1..]
  {
    forall a | 0 <= a < |xs| - 1 ensures xs[1..][a] in ys[1..] {
      assert xs[a + 1] in ys;
      var b :| 0 <= b < |ys| && ys[b] == xs[a + 1];
      assert xs[0] < xs[a + 1];
      assert ys[1..][b - 1] == ys[b];
    }
  }

  /** Two strictly increasing lists with the same members are the same list. */
  lemma {:induction false} IncreasingUnique(xs: seq<nat>, ys: seq<nat>)
    requires StrictlyIncreasing(xs) && StrictlyIncreasing(ys)
    requires forall a :: 0 <= a < |xs| ==> xs[a] in ys
    requires forall b :: 0 <= b < |ys| ==> ys[b] in xs
    ensures xs == ys
    decreases |xs|
  {
    assert |xs| == 0 <==> |ys| == 0 by {
      if |xs| > 0 { assert xs[0] in ys; }
      if |ys| > 0 { assert ys[0] in xs; }
    }
    if xs != [] {
      SameHead(xs, ys);
      TailIn(xs, ys);
      TailIn(ys, xs);
      IncreasingUnique(xs[1..], ys[1..]);
      assert xs == [xs[0]] + xs[1..] && ys == [ys[0]] + ys[1..];
    }
  }

  /** `np.where(~is_na(cdr_seqs))`: the cells that have a sequence, in order. */
  function Present(cdr: seq<Option<string>>): (r: seq<nat>)
    ensures StrictlyIncreasing(r)
    ensures forall c: nat :: c in r <==> c < |cdr| && cdr[c].Some?
  {
    if cdr == [] then []
    else
      var n := |cdr| - 1;
      var rest := Present(cdr[..n]);
      forall a | 0 <= a < |rest| ensures rest[a] < n {
        assert rest[a] in rest;
      }
      rest + (if cdr[n].Some? then [n] else [])
  }

  /** The cells, in order, whose sequence is s. */
  function CellsOf(cdr: seq<Option<string>>, s: string): (r: seq<nat>)
    ensures StrictlyIncreasing(r)
    ensures forall c: nat :: c in r <==> c < |cdr| && cdr[c] == Some(s)
  {
    if cdr == [] then []
    else
      var n := |cdr| - 1;
      var rest := CellsOf(cdr[..n], s);
      forall a | 0 <= a < |rest| ensures rest[a] < n {
        assert rest[a] in rest;
      }
      rest + (if cdr[n] == Some(s) then [n] else [])
  }

  /** `{seq: i for i, seq in enumerate(unique_seqs)}`: each sequence maps to
      the index of its last occurrence. */
  function SeqToIndex(u: seq<string>): (r: map<string, nat>)
    ensures forall x :: x in r <==> x in u
    ensures forall x :: x in r ==> r[x] < |u| && u[r[x]] == x
  {
    if u == [] then map[]
    else
      var init := u[..|u| - 1];
      assert forall x :: x in u <==> x in init || x == u[|u| - 1];
      SeqToIndex(init)[u[|u| - 1] := |u| - 1]
  }

  /** In a pool of distinct sequences every index is its sequence's index. */
  lemma {:induction false} DistinctIndex(u: seq<string>)
    requires Distinct(u)
    ensures forall k :: 0 <= k < |u| ==> SeqToIndex(u)[u[k]] == k
    ensures forall k: nat :: k in SeqToIndex(u).Values <==> k < |u|
  {
    var m := SeqToIndex(u);
    forall k | 0 <= k < |u| ensures m[u[k]] == k {
    }
    forall k: nat | k in m.Values ensures k < |u| {
      var x :| x in m && m[x] == k;
    }
    forall k: nat | k < |u| ensures k in m.Values {
      assert m[u[k]] == k;
    }
  }

  /** An index kept by the map belongs to exactly the sequence stored there. */
  lemma KeyOfSequence(u: seq<string>, k: nat, v: string)
    requires k in SeqToIndex(u).Values && v in SeqToIndex(u)
    ensures k < |u|
    ensures SeqToIndex(u)[v] == k <==> u[k] == v
  {
    var x :| x in SeqToIndex(u) && SeqToIndex(u)[x] == k;
  }

  /** The lookup `_seq_to_cell_idx` returns when every sequence is known:
      each pool index (of the last occurrence of its sequence) lists the cells
      with that sequence. */
  function CellLists(u: seq<string>, cdr: seq<Option<string>>): (r: map<nat, seq<nat>>)
    ensures r.Keys == SeqToIndex(u).Values
    ensures forall k :: k in r ==> k < |u| && r[k] == CellsOf(cdr, u[k])
  {
    var keys := SeqToIndex(u).Values;
    assert forall k :: k in keys ==> k < |u| by {
      forall k | k in keys ensures k < |u| {
        var x :| x in SeqToIndex(u) && SeqToIndex(u)[x] == k;
      }
    }
    map k | k in keys :: CellsOf(cdr, u[k])
  }

  /** Some cell has a sequence that is not in the pool. */
  predicate HasUnknown(u: seq<string>, cdr: seq<Option<string>>)
  {
    exists c :: 0 <= c < |cdr| && cdr[c].Some? && cdr[c].value !in u
  }

  /** Every cell of the list is a cell of the column. */
  predicate CellsIn(cells: seq<nat>, n: nat)
  {
    forall a :: 0 <= a < |cells| ==> cells[a] < n
  }

  /** The cells of `cells`, in order, whose sequence is s. */
  function Select(cdr: seq<Option<string>>, cells: seq<nat>, s: string): seq<nat>
    requires CellsIn(cells, |cdr|)
  {
    if cells == [] then []
    else
      var last := cells[|cells| - 1];
      Select(cdr, cells[..|cells| - 1], s) + (if cdr[last] == Some(s) then [last] else [])
  }

  lemma {:induction false} SelectMembers(cdr: seq<Option<string>>, cells: seq<nat>, s: string)
    requires CellsIn(cells, |cdr|)
    ensures forall c :: c in Select(cdr, cells, s) <==> c in cells && cdr[c] == Some(s)
  {
    if cells != [] {
      var init := cells[..|cells| - 1];
      SelectMembers(cdr, init, s);
      assert forall c :: c in cells <==> c in init || c == cells[|cells| - 1];
    }
  }

  lemma {:induction false} SelectIncreasing(cdr: seq<Option<string>>, cells: seq<nat>, s: string)
    requires CellsIn(cells, |cdr|)
    requires StrictlyIncreasing(cells)
    ensures StrictlyIncreasing(Select(cdr, cells, s))
  {
    if cells != [] {
      var init := cells[..|cells| - 1];
      SelectIncreasing(cdr, init, s);
      SelectMembers(cdr, init, s);
      var rest := Select(cdr, init, s);
      var last := cells[|cells| - 1];
      forall a | 0 <= a < |rest| ensures rest[a] < last {
        assert rest[a] in rest;
        var m :| 0 <= m < |init| && init[m] == rest[a];
      }
      assert Select(cdr, cells, s) == rest + (if cdr[last] == Some(s) then [last] else []);
    }
  }

  /** `_seq_to_cell_idx`: look up the pool index of every cell's sequence
      (a KeyError if it is not in the pool), then append each cell, in cell
      order, to the list of its sequence's index. */
  method SeqToCellIdx(u: seq<string>, cdr: seq<Option<string>>) returns (r: Result<map<nat, seq<nat>>>)
    ensures r.Err? <==> HasUnknown(u, cdr)
    ensures r.Err? ==> r.error == UnknownSequence
    ensures r.Ok? ==> r.value == CellLists(u, cdr)
  {
    var seqToIndex := SeqToIndex(u);
    var cellsWithChain := Present(cdr);
    UnknownAmongPresent(u, cdr);
    // the pool index of each cell's sequence; a KeyError for an unknown one
    if exists c :: c in cellsWithChain && cdr[c].value !in seqToIndex {
      return Err(UnknownSequence);
    }
    var seqInds := map c | c in cellsWithChain :: seqToIndex[cdr[c].value];
    AllListsAppended(u, cdr);
    assert forall a :: 0 <= a < |cellsWithChain| ==>
      && cdr[cellsWithChain[a]].Some? && cdr[cellsWithChain[a]].value in seqToIndex
      && cellsWithChain[a] in seqInds && seqInds[cellsWithChain[a]] == seqToIndex[cdr[cellsWithChain[a]].value]
    by {
      forall a | 0 <= a < |cellsWithChain|
        ensures cellsWithChain[a] in cellsWithChain
      {
      }
    }
    var seqToCell := AppendCells(u, cdr, cellsWithChain, seqInds);
    r := Ok(seqToCell);
  }

  /** A cell with an unknown sequence is one of the cells with a chain. */
  lemma UnknownAmongPresent(u: seq<string>, cdr: seq<Option<string>>)
    ensures HasUnknown(u, cdr) <==> exists c :: c in Present(cdr) && cdr[c].value !in SeqToIndex(u)
  {
    if HasUnknown(u, cdr) {
      var c :| 0 <= c < |cdr| && cdr[c].Some? && cdr[c].value !in u;
      assert c in Present(cdr);
    }
  }

  /** Once every cell with a chain has been appended, the lists are those
      of the specification. */
  lemma AllListsAppended(u: seq<string>, cdr: seq<Option<string>>)
    ensures CellsIn(Present(cdr), |cdr|)
    ensures ListsAfter(u, cdr, Present(cdr), |Present(cdr)|) == CellLists(u, cdr)
  {
    var cells := Present(cdr);
    SelectPresent(cdr, "");
    assert cells[..|cells|] == cells;
    var m := ListsAfter(u, cdr, cells, |cells|);
    forall k | k in SeqToIndex(u).Values ensures k < |u| {
      var x :| x in SeqToIndex(u) && SeqToIndex(u)[x] == k;
    }
    forall k | k in m ensures m[k] == CellsOf(cdr, u[k]) {
      SelectPresent(cdr, u[k]);
    }
  }

  /** The lists after the first t cells have been appended. */
  function ListsAfter(u: seq<string>, cdr: seq<Option<string>>, cells: seq<nat>, t: nat): map<nat, seq<nat>>
    requires CellsIn(cells, |cdr|) && t <= |cells|
  {
    assert CellsIn(cells[..t], |cdr|);
    map k | k in SeqToIndex(u).Values && k < |u| :: Select(cdr, cells[..t], u[k])
  }

  /** Appending cells[t] to the list of its sequence's index turns the lists
      after t cells into the lists after t + 1 cells. */
  lemma ListsAfterStep(u: seq<string>, cdr: seq<Option<string>>, cells: seq<nat>, t: nat)
    requires CellsIn(cells, |cdr|) && t < |cells|
    requires cdr[cells[t]].Some? && cdr[cells[t]].value in SeqToIndex(u)
    ensures var id := SeqToIndex(u)[cdr[cells[t]].value];
      var m := ListsAfter(u, cdr, cells, t);
      id in m && ListsAfter(u, cdr, cells, t + 1) == m[id := m[id] + [cells[t]]]
  {
    var id := SeqToIndex(u)[cdr[cells[t]].value];
    var m := ListsAfter(u, cdr, cells, t);
    var m' := ListsAfter(u, cdr, cells, t + 1);
    assert id in SeqToIndex(u).Values;
    assert id < |u|;
    forall k | k in m' ensures m'[k] == m[id := m[id] + [cells[t]]][k] {
      AppendStep(u, cdr, cells, t, k);
    }
  }

  /** Step 4 of `_seq_to_cell_idx`: an empty list for every pool index,
      then each cell appended, in order, to the list of its sequence's index. */
  method AppendCells(u: seq<string>, cdr: seq<Option<string>>, cells: seq<nat>, seqInds: map<nat, nat>)
    returns (seqToCell: map<nat, seq<nat>>)
    requires CellsIn(cells, |cdr|)
    requires forall a :: 0 <= a < |cells| ==>
      && cdr[cells[a]].Some? && cdr[cells[a]].value in SeqToIndex(u)
      && cells[a] in seqInds && seqInds[cells[a]] == SeqToIndex(u)[cdr[cells[a]].value]
    ensures seqToCell == ListsAfter(u, cdr, cells, |cells|)
  {
    var seqToIndex := SeqToIndex(u);
    seqToCell := map k | k in seqToIndex.Values :: [];
    assert seqToCell == ListsAfter(u, cdr, cells, 0) by {
      forall k | k in seqToIndex.Values ensures k < |u| {
        var x :| x in seqToIndex && seqToIndex[x] == k;
      }
    }
    var t := 0;
    while t < |cells|
      invariant 0 <= t <= |cells|
      invariant seqToCell == ListsAfter(u, cdr, cells, t)
    {
      var cell := cells[t];
      var seqId := seqInds[cell];
      ListsAfterStep(u, cdr, cells, t);
      seqToCell := seqToCell[seqId := seqToCell[seqId] + [cell]];
      t := t + 1;
    }
  }

  /** Appending cell cells[t] to the list of its sequence's index extends
      that list, and only that one, from the cells before t to the cells up
      to t. */
  lemma AppendStep(u: seq<string>, cdr: seq<Option<string>>, cells: seq<nat>, t: nat, k: nat)
    requires CellsIn(cells, |cdr|) && t < |cells|
    requires cdr[cells[t]].Some? && cdr[cells[t]].value in SeqToIndex(u)
    requires k in SeqToIndex(u).Values
    ensures k < |u| && CellsIn(cells[..t + 1], |cdr|) && CellsIn(cells[..t], |cdr|)
    ensures Select(cdr, cells[..t + 1], u[k]) == Select(cdr, cells[..t], u[k])
      + (if SeqToIndex(u)[cdr[cells[t]].value] == k then [cells[t]] else [])
  {
    KeyOfSequence(u, k, cdr[cells[t]].value);
    SelectStep(cdr, cells, t, u[k]);
  }

  lemma SelectStep(cdr: seq<Option<string>>, cells: seq<nat>, t: nat, s: string)
    requires t < |cells| && CellsIn(cells, |cdr|)
    ensures cells[t] < |cdr| && CellsIn(cells[..t + 1], |cdr|) && CellsIn(cells[..t], |cdr|)
    ensures Select(cdr, cells[..t + 1], s)
      == Select(cdr, cells[..t], s) + (if cdr[cells[t]] == Some(s) then [cells[t]] else [])
  {
    assert cells[..t + 1][..t] == cells[..t];
  }

  /** Selecting from the cells that have a sequence those with sequence s
      gives the cells of s. */
  lemma SelectPresent(cdr: seq<Option<string>>, s: string)
    ensures CellsIn(Present(cdr), |cdr|)
    ensures Select(cdr, Present(cdr), s) == CellsOf(cdr, s)
  {
    var cells := Present(cdr);
    forall a | 0 <= a < |cells| ensures cells[a] < |cdr| {
      assert cells[a] in cells;
    }
    SelectIncreasing(cdr, cells, s);
    SelectMembers(cdr, cells, s);
    var xs, ys := Select(cdr, cells, s), CellsOf(cdr, s);
    forall a | 0 <= a < |xs| ensures xs[a] in ys {
      assert xs[a] in xs;
    }
    forall b | 0 <= b < |ys| ensures ys[b] in xs {
      assert ys[b] in ys;
    }
    IncreasingUnique(xs, ys);
  }

  /** Every cell that has a sequence appears in exactly one list, that of its
      sequence's pool index, and cells without one appear in none. */
  lemma CellListsPartition(u: seq<string>, cdr: seq<Option<string>>, c: nat)
    requires Distinct(u) && !HasUnknown(u, cdr) && c < |cdr|
    ensures cdr[c].None? ==> forall k :: k in CellLists(u, cdr) ==> c !in CellLists(u, cdr)[k]
    ensures cdr[c].Some? ==>
      forall k :: k in CellLists(u, cdr) ==> (c in CellLists(u, cdr)[k] <==> u[k] == cdr[c].value)
    ensures forall k: nat :: k in CellLists(u, cdr) <==> k < |u|
  {
    DistinctIndex(u);
  }

  /** A pool built from the very columns it indexes knows every sequence, so
      the lookup never fails. */
  lemma PoolKnowsEveryCell(cols: seq<seq<Option<string>>>, k: nat)
    requires k < |cols|
    ensures !HasUnknown(UniquePool(cols), cols[k])
  {
    var u := UniquePool(cols);
    forall c | 0 <= c < |cols[k]| && cols[k][c].Some? ensures cols[k][c].value in u {
      assert Some(cols[k][c].value) in cols[k];
    }
  }
}
