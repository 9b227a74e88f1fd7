/** Sequence x sequence distance matrices (`_DistanceCalculator` and its
    subclasses, and the `tcr_dist` dispatch).

    A calculator keeps, for row i, the columns j >= i whose distance d is at
    most the cutoff and stores d + 1, so that the implicit 0 of a sparse matrix
    means "beyond the cutoff". Values are stored as uint8. The worker pool is a
    sequential loop over the rows. */
module DistanceCalc {
  import opened Common
  import Levenshtein

  /** Largest cutoff whose offset value cutoff + 1 fits in a uint8. */
  const MaxCutoff: int := 254

  /** Substitution matrix and gap penalties handed to the aligner. */
  datatype AlignParams = AlignParams(substMat: string, gapOpen: int, gapExtend: int)

  const DefaultAlignParams := AlignParams("blosum62", 11, 1)

  /** The three calculators, each with the cutoff its constructor stored. */
  datatype Calculator =
    | IdentityCalc(cutoff: int)
    | LevenshteinCalc(cutoff: int)
    | AlignmentCalc(cutoff: int, params: AlignParams)

  /** The global alignment score computed by the external aligner. */
  type Scorer = (AlignParams, string, string) -> int

  // ---------------------------------------------------------------------
  // Construction

  /** The constructor's cutoff check as written: only cutoff > 255 is refused. */
  function CheckCutoffAsWritten(cutoff: int): Result<int>
  {
    if cutoff > 255 then Err(CutoffTooLarge) else Ok(cutoff)
  }

  /** The cutoff check every constructor performs, with the bound that keeps
      cutoff + 1 representable. */
  function CheckCutoff(cutoff: int): Result<int>
  {
    if cutoff > MaxCutoff then Err(CutoffTooLarge) else Ok(cutoff)
  }

  /** Every distance an accepted cutoff admits is stored without loss, and its
      stored value is never the reserved 0. */
  lemma AcceptedCutoffIsLossless(cutoff: int, d: int)
    requires CheckCutoff(cutoff).Ok?
    requires 0 <= d <= cutoff
    ensures CheckCutoff(cutoff).value == cutoff
    ensures Uint8(d + 1) == d + 1 && Uint8(d + 1) >= 1
  {
  }

  /** The as-written check accepts 255, whose largest admitted distance is
      stored as 0, the value that means "absent". */
  lemma AsWrittenCutoffLosesDistance255()
    ensures CheckCutoffAsWritten(255) == Ok(255)
    ensures Uint8(255 + 1) == 0
  {
  }

  /** `_DistanceCalculator.__init__`: refuse a cutoff that does not fit,
      otherwise keep the calculator with its cutoff unchanged. */
  function NewCalculator(c: Calculator): (r: Result<Calculator>)
    ensures r.Err? <==> c.cutoff > MaxCutoff
    ensures r.Err? ==> r.error == CutoffTooLarge
    ensures r.Ok? ==> r.value == c
  {
    match CheckCutoff(c.cutoff)
    case Err(e) => Err(e)
    case Ok(_) => Ok(c)
  }

  /** A calculator that its constructor accepted. */
  predicate Constructed(c: Calculator)
  {
    c.cutoff <= MaxCutoff
  }

  // ---------------------------------------------------------------------
  // Distances between pool entries

  /** Alignment score of every sequence with itself, computed once. */
  function SelfScores(seqs: seq<string>, p: AlignParams, score: Scorer): (r: seq<int>)
    ensures |r| == |seqs|
    ensures forall k :: 0 <= k < |seqs| ==> r[k] == score(p, seqs[k], seqs[k])
  {
    seq(|seqs|, k requires 0 <= k < |seqs| => score(p, seqs[k], seqs[k]))
  }

  /** The self scores a calculator needs (none but for alignment). */
  function SelfScoresFor(c: Calculator, seqs: seq<string>, score: Scorer): seq<int>
  {
    if c.AlignmentCalc? then SelfScores(seqs, c.params, score) else []
  }

  /** The distance a calculator assigns to pool entries i and j. */
  function PairDistance(c: Calculator, seqs: seq<string>, score: Scorer, i: nat, j: nat): int
    requires i < |seqs| && j < |seqs|
  {
    match c
    case IdentityCalc(_) => if seqs[i] == seqs[j] then 0 else 1
    case LevenshteinCalc(_) => Levenshtein.Distance(seqs[i], seqs[j])
    case AlignmentCalc(_, p) =>
      Min(score(p, seqs[i], seqs[i]), score(p, seqs[j], seqs[j])) - score(p, seqs[i], seqs[j])
  }

  /** The alignment distance is never negative (the uint8 storage would wrap a
      negative distance; the model assumes the aligner never produces one). */
  predicate AlignmentNonNegative(c: Calculator, seqs: seq<string>, score: Scorer)
  {
    c.AlignmentCalc? ==>
      forall i, j :: 0 <= i <= j < |seqs| ==> PairDistance(c, seqs, score, i, j) >= 0
  }

  lemma PairDistanceNonNegative(c: Calculator, seqs: seq<string>, score: Scorer, i: nat, j: nat)
    requires i <= j < |seqs| && AlignmentNonNegative(c, seqs, score)
    ensures PairDistance(c, seqs, score, i, j) >= 0
  {
  }

  // ---------------------------------------------------------------------
  // Rows

  /** The row generator: for the columns start, start + 1, ... with distances
      ds, yield (column, d + 1) for every d <= cutoff, in column order. */
  function RowCoords(start: nat, ds: seq<int>, cutoff: int): seq<(nat, int)>
    decreases |ds|
  {
    if ds == [] then []
    else
      var rest := RowCoords(start + 1, ds[1..], cutoff);
      if ds[0] <= cutoff then [(start, ds[0] + 1)] + rest else rest
  }

  /** Everything the generator yields is an in-cutoff column with value d + 1. */
  lemma {:induction false} RowCoordsSound(start: nat, ds: seq<int>, cutoff: int)
    ensures forall p :: p in RowCoords(start, ds, cutoff) ==>
      start <= p.0 < start + |ds| && ds[p.0 - start] <= cutoff && p.1 == ds[p.0 - start] + 1
    decreases |ds|
  {
    if ds != [] {
      RowCoordsSound(start + 1, ds[1..], cutoff);
      var rest := RowCoords(start + 1, ds[1..], cutoff);
      forall p | p in rest
        ensures start <= p.0 < start + |ds| && ds[p.0 - start] <= cutoff && p.1 == ds[p.0 - start] + 1
      {
        assert ds[p.0 - start] == ds[1..][p.0 - (start + 1)];
      }
    }
  }

  /** Every in-cutoff column is yielded. */
  lemma {:induction false} RowCoordsComplete(start: nat, ds: seq<int>, cutoff: int, k: nat)
    requires k < |ds| && ds[k] <= cutoff
    ensures (start + k, ds[k] + 1) in RowCoords(start, ds, cutoff)
    decreases |ds|
  {
    if k > 0 {
      assert ds[1..][k - 1] == ds[k];
      RowCoordsComplete(start + 1, ds[1..], cutoff, k - 1);
    }
  }

  /** The columns of a row (or of a generator's output) strictly increase. */
  predicate ColumnsIncrease<V>(r: seq<(nat, V)>)
  {
    forall a, b :: 0 <= a < b < |r| ==> r[a].0 < r[b].0
  }

  /** The yielded columns increase. */
  lemma {:induction false} RowCoordsIncreasing(start: nat, ds: seq<int>, cutoff: int)
    ensures ColumnsIncrease(RowCoords(start, ds, cutoff))
    decreases |ds|
  {
    if ds != [] {
      RowCoordsIncreasing(start + 1, ds[1..], cutoff);
      RowCoordsSound(start + 1, ds[1..], cutoff);
      var rest := RowCoords(start + 1, ds[1..], cutoff);
      if ds[0] <= cutoff {
        var r := [(start, ds[0] + 1)] + rest;
        forall a, b | 0 <= a < b < |r| ensures r[a].0 < r[b].0 {
          assert r[b] == rest[b - 1];
          if a > 0 {
            assert r[a] == rest[a - 1];
          } else {
            assert rest[b - 1] in rest;
          }
        }
      }
    }
  }

  /** Unpack the generator into a one-row uint8 matrix; an empty generator
      cannot be unpacked. */
  function StoreRow(coords: seq<(nat, int)>): (r: Result<seq<(nat, nat)>>)
    ensures r.Err? <==> coords == []
    ensures r.Err? ==> r.error == EmptyRow
    ensures r.Ok? ==> |r.value| == |coords|
    ensures r.Ok? ==> forall k :: 0 <= k < |coords| ==> r.value[k] == (coords[k].0, Uint8(coords[k].1))
  {
    if coords == [] then Err(EmptyRow)
    else Ok(seq(|coords|, k requires 0 <= k < |coords| => (coords[k].0, Uint8(coords[k].1))))
  }

  /** Levenshtein distances from entry i to the entries i, i + 1, ... */
  function LevenshteinDists(seqs: seq<string>, i: nat): (ds: seq<int>)
    requires i < |seqs|
    ensures |ds| == |seqs| - i
    ensures forall k :: 0 <= k < |ds| ==> ds[k] == Levenshtein.Distance(seqs[i], seqs[i + k])
  {
    seq(|seqs| - i, k requires 0 <= k < |seqs| - i => Levenshtein.Distance(seqs[i], seqs[i + k]))
  }

  /** `_LevenshteinDistanceCalculator._compute_row`. */
  function LevenshteinRow(seqs: seq<string>, cutoff: int, i: nat): Result<seq<(nat, nat)>>
    requires i < |seqs|
  {
    StoreRow(RowCoords(i, LevenshteinDists(seqs, i), cutoff))
  }

  /** Alignment distances min(S(i,i), S(j,j)) - S(i,j) from entry i to the
      entries j = i, i + 1, ... */
  function AlignDists(seqs: seq<string>, selfScores: seq<int>, p: AlignParams, score: Scorer, i: nat)
    : (ds: seq<int>)
    requires i < |seqs| && |selfScores| == |seqs|
    ensures |ds| == |seqs| - i
    ensures forall k :: 0 <= k < |ds| ==>
      ds[k] == Min(selfScores[i], selfScores[i + k]) - score(p, seqs[i], seqs[i + k])
  {
    seq(|seqs| - i, k requires 0 <= k < |seqs| - i =>
      Min(selfScores[i], selfScores[i + k]) - score(p, seqs[i], seqs[i + k]))
  }

  /** `_AlignmentDistanceCalculator._align_row`. */
  function AlignRow(seqs: seq<string>, selfScores: seq<int>, p: AlignParams, score: Scorer,
                    cutoff: int, i: nat): Result<seq<(nat, nat)>>
    requires i < |seqs| && |selfScores| == |seqs|
  {
    StoreRow(RowCoords(i, AlignDists(seqs, selfScores, p, score, i), cutoff))
  }

  /** The row function a non-identity calculator hands to the worker pool. */
  function ComputeRow(c: Calculator, seqs: seq<string>, selfScores: seq<int>, score: Scorer, i: nat)
    : (r: Result<seq<(nat, nat)>>)
    requires i < |seqs| && !c.IdentityCalc?
    requires c.AlignmentCalc? ==> |selfScores| == |seqs|
    ensures r.Err? ==> r.error == EmptyRow
  {
    match c
    case LevenshteinCalc(cutoff) => LevenshteinRow(seqs, cutoff, i)
    case AlignmentCalc(cutoff, p) => AlignRow(seqs, selfScores, p, score, cutoff, i)
  }

  /** The distances a row is computed from are the calculator's pair distances. */
  function RowDists(c: Calculator, seqs: seq<string>, score: Scorer, i: nat): (ds: seq<int>)
    requires i < |seqs| && !c.IdentityCalc?
    ensures |ds| == |seqs| - i
    ensures forall k :: 0 <= k < |ds| ==> ds[k] == PairDistance(c, seqs, score, i, i + k)
    ensures ComputeRow(c, seqs, SelfScoresFor(c, seqs, score), score, i) == StoreRow(RowCoords(i, ds, c.cutoff))
  {
    match c
    case LevenshteinCalc(_) => LevenshteinDists(seqs, i)
    case AlignmentCalc(_, p) => AlignDists(seqs, SelfScores(seqs, p, score), p, score, i)
  }

  /** A row is empty (and its generator cannot be unpacked) exactly when no
      column j >= i is within the cutoff. */
  lemma RowEmptyIff(c: Calculator, seqs: seq<string>, score: Scorer, i: nat)
    requires i < |seqs| && !c.IdentityCalc?
    ensures var row := ComputeRow(c, seqs, SelfScoresFor(c, seqs, score), score, i);
      && (row.Err? <==> forall j :: i <= j < |seqs| ==> PairDistance(c, seqs, score, i, j) > c.cutoff)
      && (row.Err? ==> row.error == EmptyRow)
  {
    var ds := RowDists(c, seqs, score, i);
    var coords := RowCoords(i, ds, c.cutoff);
    RowCoordsSound(i, ds, c.cutoff);
    if coords == [] {
      forall j | i <= j < |seqs| ensures PairDistance(c, seqs, score, i, j) > c.cutoff {
        if ds[j - i] <= c.cutoff {
          RowCoordsComplete(i, ds, c.cutoff, j - i);
        }
      }
    } else {
      assert coords[0] in coords;
    }
  }

  /** Every column j of `row` lies at or after i, is within the cutoff and
      stores uint8(d(i, j) + 1). */
  ghost predicate RowStoresSound(c: Calculator, seqs: seq<string>, score: Scorer, i: nat, row: seq<(nat, nat)>)
    requires !c.IdentityCalc?
  {
    forall q :: q in row ==>
      i <= q.0 < |seqs| && PairDistance(c, seqs, score, i, q.0) <= c.cutoff
      && q.1 == Uint8(PairDistance(c, seqs, score, i, q.0) + 1)
  }

  /** Every stored column j of row i is within the cutoff and stores
      uint8(d(i, j) + 1). */
  lemma RowSound(c: Calculator, seqs: seq<string>, score: Scorer, i: nat)
    requires i < |seqs| && !c.IdentityCalc?
    ensures var row := ComputeRow(c, seqs, SelfScoresFor(c, seqs, score), score, i);
      row.Ok? ==> RowStoresSound(c, seqs, score, i, row.value)
  {
    var ds := RowDists(c, seqs, score, i);
    StoredSound(i, ds, c.cutoff);
    var row := StoreRow(RowCoords(i, ds, c.cutoff));
    if row.Ok? {
      forall q | q in row.value
        ensures i <= q.0 < |seqs| && PairDistance(c, seqs, score, i, q.0) <= c.cutoff
        ensures q.1 == Uint8(PairDistance(c, seqs, score, i, q.0) + 1)
      {
        assert ds[q.0 - i] == PairDistance(c, seqs, score, i, q.0);
      }
    }
  }

  /** Every column of the unpacked row is a yielded in-cutoff column, its
      value d + 1 cast to uint8. */
  lemma StoredSound(start: nat, ds: seq<int>, cutoff: int)
    ensures var row := StoreRow(RowCoords(start, ds, cutoff));
      row.Ok? ==> forall q :: q in row.value ==>
        start <= q.0 < start + |ds| && ds[q.0 - start] <= cutoff && q.1 == Uint8(ds[q.0 - start] + 1)
  {
    var coords := RowCoords(start, ds, cutoff);
    RowCoordsSound(start, ds, cutoff);
    var row := StoreRow(coords);
    if row.Ok? {
      forall q | q in row.value
        ensures start <= q.0 < start + |ds| && ds[q.0 - start] <= cutoff && q.1 == Uint8(ds[q.0 - start] + 1)
      {
        var k :| 0 <= k < |row.value| && row.value[k] == q;
        assert coords[k] in coords;
      }
    }
  }

  /** Every column j >= i within the cutoff is stored in row i. */
  lemma RowComplete(c: Calculator, seqs: seq<string>, score: Scorer, i: nat, j: nat)
    requires i <= j < |seqs| && !c.IdentityCalc?
    requires PairDistance(c, seqs, score, i, j) <= c.cutoff
    ensures var row := ComputeRow(c, seqs, SelfScoresFor(c, seqs, score), score, i);
      row.Ok? && (j, Uint8(PairDistance(c, seqs, score, i, j) + 1)) in row.value
  {
    var ds := RowDists(c, seqs, score, i);
    assert ds[j - i] == PairDistance(c, seqs, score, i, j);
    StoredColumn(i, ds, c.cutoff, j);
  }

  /** An in-cutoff column j is yielded and reaches the unpacked row. */
  lemma StoredColumn(start: nat, ds: seq<int>, cutoff: int, j: nat)
    requires start <= j < start + |ds| && ds[j - start] <= cutoff
    ensures var row := StoreRow(RowCoords(start, ds, cutoff));
      row.Ok? && (j, Uint8(ds[j - start] + 1)) in row.value
  {
    RowCoordsComplete(start, ds, cutoff, j - start);
    StoredCoord(RowCoords(start, ds, cutoff), (j, ds[j - start] + 1));
  }

  /** Every yielded coordinate reaches the unpacked row, its value cast to uint8. */
  lemma StoredCoord(coords: seq<(nat, int)>, p: (nat, int))
    requires p in coords
    ensures StoreRow(coords).Ok? && (p.0, Uint8(p.1)) in StoreRow(coords).value
  {
    var m :| 0 <= m < |coords| && coords[m] == p;
    assert StoreRow(coords).value[m] == (p.0, Uint8(p.1));
  }

  /** The columns of a row increase. */
  lemma RowIncreasing(c: Calculator, seqs: seq<string>, score: Scorer, i: nat)
    requires i < |seqs| && !c.IdentityCalc?
    ensures var row := ComputeRow(c, seqs, SelfScoresFor(c, seqs, score), score, i);
      row.Ok? ==> ColumnsIncrease(row.value)
  {
    var ds := RowDists(c, seqs, score, i);
    var coords := RowCoords(i, ds, c.cutoff);
    RowCoordsIncreasing(i, ds, c.cutoff);
    var row := StoreRow(coords);
    if row.Ok? {
      forall a, b | 0 <= a < b < |row.value| ensures row.value[a].0 < row.value[b].0 {
        assert row.value[a].0 == coords[a].0 && row.value[b].0 == coords[b].0;
      }
    }
  }

  // ---------------------------------------------------------------------
  // Assembly

  /** A row's entries placed at row index i of the stacked matrix. */
  function Place(i: nat, row: seq<(nat, nat)>): (r: seq<Entry>)
    ensures |r| == |row|
    ensures forall k :: 0 <= k < |row| ==> r[k] == Entry(i, row[k].0, row[k].1)
  {
    seq(|row|, k requires 0 <= k < |row| => Entry(i, row[k].0, row[k].1))
  }

  /** Rows 0 .. k-1 stacked in row order (`scipy.sparse.vstack`). */
  function Stack(c: Calculator, seqs: seq<string>, selfScores: seq<int>, score: Scorer, k: nat)
    : (r: Result<seq<Entry>>)
    requires k <= |seqs| && !c.IdentityCalc?
    requires c.AlignmentCalc? ==> |selfScores| == |seqs|
    ensures r.Err? ==> r.error == EmptyRow
  {
    if k == 0 then Ok([])
    else
      match Stack(c, seqs, selfScores, score, k - 1)
      case Err(e) => Err(e)
      case Ok(es) =>
        match ComputeRow(c, seqs, selfScores, score, k - 1)
        case Err(e) => Err(e)
        case Ok(row) => Ok(es + Place(k - 1, row))
  }

  /** `eliminate_zeros`: drop the stored zeros, keeping the order. */
  function NonZero(es: seq<Entry>): (r: seq<Entry>)
    ensures forall e :: e in r <==> e in es && e.value != 0
  {
    if es == [] then []
    else
      var rest := NonZero(es[..|es| - 1]);
      var last := es[|es| - 1];
      assert forall e :: e in es <==> e in es[..|es| - 1] || e == last;
      if last.value != 0 then rest + [last] else rest
  }

  /** The offset identity matrix: (i, i) stores 1 for every i < n. */
  function IdentityMatrix(n: nat): (r: seq<Entry>)
    ensures |r| == n
    ensures forall e :: e in r ==> e.row == e.col < n && e.value == 1
    ensures forall i :: 0 <= i < n ==> Entry(i, i, 1) in r
  {
    var r := seq(n, i requires 0 <= i < n => Entry(i, i, 1));
    assert forall i :: 0 <= i < n ==> r[i] == Entry(i, i, 1);
    r
  }

  /** The matrix each calculator's `calc_dist_mat` returns. */
  function DistMat(c: Calculator, seqs: seq<string>, score: Scorer): (r: Result<seq<Entry>>)
    ensures r.Err? ==> !c.IdentityCalc? && (r.error == EmptyRow || r.error == NoRows)
    ensures r.Ok? ==> forall e :: e in r.value ==> e.value != 0
  {
    if c.IdentityCalc? then Ok(IdentityMatrix(|seqs|))
    else
      match Stack(c, seqs, SelfScoresFor(c, seqs, score), score, |seqs|)
      case Err(e) => Err(e)
      case Ok(es) => if |seqs| == 0 then Err(NoRows) else Ok(NonZero(es))
  }

  /** A failed row makes every taller stack fail. */
  lemma {:induction false} StackErrPersists(c: Calculator, seqs: seq<string>, selfScores: seq<int>,
                                           score: Scorer, k: nat, m: nat)
    requires k <= m <= |seqs| && !c.IdentityCalc?
    requires c.AlignmentCalc? ==> |selfScores| == |seqs|
    requires Stack(c, seqs, selfScores, score, k).Err?
    ensures Stack(c, seqs, selfScores, score, m) == Err(Stack(c, seqs, selfScores, score, k).error)
    decreases m
  {
    if m > k {
      StackErrPersists(c, seqs, selfScores, score, k, m - 1);
    }
  }

  /** `calc_dist_mat` of the Levenshtein and alignment calculators: compute the
      self scores once, run the row function over every row in order, stack
      the rows and drop stored zeros. */
  method CalcDistMat(c: Calculator, seqs: seq<string>, score: Scorer) returns (r: Result<seq<Entry>>)
    requires !c.IdentityCalc?
    ensures r == DistMat(c, seqs, score)
  {
    var selfScores := SelfScoresFor(c, seqs, score);
    var stacked: seq<Entry> := [];
    var i := 0;
    while i < |seqs|
      invariant 0 <= i <= |seqs|
      invariant Stack(c, seqs, selfScores, score, i) == Ok(stacked)
    {
      var row := ComputeRow(c, seqs, selfScores, score, i);
      if row.Err? {
        assert Stack(c, seqs, selfScores, score, i + 1) == Err(row.error);
        StackErrPersists(c, seqs, selfScores, score, i + 1, |seqs|);
        return Err(row.error);
      }
      assert Stack(c, seqs, selfScores, score, i + 1) == Ok(stacked + Place(i, row.value));
      stacked := stacked + Place(i, row.value);
      i := i + 1;
    }
    assert Stack(c, seqs, selfScores, score, |seqs|) == Ok(stacked);
    if |seqs| == 0 {
      return Err(NoRows);
    }
    r := Ok(NonZero(stacked));
  }

  // ---------------------------------------------------------------------
  // Properties of the assembled matrix

  /** Row-major order: by row, then by column, without repeats. */
  predicate Before(e1: Entry, e2: Entry)
  {
    e1.row < e2.row || (e1.row == e2.row && e1.col < e2.col)
  }

  predicate RowMajor(es: seq<Entry>)
  {
    forall a, b :: 0 <= a < b < |es| ==> Before(es[a], es[b])
  }

  /** Each entry i has distance 0 to itself under every calculator. */
  lemma DiagonalDistanceZero(c: Calculator, seqs: seq<string>, score: Scorer, i: nat)
    requires i < |seqs|
    ensures PairDistance(c, seqs, score, i, i) == 0
  {
    if c.LevenshteinCalc? {
      Levenshtein.SelfDistance(seqs[i]);
    }
  }

  /** Entries of rows below k that lie in the upper triangle, have distance
      within the cutoff and store uint8(d(i, j) + 1). */
  ghost predicate SoundBelow(c: Calculator, seqs: seq<string>, score: Scorer, k: nat, es: seq<Entry>)
  {
    forall e :: e in es ==>
      e.row < k && e.row <= e.col < |seqs| && PairDistance(c, seqs, score, e.row, e.col) <= c.cutoff
      && e.value == Uint8(PairDistance(c, seqs, score, e.row, e.col) + 1)
  }

  /** The stacked rows hold only in-cutoff pairs (i, j) with i <= j, each with
      value uint8(d(i, j) + 1). */
  lemma {:induction false} StackSound(c: Calculator, seqs: seq<string>, score: Scorer, k: nat)
    requires k <= |seqs| && !c.IdentityCalc?
    ensures var st := Stack(c, seqs, SelfScoresFor(c, seqs, score), score, k);
      st.Ok? ==> SoundBelow(c, seqs, score, k, st.value)
  {
    var selfScores := SelfScoresFor(c, seqs, score);
    if k > 0 && Stack(c, seqs, selfScores, score, k).Ok? {
      StackSound(c, seqs, score, k - 1);
      RowSound(c, seqs, score, k - 1);
      StackSoundStep(c, seqs, score, k, Stack(c, seqs, selfScores, score, k - 1).value,
        ComputeRow(c, seqs, selfScores, score, k - 1).value);
    }
  }

  /** One step of `StackSound`: row k - 1 appended to the sound rows below it. */
  lemma StackSoundStep(c: Calculator, seqs: seq<string>, score: Scorer, k: nat, es: seq<Entry>, row: seq<(nat, nat)>)
    requires 0 < k <= |seqs| && !c.IdentityCalc?
    requires Stack(c, seqs, SelfScoresFor(c, seqs, score), score, k - 1) == Ok(es)
    requires ComputeRow(c, seqs, SelfScoresFor(c, seqs, score), score, k - 1) == Ok(row)
    requires SoundBelow(c, seqs, score, k - 1, es) && RowStoresSound(c, seqs, score, k - 1, row)
    ensures Stack(c, seqs, SelfScoresFor(c, seqs, score), score, k) == Ok(es + Place(k - 1, row))
    ensures SoundBelow(c, seqs, score, k, es + Place(k - 1, row))
  {
    PlacedSound(c, seqs, score, k - 1, row);
    SoundAppend(c, seqs, score, k, es, Place(k - 1, row));
  }

  /** Sound entries of the rows before k - 1 followed by sound entries of row
      k - 1 are sound entries of the rows before k. */
  lemma SoundAppend(c: Calculator, seqs: seq<string>, score: Scorer, k: nat, es: seq<Entry>, placed: seq<Entry>)
    requires 0 < k
    requires SoundBelow(c, seqs, score, k - 1, es) && SoundBelow(c, seqs, score, k, placed)
    ensures SoundBelow(c, seqs, score, k, es + placed)
  {
    forall e | e in es + placed
      ensures e.row < k && e.row <= e.col < |seqs| && PairDistance(c, seqs, score, e.row, e.col) <= c.cutoff
      ensures e.value == Uint8(PairDistance(c, seqs, score, e.row, e.col) + 1)
    {
      if e !in es {
        assert e in placed;
      }
    }
  }

  /** A sound row placed at row i gives entries (i, j) that store the offset
      distance of an in-cutoff pair. */
  lemma PlacedSound(c: Calculator, seqs: seq<string>, score: Scorer, i: nat, row: seq<(nat, nat)>)
    requires i < |seqs| && !c.IdentityCalc?
    requires RowStoresSound(c, seqs, score, i, row)
    ensures SoundBelow(c, seqs, score, i + 1, Place(i, row))
  {
    var placed := Place(i, row);
    forall e | e in placed
      ensures e.row < i + 1 && e.row <= e.col < |seqs| && PairDistance(c, seqs, score, e.row, e.col) <= c.cutoff
      ensures e.value == Uint8(PairDistance(c, seqs, score, e.row, e.col) + 1)
    {
      var m :| 0 <= m < |placed| && placed[m] == e;
      assert row[m] in row;
    }
  }

  /** Every in-cutoff pair (i, j) with i < k and i <= j is stacked. */
  lemma {:induction false} StackComplete(c: Calculator, seqs: seq<string>, score: Scorer, k: nat, i: nat, j: nat)
    requires k <= |seqs| && !c.IdentityCalc?
    requires i < k && i <= j < |seqs| && PairDistance(c, seqs, score, i, j) <= c.cutoff
    requires Stack(c, seqs, SelfScoresFor(c, seqs, score), score, k).Ok?
    ensures Entry(i, j, Uint8(PairDistance(c, seqs, score, i, j) + 1))
              in Stack(c, seqs, SelfScoresFor(c, seqs, score), score, k).value
  {
    var selfScores := SelfScoresFor(c, seqs, score);
    var es := Stack(c, seqs, selfScores, score, k - 1).value;
    var row := ComputeRow(c, seqs, selfScores, score, k - 1).value;
    assert Stack(c, seqs, selfScores, score, k).value == es + Place(k - 1, row);
    if i < k - 1 {
      StackComplete(c, seqs, score, k - 1, i, j);
    } else {
      RowComplete(c, seqs, score, i, j);
      PlacedHas(i, row, (j, Uint8(PairDistance(c, seqs, score, i, j) + 1)));
    }
  }

  /** A column of a row is an entry of the placed row. */
  lemma PlacedHas(i: nat, row: seq<(nat, nat)>, q: (nat, nat))
    requires q in row
    ensures Entry(i, q.0, q.1) in Place(i, row)
  {
    var m :| 0 <= m < |row| && row[m] == q;
    assert Place(i, row)[m] == Entry(i, q.0, q.1);
  }

  /** The stacked entries are in row-major order. */
  lemma {:induction false} StackRowMajor(c: Calculator, seqs: seq<string>, score: Scorer, k: nat)
    requires k <= |seqs| && !c.IdentityCalc?
    ensures var st := Stack(c, seqs, SelfScoresFor(c, seqs, score), score, k);
      st.Ok? ==> RowMajor(st.value)
  {
    var selfScores := SelfScoresFor(c, seqs, score);
    if k > 0 && Stack(c, seqs, selfScores, score, k).Ok? {
      StackRowMajor(c, seqs, score, k - 1);
      StackSound(c, seqs, score, k - 1);
      RowIncreasing(c, seqs, score, k - 1);
      var es := Stack(c, seqs, selfScores, score, k - 1).value;
      var row := ComputeRow(c, seqs, selfScores, score, k - 1).value;
      assert RowMajor(Place(k - 1, row));
      RowMajorAppend(es, k - 1, row);
      assert Stack(c, seqs, selfScores, score, k).value == es + Place(k - 1, row);
    }
  }

  /** Appending a row i with increasing columns to entries of earlier rows
      keeps the row-major order. */
  lemma RowMajorAppend(es: seq<Entry>, i: nat, row: seq<(nat, nat)>)
    requires RowMajor(es) && RowMajor(Place(i, row))
    requires forall e :: e in es ==> e.row < i
    ensures RowMajor(es + Place(i, row))
  {
    var placed := Place(i, row);
    var all := es + placed;
    forall a, b | 0 <= a < b < |all| ensures Before(all[a], all[b]) {
      if b < |es| {
        assert all[a] == es[a] && all[b] == es[b];
      } else if a >= |es| {
        assert all[a] == placed[a - |es|] && all[b] == placed[b - |es|];
      } else {
        assert all[a] == es[a] && es[a] in es;
        assert all[b] == placed[b - |es|];
      }
    }
  }

  /** With a cutoff >= 0 every row keeps its diagonal, so no row fails. */
  lemma {:induction false} StackOk(c: Calculator, seqs: seq<string>, score: Scorer, k: nat)
    requires k <= |seqs| && !c.IdentityCalc? && c.cutoff >= 0
    ensures Stack(c, seqs, SelfScoresFor(c, seqs, score), score, k).Ok?
  {
    if k > 0 {
      StackOk(c, seqs, score, k - 1);
      DiagonalDistanceZero(c, seqs, score, k - 1);
      RowComplete(c, seqs, score, k - 1, k - 1);
    }
  }

  /** Dropping zeros changes nothing when no value is zero. */
  lemma {:induction false} NonZeroKeepsAll(es: seq<Entry>)
    requires forall e :: e in es ==> e.value != 0
    ensures NonZero(es) == es
  {
    if es != [] {
      NonZeroKeepsAll(es[..|es| - 1]);
      assert es[..|es| - 1] + [es[|es| - 1]] == es;
    }
  }

  /** Under an accepted, non-negative cutoff nothing is lost to the uint8
      storage, so the matrix is exactly the stacked rows. */
  lemma DistMatIsStack(c: Calculator, seqs: seq<string>, score: Scorer)
    requires !c.IdentityCalc? && Constructed(c) && c.cutoff >= 0 && |seqs| > 0
    requires AlignmentNonNegative(c, seqs, score)
    ensures Stack(c, seqs, SelfScoresFor(c, seqs, score), score, |seqs|).Ok?
    ensures DistMat(c, seqs, score) == Stack(c, seqs, SelfScoresFor(c, seqs, score), score, |seqs|)
  {
    var n := |seqs|;
    StackOk(c, seqs, score, n);
    StackSound(c, seqs, score, n);
    var es := Stack(c, seqs, SelfScoresFor(c, seqs, score), score, n).value;
    forall e | e in es
      ensures e.value != 0
    {
      assert e.row <= e.col < n;
      var d := PairDistance(c, seqs, score, e.row, e.col);
      assert 0 <= d <= c.cutoff;
      AcceptedCutoffIsLossless(c.cutoff, d);
    }
    NonZeroKeepsAll(es);
  }

  lemma EntryLossless(c: Calculator, seqs: seq<string>, score: Scorer, e: Entry)
    requires Constructed(c) && c.cutoff >= 0 && AlignmentNonNegative(c, seqs, score)
    requires e.row <= e.col < |seqs| && PairDistance(c, seqs, score, e.row, e.col) <= c.cutoff
    requires e.value == Uint8(PairDistance(c, seqs, score, e.row, e.col) + 1)
    ensures e.value == PairDistance(c, seqs, score, e.row, e.col) + 1
  {
    AcceptedCutoffIsLossless(c.cutoff, PairDistance(c, seqs, score, e.row, e.col));
  }

  /** The matrix of a constructed Levenshtein or alignment calculator with a
      non-negative cutoff, over a non-empty pool, is upper-triangular and
      square, and holds (i, j) only when d(i, j) <= cutoff, with the value
      d(i, j) + 1 in [1, cutoff + 1]. */
  lemma DistMatSound(c: Calculator, seqs: seq<string>, score: Scorer)
    requires !c.IdentityCalc? && Constructed(c) && c.cutoff >= 0 && |seqs| > 0
    requires AlignmentNonNegative(c, seqs, score)
    ensures DistMat(c, seqs, score).Ok?
    ensures forall e :: e in DistMat(c, seqs, score).value ==>
      && e.row <= e.col < |seqs|
      && PairDistance(c, seqs, score, e.row, e.col) <= c.cutoff
      && e.value == PairDistance(c, seqs, score, e.row, e.col) + 1
      && 1 <= e.value <= c.cutoff + 1
  {
    DistMatIsStack(c, seqs, score);
    StackSound(c, seqs, score, |seqs|);
    forall e | e in DistMat(c, seqs, score).value
      ensures e.value == PairDistance(c, seqs, score, e.row, e.col) + 1
    {
      EntryLossless(c, seqs, score, e);
    }
  }

  /** ... and it holds every pair (i, j), i <= j, within the cutoff. */
  lemma DistMatComplete(c: Calculator, seqs: seq<string>, score: Scorer, i: nat, j: nat)
    requires !c.IdentityCalc? && Constructed(c) && c.cutoff >= 0
    requires AlignmentNonNegative(c, seqs, score)
    requires i <= j < |seqs| && PairDistance(c, seqs, score, i, j) <= c.cutoff
    ensures DistMat(c, seqs, score).Ok?
    ensures Entry(i, j, PairDistance(c, seqs, score, i, j) + 1) in DistMat(c, seqs, score).value
  {
    DistMatIsStack(c, seqs, score);
    StackComplete(c, seqs, score, |seqs|, i, j);
    StoredEntryLossless(c, seqs, score, i, j, Stack(c, seqs, SelfScoresFor(c, seqs, score), score, |seqs|).value);
  }

  /** Under an accepted cutoff the stored offset of an in-cutoff pair is d + 1 itself. */
  lemma StoredEntryLossless(c: Calculator, seqs: seq<string>, score: Scorer, i: nat, j: nat, es: seq<Entry>)
    requires Constructed(c) && c.cutoff >= 0 && AlignmentNonNegative(c, seqs, score)
    requires i <= j < |seqs| && PairDistance(c, seqs, score, i, j) <= c.cutoff
    requires Entry(i, j, Uint8(PairDistance(c, seqs, score, i, j) + 1)) in es
    ensures Entry(i, j, PairDistance(c, seqs, score, i, j) + 1) in es
  {
    PairDistanceNonNegative(c, seqs, score, i, j);
    AcceptedCutoffIsLossless(c.cutoff, PairDistance(c, seqs, score, i, j));
  }

  /** ... and its entries come in row-major order, each coordinate once. */
  lemma DistMatRowMajor(c: Calculator, seqs: seq<string>, score: Scorer)
    requires !c.IdentityCalc? && Constructed(c) && c.cutoff >= 0 && |seqs| > 0
    requires AlignmentNonNegative(c, seqs, score)
    ensures DistMat(c, seqs, score).Ok?
    ensures RowMajor(DistMat(c, seqs, score).value)
  {
    DistMatIsStack(c, seqs, score);
    StackRowMajor(c, seqs, score, |seqs|);
  }

  /** When a Levenshtein or alignment calculator fails: on an empty pool (no
      rows to stack) or with a negative cutoff (row 0 yields nothing). */
  lemma DistMatFails(c: Calculator, seqs: seq<string>, score: Scorer)
    requires !c.IdentityCalc?
    requires AlignmentNonNegative(c, seqs, score)
    ensures DistMat(c, seqs, score).Err? <==> |seqs| == 0 || c.cutoff < 0
    ensures |seqs| == 0 ==> DistMat(c, seqs, score) == Err(NoRows)
    ensures |seqs| > 0 && c.cutoff < 0 ==> DistMat(c, seqs, score) == Err(EmptyRow)
  {
    var selfScores := SelfScoresFor(c, seqs, score);
    if c.cutoff >= 0 {
      StackOk(c, seqs, score, |seqs|);
    } else if |seqs| > 0 {
      RowEmptyIff(c, seqs, score, 0);
      assert Stack(c, seqs, selfScores, score, 1).Err?;
      StackErrPersists(c, seqs, selfScores, score, 1, |seqs|);
    }
  }

  // ---------------------------------------------------------------------
  // Cutoff 0

  lemma {:induction false} RowCoordsBeyond(start: nat, ds: seq<int>, cutoff: int)
    requires forall k :: 0 <= k < |ds| ==> ds[k] > cutoff
    ensures RowCoords(start, ds, cutoff) == []
    decreases |ds|
  {
    if ds != [] {
      RowCoordsBeyond(start + 1, ds[1..], cutoff);
    }
  }

  /** Over a pool of distinct sequences, a Levenshtein row at cutoff 0 holds
      only its diagonal. */
  lemma ZeroCutoffLevenshteinRow(seqs: seq<string>, i: nat)
    requires Distinct(seqs) && i < |seqs|
    ensures LevenshteinRow(seqs, 0, i) == Ok([(i, 1)])
  {
    var ds := LevenshteinDists(seqs, i);
    Levenshtein.SelfDistance(seqs[i]);
    forall k | 1 <= k < |ds| ensures ds[k] > 0 {
      if ds[k] == 0 {
        Levenshtein.ZeroMeansEqual(seqs[i], seqs[i + k]);
      }
    }
    RowCoordsBeyond(i + 1, ds[1..], 0);
    assert ds[0] == 0;
    assert RowCoords(i, ds, 0) == [(i, 1)];
    assert StoreRow([(i, 1)]).value == [(i, 1)];
  }

  lemma {:induction false} ZeroCutoffLevenshteinStack(seqs: seq<string>, score: Scorer, k: nat)
    requires Distinct(seqs) && k <= |seqs|
    ensures Stack(LevenshteinCalc(0), seqs, SelfScoresFor(LevenshteinCalc(0), seqs, score), score, k)
              == Ok(IdentityMatrix(k))
  {
    if k > 0 {
      ZeroCutoffLevenshteinStack(seqs, score, k - 1);
      ZeroCutoffLevenshteinRow(seqs, k - 1);
      assert IdentityMatrix(k - 1) + Place(k - 1, [(k - 1, 1)]) == IdentityMatrix(k);
    }
  }

  /** Over a non-empty pool of distinct sequences, the Levenshtein calculator
      at cutoff 0 yields the identity calculator's matrix; this is what makes
      `tcr_neighbors` free to replace any metric by "identity" at cutoff 0 for
      Levenshtein. */
  lemma ZeroCutoffLevenshteinIsIdentity(seqs: seq<string>, score: Scorer)
    requires Distinct(seqs) && |seqs| > 0
    ensures DistMat(LevenshteinCalc(0), seqs, score) == DistMat(IdentityCalc(0), seqs, score)
  {
    ZeroCutoffLevenshteinStack(seqs, score, |seqs|);
    NonZeroKeepsAll(IdentityMatrix(|seqs|));
  }

  // ---------------------------------------------------------------------
  // The cutoff 255 the constructor lets through

  /** A pool where Levenshtein distance 255 separates two sequences. */
  function LongPool(): seq<string>
  {
    ["B", "B" + seq(255, _ => 'A')]
  }

  /** The two rows of the long pool at cutoff 255: row 0 stores uint8(1) on
      the diagonal and uint8(256) = 0 for the pair; row 1 its diagonal. */
  lemma LongPoolRows(score: Scorer)
    ensures PairDistance(LevenshteinCalc(255), LongPool(), score, 0, 1) == 255
    ensures ComputeRow(LevenshteinCalc(255), LongPool(), SelfScoresFor(LevenshteinCalc(255), LongPool(), score), score, 0)
      == Ok([(0, 1), (1, 0)])
    ensures ComputeRow(LevenshteinCalc(255), LongPool(), SelfScoresFor(LevenshteinCalc(255), LongPool(), score), score, 1)
      == Ok([(1, 1)])
  {
    var pool := LongPool();
    var a := seq(255, _ => 'A');
    assert pool[1][1..] == a;
    assert Levenshtein.Distance(pool[0][1..], a) == 255;
    assert Levenshtein.Distance(pool[0], pool[1]) == 255;
    Levenshtein.SelfDistance(pool[0]);
    Levenshtein.SelfDistance(pool[1]);
    var ds0 := LevenshteinDists(pool, 0);
    assert ds0 == [0, 255];
    assert ds0[1..] == [255] && ds0[1..][1..] == [];
    assert RowCoords(1, [255], 255) == [(1, 256)];
    assert RowCoords(0, ds0, 255) == [(0, 1), (1, 256)];
    assert StoreRow([(0, 1), (1, 256)]).value == [(0, 1), (1, 0)];
    var ds1 := LevenshteinDists(pool, 1);
    assert ds1 == [0];
    assert ds1[1..] == [];
    assert RowCoords(1, ds1, 255) == [(1, 1)];
    assert StoreRow([(1, 1)]).value == [(1, 1)];
  }

  /** With the accepted cutoff 255, the pair at distance 255 is stored as
      uint8(256) = 0 and then dropped as a zero: the as-written matrix holds
      only the diagonal, although the distance is within the cutoff. */
  lemma AsWrittenCutoff255DropsPair(score: Scorer)
    ensures CheckCutoffAsWritten(255) == Ok(255)
    ensures PairDistance(LevenshteinCalc(255), LongPool(), score, 0, 1) == 255
    ensures DistMat(LevenshteinCalc(255), LongPool(), score) == Ok([Entry(0, 0, 1), Entry(1, 1, 1)])
  {
    LongPoolRows(score);
    LongPoolStack(score);
    DropsStoredZero();
  }

  /** The two rows stacked: the pair's entry holds the stored zero. */
  lemma LongPoolStack(score: Scorer)
    requires ComputeRow(LevenshteinCalc(255), LongPool(), SelfScoresFor(LevenshteinCalc(255), LongPool(), score), score, 0)
      == Ok([(0, 1), (1, 0)])
    requires ComputeRow(LevenshteinCalc(255), LongPool(), SelfScoresFor(LevenshteinCalc(255), LongPool(), score), score, 1)
      == Ok([(1, 1)])
    ensures Stack(LevenshteinCalc(255), LongPool(), SelfScoresFor(LevenshteinCalc(255), LongPool(), score), score, 2)
      == Ok([Entry(0, 0, 1), Entry(0, 1, 0), Entry(1, 1, 1)])
  {
    var c := LevenshteinCalc(255);
    var pool := LongPool();
    var ss := SelfScoresFor(c, pool, score);
    assert Stack(c, pool, ss, score, 0) == Ok([]);
    assert [] + Place(0, [(0, 1), (1, 0)]) == [Entry(0, 0, 1), Entry(0, 1, 0)];
    assert Stack(c, pool, ss, score, 1) == Ok([Entry(0, 0, 1), Entry(0, 1, 0)]);
    assert [Entry(0, 0, 1), Entry(0, 1, 0)] + Place(1, [(1, 1)]) == [Entry(0, 0, 1), Entry(0, 1, 0), Entry(1, 1, 1)];
  }

  /** `eliminate_zeros` removes the stored zero of the pair. */
  lemma DropsStoredZero()
    ensures NonZero([Entry(0, 0, 1), Entry(0, 1, 0), Entry(1, 1, 1)]) == [Entry(0, 0, 1), Entry(1, 1, 1)]
  {
    var stacked := [Entry(0, 0, 1), Entry(0, 1, 0), Entry(1, 1, 1)];
    assert stacked[..2] == [Entry(0, 0, 1), Entry(0, 1, 0)];
    assert stacked[..1] == [Entry(0, 0, 1)];
    assert stacked[..1][..0] == [];
    assert NonZero(stacked[..1]) == [Entry(0, 0, 1)];
    assert NonZero(stacked[..2]) == [Entry(0, 0, 1)];
  }

  // ---------------------------------------------------------------------
  // tcr_dist

  /** The `metric` argument: a metric name or a calculator already built. */
  datatype MetricArg = Named(name: string) | Instance(calculator: Calculator)

  /** The metric names `tcr_dist` knows. */
  predicate KnownMetric(name: string)
  {
    name == "alignment" || name == "identity" || name == "levenshtein"
  }

  /** The dispatch in `tcr_dist`: use a calculator as given, build one for a
      known name (alignment with its default parameters), refuse other names. */
  function SelectCalculator(metric: MetricArg, cutoff: int): (r: Result<Calculator>)
    ensures metric.Instance? ==> r == Ok(metric.calculator)
    ensures metric.Named? && !KnownMetric(metric.name) ==> r == Err(InvalidMetric)
    ensures metric.Named? && KnownMetric(metric.name) ==>
      (r.Err? <==> cutoff > MaxCutoff) && (r.Err? ==> r.error == CutoffTooLarge)
    ensures metric.Named? && r.Ok? ==>
      && r.value.cutoff == cutoff
      && (r.value.IdentityCalc? <==> metric.name == "identity")
      && (r.value.LevenshteinCalc? <==> metric.name == "levenshtein")
      && (r.value.AlignmentCalc? <==> metric.name == "alignment")
      && (r.value.AlignmentCalc? ==> r.value.params == DefaultAlignParams)
  {
    match metric
    case Instance(c) => Ok(c)
    case Named(name) =>
      if name == "alignment" then NewCalculator(AlignmentCalc(cutoff, DefaultAlignParams))
      else if name == "identity" then NewCalculator(IdentityCalc(cutoff))
      else if name == "levenshtein" then NewCalculator(LevenshteinCalc(cutoff))
      else Err(InvalidMetric)
  }

  /** `tcr_dist`: the sequence x sequence matrix of the selected calculator. */
  function TcrDist(seqs: seq<string>, metric: MetricArg, cutoff: int, score: Scorer): (r: Result<seq<Entry>>)
    ensures r.Err? ==> r.error in {InvalidMetric, CutoffTooLarge, EmptyRow, NoRows}
    ensures r.Ok? ==> forall e :: e in r.value ==> e.value != 0
  {
    match SelectCalculator(metric, cutoff)
    case Err(e) => Err(e)
    case Ok(c) => DistMat(c, seqs, score)
  }

  /** `tcr_dist` fails exactly for an unknown metric name, a cutoff the
      constructor refuses, or, for Levenshtein and alignment, an empty pool or
      a negative cutoff; the identity metric returns the identity matrix. */
  lemma TcrDistOutcome(seqs: seq<string>, metric: MetricArg, cutoff: int, score: Scorer)
    requires metric.Named?
    requires KnownMetric(metric.name) && cutoff <= MaxCutoff ==>
      AlignmentNonNegative(SelectCalculator(metric, cutoff).value, seqs, score)
    ensures TcrDist(seqs, metric, cutoff, score).Err? <==>
      || !KnownMetric(metric.name)
      || cutoff > MaxCutoff
      || (metric.name != "identity" && (|seqs| == 0 || cutoff < 0))
    ensures metric.name == "identity" && cutoff <= MaxCutoff ==>
      TcrDist(seqs, metric, cutoff, score) == Ok(IdentityMatrix(|seqs|))
  {
    var sel := SelectCalculator(metric, cutoff);
    if sel.Ok? && !sel.value.IdentityCalc? {
      DistMatFails(sel.value, seqs, score);
    }
  }

  /** Every entry `tcr_dist` returns for a metric name lies in the upper
      triangle of the pool and stores an offset distance of at least 1: exactly
      1 for the identity metric, at most cutoff + 1 for the others. */
  lemma TcrDistEntries(seqs: seq<string>, metric: MetricArg, cutoff: int, score: Scorer)
    requires metric.Named?
    requires KnownMetric(metric.name) && cutoff <= MaxCutoff ==>
      AlignmentNonNegative(SelectCalculator(metric, cutoff).value, seqs, score)
    requires TcrDist(seqs, metric, cutoff, score).Ok?
    ensures forall e :: e in TcrDist(seqs, metric, cutoff, score).value ==>
      && e.row <= e.col < |seqs|
      && 1 <= e.value
      && (metric.name == "identity" ==> e.value == 1)
      && (metric.name != "identity" ==> e.value <= cutoff + 1)
  {
    TcrDistOutcome(seqs, metric, cutoff, score);
    var c := SelectCalculator(metric, cutoff).value;
    if !c.IdentityCalc? {
      DistMatSound(c, seqs, score);
    }
  }

  /** `tcr_dist` run: dispatch, then the calculator's `calc_dist_mat`. */
  method ComputeTcrDist(seqs: seq<string>, metric: MetricArg, cutoff: int, score: Scorer)
    returns (r: Result<seq<Entry>>)
    ensures r == TcrDist(seqs, metric, cutoff, score)
  {
    var sel := SelectCalculator(metric, cutoff);
    if sel.Err? {
      return Err(sel.error);
    }
    if sel.value.IdentityCalc? {
      return Ok(IdentityMatrix(|seqs|));
    }
    r := CalcDistMat(sel.value, seqs, score);
  }
}
