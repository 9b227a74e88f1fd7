/** Shared vocabulary of the model: results with the errors the code raises,
    receptor arms, sparse-matrix entries, and small map helpers. */
module Common {

  datatype Option<T> = None | Some(value: T)

  /** What the Python code raises, one constructor per raise site. */
  datatype Error =
    | CutoffTooLarge          // ValueError, cutoff does not fit the uint8 storage
    | InvalidMetric           // ValueError, unknown metric name
    | IdentityNeedsZeroCutoff // ValueError, identity metric with cutoff != 0
    | NucleotideAlignment     // ValueError, alignment metric on nucleotide sequences
    | EmptyRow                // ValueError, unpacking a row generator that yielded nothing
    | NoRows                  // ValueError, stacking zero rows
    | UnknownSequence         // KeyError, a cell sequence missing from the pool
    | DuplicateChainPair      // AssertionError, both orientations of a chain pair already stored
    | InconsistentChains      // AssertionError (or KeyError) in the "all" dual-chain reduction
    | EmptyResult             // ValueError, unpacking an empty cell-pair dictionary

  datatype Result<T> = Ok(value: T) | Err(error: Error)

  /** The two receptor arms, "TRA" and "TRB". */
  datatype Arm = TRA | TRB

  /** One stored entry of a sparse matrix in coordinate (COO) form. */
  datatype Entry = Entry(row: nat, col: nat, value: nat)

  function Min(a: int, b: int): int { if a <= b then a else b }

  /** NumPy 1.x's uint8: building a uint8 array from Python integers, or
      adding two `np.uint8` scalars, keeps the result modulo 256. */
  function Uint8(x: int): nat
  {
    x % 256
  }

  /** A map with one key has exactly that key. */
  lemma SingleKey<K, V>(t: map<K, V>, k: K)
    requires |t| == 1 && k in t
    ensures t.Keys == {k}
  {
    var rest := t.Keys - {k};
    assert |rest| == 0;
  }

  lemma SomeKey<K, V>(t: map<K, V>) returns (k: K)
    requires |t| > 0
    ensures k in t
  {
    assert |t.Keys| > 0;
    k :| k in t.Keys;
  }

  /** The least element of a finite non-empty set (a specification device). */
  ghost function LeastOf(s: set<nat>): (m: nat)
    requires s != {}
    ensures m in s && forall y :: y in s ==> m <= y
  {
    var x :| x in s;
    if s == {x} then x
    else
      var r := LeastOf(s - {x});
      assert forall y :: y in s ==> y == x || y in s - {x};
      if x < r then x else r
  }

  /** Python's `min` over a non-empty collection of values. */
  function SetMin(s: set<nat>): (m: nat)
    requires s != {}
    ensures m in s && forall y :: y in s ==> m <= y
  {
    var w := LeastOf(s);
    var m :| m in s && forall y :: y in s ==> m <= y; m
  }

  /** No value occurs twice, as in a pool of unique sequences. */
  predicate Distinct<T(==)>(s: seq<T>)
  {
    forall a, b :: 0 <= a < b < |s| ==> s[a] != s[b]
  }
}
