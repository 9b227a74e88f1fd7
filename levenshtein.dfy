/** The edit distance the Levenshtein calculator delegates to. The Python code
    calls a C extension; here it is the standard recursive definition, with the
    properties the calculator relies on proved about it. */
module Levenshtein {

  function Min3(a: nat, b: nat, c: nat): nat
  {
    if a <= b && a <= c then a else if b <= c then b else c
  }

  /** Minimum number of single-character insertions, deletions and
      substitutions turning `a` into `b`. */
  function Distance(a: string, b: string): nat
    decreases |a| + |b|
  {
    if |a| == 0 then |b|
    else if |b| == 0 then |a|
    else if a[0] == b[0] then Distance(a[1..], b[1..])
    else 1 + Min3(Distance(a[1..], b), Distance(a, b[1..]), Distance(a[1..], b[1..]))
  }

  /** A sequence is at distance 0 from itself, so every row of the
      triangular matrix keeps its diagonal entry whenever cutoff >= 0. */
  lemma {:induction false} SelfDistance(s: string)
    ensures Distance(s, s) == 0
  {
    if |s| > 0 {
      SelfDistance(s[1..]);
    }
  }

  /** Distance 0 holds only between equal sequences. */
  lemma {:induction false} ZeroMeansEqual(a: string, b: string)
    requires Distance(a, b) == 0
    ensures a == b
    decreases |a| + |b|
  {
    if |a| > 0 && |b| > 0 {
      ZeroMeansEqual(a[1..], b[1..]);
      assert a == [a[0]] + a[1..] && b == [b[0]] + b[1..];
    }
  }

  /** The distance does not depend on argument order, which is why only the
      pairs i <= j are computed. */
  lemma {:induction false} Symmetric(a: string, b: string)
    ensures Distance(a, b) == Distance(b, a)
    decreases |a| + |b|
  {
    if |a| > 0 && |b| > 0 {
      Symmetric(a[1..], b[1..]);
      if a[0] != b[0] {
        Symmetric(a[1..], b);
        Symmetric(a, b[1..]);
      }
    }
  }
}
