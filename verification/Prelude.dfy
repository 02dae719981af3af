/** Shared vocabulary of the model: optional values, fallible results and the clock. */
module Prelude {

  datatype Option<+T> = None | Some(value: T)

  datatype Result<+T, +E> = Ok(value: T) | Err(error: E)

  type Byte = x: int | 0 <= x < 256

  /** A point in time, counted in nanoseconds from Go's zero time, or a duration. */
  type Time = int

  /** Go's `time.Time.IsZero`. */
  predicate IsZero(t: Time) {
    t == 0
  }

  /** What the database reports for a query that may find no row or fail. */
  datatype Lookup<+T> = Found(value: T) | Missing | Failed

  /**
   A database call had exactly this effect and answer, or it failed: before taking effect, or after, when only the
   answer was lost.
   */
  predicate Answered<S(==), T(==), E(==)>(before: S, spec: (S, Result<T, E>), after: S, r: Result<T, E>,
                                          unavailable: E) {
    (after == spec.0 && r == spec.1) || (r == Err(unavailable) && (after == before || after == spec.0))
  }

  predicate NoDuplicates<T(==)>(s: seq<T>) {
    forall i, j :: 0 <= i < j < |s| ==> s[i] != s[j]
  }

  /** A duplicate-free sequence has as many elements as positions. */
  lemma {:induction false} NoDuplicatesCardinality<T>(s: seq<T>)
    requires NoDuplicates(s)
    ensures |set x | x in s| == |s|
  {
    if s == [] {
      assert (set x | x in s) == {};
    } else {
      var n := |s| - 1;
      NoDuplicatesCardinality(s[..n]);
      assert s == s[..n] + [s[n]];
      assert (set x | x in s) == (set x | x in s[..n]) + {s[n]};
    }
  }
}
