/** Datatypes shared by all modules. */
module Prelude {
  datatype Option<+T> = None | Some(value: T)

  /** The outcome of an operation that the program may refuse with an error. */
  datatype Result<+T> = Ok(value: T) | Refused(message: string)

  /** Points in time are counted in microseconds, the resolution of the
      database; the two infinities are values beyond all others in use. */
  type Time = int

  function Elements<T(==)>(s: seq<T>): set<T> { set x | x in s }

  lemma ElementsMore<T>(s: seq<T>, i: nat)
    requires i < |s|
    ensures Elements(s[..i + 1]) == Elements(s[..i]) + {s[i]}
  {
    assert s[..i + 1] == s[..i] + [s[i]];
  }

  predicate Distinct<T(==)>(s: seq<T>) { forall i, j :: 0 <= i < j < |s| ==> s[i] != s[j] }

  predicate Increasing(s: seq<int>) { forall i, j :: 0 <= i < j < |s| ==> s[i] < s[j] }

  function Min(a: int, b: int): int { if a <= b then a else b }

  function Max(a: int, b: int): int { if a <= b then b else a }
}
