/** Failure-carrying datatypes, and what other modules share about sequences. */
module Wrappers {
  datatype Option<+T> = None | Some(value: T)

  datatype Result<+T, +E> = Ok(value: T) | Err(error: E)

  predicate Distinct<T(==)>(s: seq<T>) {
    forall i, j :: 0 <= i < j < |s| ==> s[i] != s[j]
  }

  /** The sequence with one more element, if there is one. */
  function Add<T>(xs: seq<T>, x: Option<T>): seq<T> {
    if x.None? then xs else xs + [x.value]
  }

  lemma AddFirst<T>(before: seq<T>, x: Option<T>, more: seq<T>)
    ensures before + (Add([], x) + more) == Add(before, x) + more
  {
    if x.Some? {
      assert before + ([x.value] + more) == before + [x.value] + more;
    } else {
      assert [] + more == more;
    }
  }
}
