/** Small result types and sequence predicates shared by every part of the
    build model. */
module Outcomes {

  /** A value that may be absent: a missing array key, an unset configuration value. */
  datatype Option<+T> = None | Some(value: T)

  /** How one stage (or the whole build) ends, in PHP terms:
      - Completed: the method returned normally;
      - Threw: an exception left the method, carrying its message;
      - Exited: the script called `exit` with the given code. */
  datatype Outcome = Completed | Threw(message: string) | Exited(code: int)

  /** No element occurs twice. */
  predicate Distinct<T(==)>(s: seq<T>)
  {
    forall i, j :: 0 <= i < j < |s| ==> s[i] != s[j]
  }
}
