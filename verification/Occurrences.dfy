/** Occurrences of one sequence in another. */
module Occurrences {
  predicate Occurs<T(==)>(s: seq<T>, part: seq<T>, i: int) {
    0 <= i <= |s| - |part| && s[i..i + |part|] == part
  }
}
