/** Concatenation of a sequence of sequences, last part outermost. */
module Sequences {
  ghost function Concat<T>(parts: seq<seq<T>>): seq<T> {
    if parts == [] then [] else Concat(parts[..|parts| - 1]) + parts[|parts| - 1]
  }

  lemma ConcatStep<T>(parts: seq<seq<T>>, last: seq<T>)
    ensures Concat(parts + [last]) == Concat(parts) + last
  {
    assert (parts + [last])[..|parts|] == parts;
  }
}
