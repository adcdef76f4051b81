/**
 * Pairwise distinctness of the keys of a list. The report store, the
 * checklist, the bottom bar and the report-type buttons all rely on their
 * entries carrying distinct string ids.
 */
module Keys {
  /** No two positions of `xs` carry the same key. */
  predicate Distinct<T>(xs: seq<T>, key: T -> string) {
    forall i, j :: 0 <= i < |xs| && 0 <= j < |xs| && i != j ==> key(xs[i]) != key(xs[j])
  }
}
