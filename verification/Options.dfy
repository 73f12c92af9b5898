/** Optional values: Python's `None`, and calls that raise instead of returning. */
module Options {
  datatype Option<+T> = None | Some(value: T)

  /** Order of optional indexes, a missing index (`float("inf")`) last. */
  predicate IndexLe(a: Option<int>, b: Option<int>) {
    b.None? || (a.Some? && a.value <= b.value)
  }
}
