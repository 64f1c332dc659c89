/** Optional values, standing for nullable columns and `None` results. */
module Options {
  datatype Option<+T> = None | Some(value: T)

  /** The optional time `o` has been reached at `now`; an empty column never blocks. */
  predicate ReachedOrEmpty(o: Option<int>, now: int) {
    o.None? || o.value <= now
  }
}
