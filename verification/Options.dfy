/** A value that may be missing: the answer of a walk, a refused step, a pool that has run out. */
module Options {
  datatype Option<T> = None | Some(value: T)
}
