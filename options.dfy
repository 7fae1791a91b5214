/** A value that may be absent: JavaScript's `undefined`/`null` for a field or a lookup. */
module Options {
  datatype Option<T> = None | Some(value: T)
}
