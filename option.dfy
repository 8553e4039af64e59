/** An optional value: JavaScript's null, undefined and NaN results. */
module Options {
  datatype Option<T> = None | Some(value: T)
}
