/** An optional value: what Rust's `Iterator::position` returns. */
module Options {

  datatype Option<T> = None | Some(value: T)
}
