/** Values that may be absent: Rust's `Option`, Go's nil pointers and missing rows. */
module Options {

  datatype Option<T> = None | Some(value: T)
}
