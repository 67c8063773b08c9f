/** The optional value that the Rust code returns as `Option<T>`. */
module Options {

  datatype Option<T> = None | Some(value: T)
}
