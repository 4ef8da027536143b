/** The optional value the Rust code returns as `Option<T>`. */
module Wrappers {

  datatype Option<T> = None | Some(value: T)
}
