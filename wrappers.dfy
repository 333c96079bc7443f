/** The optional value used for `Option<T>` in the Rust code and for
    "raises an exception" in the Python prototypes. */
module Wrappers {
  datatype Option<+T> = None | Some(value: T)
}
