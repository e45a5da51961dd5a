/** Option and Result, the two failure-carrying types the model returns where the
    source returns `Option<T>` or panics through `expect`/`unwrap`. */
module Wrappers {

  datatype Option<+T> = None | Some(value: T)

  datatype Result<+T, +E> = Ok(value: T) | Err(error: E)
}
