/** Optional values and results with an error, the shapes the program's
    `Option` and `anyhow::Result` return values take in this model. */
module Wrappers {

  datatype Option<+T> = None | Some(value: T)

  datatype Result<+T, +E> = Ok(value: T) | Err(error: E)
}
