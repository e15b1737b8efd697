/** The two failure-carrying datatypes the model uses for nullable columns and thrown errors. */
module Wrappers {
  datatype Option<+T> = None | Some(value: T) {
    function UnwrapOr(fallback: T): T {
      if Some? then value else fallback
    }
  }

  datatype Result<+T, +E> = Ok(value: T) | Err(error: E)
}
