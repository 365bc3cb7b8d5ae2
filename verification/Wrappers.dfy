/** Failure-carrying return values, as the pallet's dispatchables and the
    storage getters use them. */
module Wrappers {

  /** An optional value: `Option<T>` in Rust, what a map lookup or a
      decoder yields. */
  datatype Option<+T> = None | Some(value: T)

  /** A success value or an error: `Result<T, E>` in Rust; a dispatchable's
      `DispatchResult` is `Result<(), Error>`. */
  datatype Result<+T, +E> = Success(value: T) | Failure(error: E)
}
