/** Failure-carrying result types: Go's `(value, error)` returns become a
    `Result`, an `error` that is either nil or set becomes an `Outcome`,
    and a `*BerTLV` that may be nil becomes an `Option`. */
module Wrappers {

  datatype Option<+T> = None | Some(value: T)

  datatype Result<+R, +E> = Ok(value: R) | Err(error: E)

  datatype Outcome<+E> = Pass | Fail(error: E)
}
