/** Option and Result, the failure-carrying values every operation of the
    model returns instead of Go's (value, error) pairs. */
module Wrappers {

  datatype Option<+T> = None | Some(value: T)

  datatype Result<+R, +E> = Success(value: R) | Failure(error: E)

  /** An octet: Go strings and byte slices are sequences of these. */
  type byte = x: int | 0 <= x < 256

  type Bytes = seq<byte>
}
