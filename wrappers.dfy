/** Option and Result datatypes shared by the other modules. */
module Wrappers {

  /** An optional value; used for the +infinity entries of the distance ledger
      and for the "not yet chosen" candidate. */
  datatype Option<+T> = None | Some(value: T)

  /** A value or the error that the script raises instead of producing it. */
  datatype Result<+R, +E> = Success(value: R) | Failure(error: E)
}
