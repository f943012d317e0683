/** Optional values, and results with the error cases the verifier reports. */
module Wrappers {

  datatype Option<+T> = None | Some(value: T)

  datatype Result<+T, +E> = Ok(value: T) | Err(error: E)
  {
    predicate IsFailure() {
      Err?
    }

    function PropagateFailure<U>(): Result<U, E>
      requires Err?
    {
      Err(error)
    }

    function Extract(): T
      requires Ok?
    {
      value
    }
  }

  /** The error cases of the verifier crate that parsing and evaluation can return. */
  datatype Error =
    | PublicInputOutOfRange
    | InvalidProofEncoding
    | InvalidVkEncoding
    | InvalidGateBytecode
    | Protocol
}
