/** Failure-compatible results shared by the codec and the decoders built on it. */
module Wrappers {

  datatype Option<+T> = None | Some(value: T)

  /** The error conditions the decoders tell apart (crates/sidevers-core/src/error.rs);
      message text is not modelled. */
  datatype Error =
    | CborDecode
    | CborNotCanonical
    | BadFieldLength
    | UnsupportedVersion
    | BadPublicKey
    | BadSignature

  datatype Result<+T> = Ok(value: T) | Err(error: Error) {
    predicate IsFailure() {
      Err?
    }

    function PropagateFailure<U>(): Result<U>
      requires Err?
    {
      Err(error)
    }

    function Extract(): T
      requires Ok?
    {
      value
    }
  }
}
