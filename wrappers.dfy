/** Nullable references and thrown exceptions of the modelled C# code. */
module Wrappers {
  /** A C# reference that may be null. */
  datatype Option<T> = None | Some(value: T)

  /** The exceptions the modelled code throws (or lets the runtime throw). */
  datatype Failure =
    | NotImplemented        // NotImplementedException from an unsupported signature element
    | ArgumentOutOfRange    // ArgumentOutOfRangeException, e.g. Substring(0, -1)
    | ArgumentNull          // ArgumentNullException from a dictionary lookup with a null key
    | NullReference         // NullReferenceException from dereferencing a null member

  /** The outcome of a call that either returns a value or throws. */
  datatype Result<T> = Ok(value: T) | Err(error: Failure)
}
