/** Outcomes shared by every module: an optional value, and a result that is either a value or
  * the Python exception the source raises at that point. */
module Wrappers {
  datatype Option<T> = None | Some(value: T)

  /** The exception classes the modelled code raises. */
  datatype Error =
    | IndexError
    | KeyError
    | ValueError
    | TypeError
    | AssertionError
    | RuntimeError
    | NameError
    | UnboundLocalError

  datatype Result<T> = Ok(value: T) | Err(error: Error)

  /** Qubits and qutrits (cirq's line and named qubits) are identified by number. */
  type Qubit = nat
}
