/** Error values and result wrappers shared by the topology generator and the simulator. */
module Errors {

  /** The two ValueErrors the core raises. */
  datatype Error =
    | InvalidInitialValue                          // generate: `initial` is neither a number nor a list of length N
    | TooManyIterations(requested: nat, cap: nat)  // run: the requested step count exceeds the cap K

  /** A value, or the error that replaced it. */
  datatype Result<T> = Ok(value: T) | Err(error: Error)

  /** A check that either passes or fails with an error. */
  datatype Outcome = Pass | Fail(error: Error)
}
