/** Option and Result for lookups that may miss and operations that may fail,
    and Exit for a Go call that either returns or panics. */
module Wrappers {

  datatype Option<+T> = None | Some(value: T)

  datatype Result<+R, +E> = Success(value: R) | Failure(error: E)

  /** How a Go function call ends: it returns a value, or it panics with a
      message (nothing in the program recovers, so a panic ends the run). */
  datatype Exit<+T> = Return(value: T) | Panic(reason: string)
}
