/** Shared result types: Java's null becomes `None`, its exceptions become `Err`. */
module Wrappers {

  /** A value that may be absent (a Java reference that may be null, or an empty `Optional`). */
  datatype Option<+T> = None | Some(value: T)

  /** The two exception kinds the stores and services raise. */
  datatype Error =
    | InvalidArgument  // IllegalArgumentException
    | DataAccess       // EccezioneAccessoDati

  /** The outcome of an operation that returns a value or throws. */
  datatype Result<+T> = Ok(value: T) | Err(error: Error)

  /** The outcome of a store operation together with the store's state afterwards. */
  datatype Step<+R, +S> = Step(result: R, state: S)
}
