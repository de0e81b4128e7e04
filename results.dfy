/** Failure-carrying return values: Python's `None` results and raised
    exceptions are modelled as values of these types. */
module Results {

  datatype Option<+T> = None | Some(value: T)

  /** `Success` is a normal return; `Failure` is an exception raised by the
      modelled code, carrying enough of the exception to tell it apart. */
  datatype Result<+R, +E> = Success(value: R) | Failure(error: E)
}
