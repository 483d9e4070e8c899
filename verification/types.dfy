/** Small value types shared by the driver-wrapper model. */
module Types {

  /** A value that may be absent. */
  datatype Option<+T> = None | Some(value: T)

  /** What a Go `error` return carries: `nil` (Success) or a non-nil error
      value, which the wrapper never inspects and passes on as it is. */
  datatype Outcome<+E> = Success | Failure(err: E)
}
