/** The parser's error type and results carrying it. */
module Errors {

  datatype Error =
    | StreamReadFailed(source: string)
    | InvalidBoundary
    | InvalidFormat
    | IncompleteStream
    | HeaderSizeExceeded(limit: nat)
    | StreamPartNotLast
    | StreamAlreadyTaken
    | IncompleteStreamPart

  datatype Result<+T> = Ok(value: T) | Err(error: Error)

  /** `Poll<Result<T, Error>>`. */
  datatype Poll<+T> = Pending | Ready(result: Result<T>) {
    predicate Done() {
      Ready? && result.Ok?
    }

    predicate Failed() {
      Ready? && result.Err?
    }
  }
}
