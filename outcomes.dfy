/** The exceptions the channel and the stream raise, as values. */
module Outcomes {

  datatype Error =
    | NullPointer        // `NullPointerException`: no destination array
    | IndexOutOfBounds   // `IndexOutOfBoundsException`: offset or length outside the array
    | ClosedChannel      // `ClosedChannelException`: read after close

  /** A call either returns a value or throws. */
  datatype Result<T> = Ok(value: T) | Err(error: Error)
}
