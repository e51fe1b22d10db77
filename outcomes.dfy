/** Error kinds of the random package and the result type every generator returns.
    Errors are variants, not message strings. */
module Outcomes {

  datatype Error =
    | InvalidRange            // the lower bound exceeds the upper bound
    | MinBoundaryExhausted    // an excluded min that is already MaxInt64
    | MaxBoundaryExhausted    // an excluded max that is already MinInt64
    | ZeroLength              // a string length that is not positive
    | EntropyFailure          // the secure byte source could not supply bytes

  datatype Result<+T> = Ok(value: T) | Err(error: Error)
}
