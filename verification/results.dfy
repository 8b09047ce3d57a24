/** The failures the time-series engine can raise, and a result type that carries them. */
module Results {

  /** Each constructor stands for one exception the engine raises. */
  datatype Error =
    | EmptyTimeSeries                  // EmptyTimeSeriesException: encoding an empty series
    | IndexOutOfRange                  // numpy IndexError: an id or sample index past the end
    | MaskLengthMismatch               // numpy IndexError: boolean mask longer than the array it indexes
    | StreamNotFound(name: string)     // the requested stream is not advertised for the measurement
    | UnknownTranslationKey(key: string) // KeyError in the activity translation table
    | NoStreams                        // np.concatenate over no change-point arrays
    | NonNumericSteps                  // int(np.sum(step_ts)) on a NaN or text step sample
    | MaskNotBoolean                   // TypeError: `~` on the float array decoded from an empty pause container

  /** Either a value or the error that stopped the computation; usable with `:-`. */
  datatype Result<+T> = Ok(value: T) | Err(error: Error) {

    predicate IsFailure() {
      Err?
    }

    function PropagateFailure<U>(): Result<U>
      requires Err?
    {
      Err(error)
    }

    function Extract(): T
      requires Ok?
    {
      value
    }
  }
}
