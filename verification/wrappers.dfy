/** Failure-carrying values shared by every stage of the backtester model.
    The Python code signals bad input by raising; here each raise becomes an
    `Err` carrying which check fired. */
module Wrappers {

  datatype Option<+T> = None | Some(value: T)

  /** The exceptions the modelled code can raise on malformed input. */
  datatype Error =
    | ColumnNotFound(column: string)  // explicit ValueError of find_peaks / find_troughs
    | MissingKey(column: string)      // KeyError of `data[column]` in the rolling-window detectors
    | BadOrder(order: int)            // ValueError of argrelextrema for an order below 1
    | IndexOutOfRange(position: int)  // IndexError of a positional `iloc` access

  datatype Result<+T> = Ok(value: T) | Err(error: Error)
}
