/** The exceptions the graph operations raise, as values. */
module Outcomes {

  /** Python exceptions raised by graph_loader.py. */
  datatype Error = ValueError | ZeroDivisionError | IndexError

  /** The result of an operation that returns a value or raises. */
  datatype Result<T> = Ok(value: T) | Err(error: Error)

  /** The result of an operation that returns nothing or raises. */
  datatype Outcome = Success | Failure(error: Error)
}
