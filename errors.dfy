/** The exceptions the pipeline raises, as values. Each carries the key or the
    message the Python code gives it. */
module Failures {

  datatype Failure =
    | KeyError(key: string)
    | ValueError(message: string)
    | RuntimeError(message: string)
    | TypeError(message: string)
    | RegexError(message: string)
}
