/** Option and Result, the shapes used for PHP's nullable returns and thrown errors. */
module Wrappers {

  /** A nullable value: `None` stands for PHP's `null`. */
  datatype Option<+T> = None | Some(value: T)

  /** A value, or the error that the PHP code would have thrown instead. */
  datatype Result<+T, +E> = Ok(value: T) | Err(error: E)
}
