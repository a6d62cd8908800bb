/** The optional-value and outcome types shared by every module of the model. */
module Wrappers {

  /** `None` stands for Python's `None` wherever a field may be "not tested" or absent. */
  datatype Option<+T> = None | Some(value: T)

  /** The value of an operation that either returns or raises. */
  datatype Result<+R, +E> = Success(value: R) | Failure(error: E)

  /** The outcome of an operation that returns nothing or raises. */
  datatype Outcome<+E> = Pass | Fail(error: E)
}
