/** Values that stand for the two ways the modelled code can fail to produce
    an ordinary value: a `null` reference and a thrown exception. */
module Wrappers {

  /** A reference that may be `null`: `None` is `null`. */
  datatype Option<+T> = None | Some(value: T)

  /** Either an ordinary value or the exception the source throws instead. */
  datatype Result<+T, +E> = Success(value: T) | Failure(error: E)

  /** A call into code outside the model that either returns or throws. */
  datatype Fallible<+T> = Throws | Returns(value: T)
}
