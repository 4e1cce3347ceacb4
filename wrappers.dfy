/** Kotlin's nullable values and thrown exceptions, as values. */
module Wrappers {

  /** A Kotlin nullable `T?`: `None` stands for `null`. */
  datatype Option<+T> = None | Some(value: T)

  /** The exceptions the modelled idioms throw. */
  datatype Exception =
    | IllegalArgumentException(message: string)
    | IllegalStateException(message: string)
    | NegativeArraySizeException(size: int)

  /** The outcome of a Kotlin expression that either yields a value or throws. */
  datatype Result<+T> = Ok(value: T) | Thrown(exception: Exception)
}
