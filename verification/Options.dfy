/** The two value-or-nothing shapes the models share. */
module Options {
  datatype Option<+T> = None | Some(value: T)

  datatype Result<+T, +R> = Success(value: T) | Failure(error: R)
}
