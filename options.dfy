/** Option and Result, the two failure-carrying wrappers the model uses for
    `undefined` lookups and for thrown or returned errors. */
module Options {

  datatype Option<+T> = None | Some(value: T)

  datatype Result<+R, +E> = Success(value: R) | Failure(error: E)
}
