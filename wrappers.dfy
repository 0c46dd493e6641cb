/** Option and Result: the "no match" and "thrown error" outcomes of the resolvers. */
module Wrappers {

  /** The value a lookup returns: `None` stands for JavaScript's `undefined`. */
  datatype Option<T> = None | Some(value: T)

  /** The outcome of a resolver that may throw: `Failure` carries the message of the thrown `Error`. */
  datatype Result<T, E> = Success(value: T) | Failure(error: E)
}
