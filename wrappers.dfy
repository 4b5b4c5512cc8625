/** Failure-carrying results for the places where the TypeScript code throws. */
module Wrappers {

  datatype Option<+T> = None | Some(value: T)

  /** An exception the source raises: an explicit `throw new Error(..)`, or a
      JavaScript TypeError (destructuring null, indexing undefined, calling a
      missing method, `new` of something that is not a constructor). */
  datatype Error = Thrown(message: string) | TypeError(message: string)

  datatype Result<+T> = Ok(value: T) | Err(error: Error)

  /** The outcome of a call that returns nothing but may throw. */
  datatype Outcome = Pass | Fail(error: Error)
}
