/** Result and option shapes shared by every module of the model. */
module Wrappers {

  /** Rust's `Option<T>`. */
  datatype Option<+T> = None | Some(value: T)

  /** Rust's `Result<T, E>`. */
  datatype Result<+T, +E> = Ok(value: T) | Err(error: E)

  /** `either::Either<L, R>`, used by the semaphore handles. */
  datatype Either<+L, +R> = Left(left: L) | Right(right: R)

  /** `core::task::Poll<T>`: the outcome of one call to a future's `poll`. */
  datatype Poll<+T> = Pending | Ready(value: T)
}
