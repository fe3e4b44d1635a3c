/** Swift's Optional, LlamaKit's Result, and a marker for Swift runtime traps. */
module Wrappers {

  /** Swift's `T?`. */
  datatype Option<T> = None | Some(value: T) {

    /** `<^>` / `Optional.map`: applies `f` to a present value. */
    function Map<U>(f: T -> U): (r: Option<U>)
      ensures r.Some? <==> Some?
      ensures r.Some? ==> r.value == f(value)
    {
      match this
      case Some(v) => Some(f(v))
      case None => None
    }
  }

  /**
   * LlamaKit's `Result`. The library appears in two revisions (`Result<T>` with
   * `.error()` and `Result<T, E>` with `.error`); both are this one type.
   */
  datatype Result<T, E> = Success(value: T) | Failure(error: E) {

    /** `Result.flatMap`: chains a further fallible step onto a success. */
    function FlatMap<U>(f: T -> Result<U, E>): (r: Result<U, E>)
      ensures Failure? ==> r == Failure(error)
      ensures Success? ==> r == f(value)
    {
      match this
      case Success(v) => f(v)
      case Failure(e) => Failure(e)
    }

    /** `Result.map`: transforms a success value, passing a failure through. */
    function Map<U>(f: T -> U): (r: Result<U, E>)
      ensures r.Success? <==> Success?
      ensures Success? ==> r.value == f(value)
      ensures Failure? ==> r.error == error
    {
      match this
      case Success(v) => Success(f(v))
      case Failure(e) => Failure(e)
    }
  }

  /**
   * The outcome of running Swift code that can stop the program: a forced
   * unwrap of `nil`, a `Range` whose end is below its start, or an index past
   * the end of an array all trap.
   */
  datatype Run<R> = Trapped | Returned(value: R)
}
