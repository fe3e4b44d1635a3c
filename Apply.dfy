/** The applicative operator `<*>` of Operators.apply.swift, for Optional and for Result. */
module Apply {
  import opened Wrappers
  import opened Functional

  /** `f <*> maybeValue` on optionals: the present function mapped over the optional value. */
  function ApplyOptional<A, B>(f: Option<A -> B>, maybeValue: Option<A>): (r: Option<B>)
    ensures f.None? ==> r == None
    ensures f.Some? && maybeValue.None? ==> r == None
    ensures f.Some? && maybeValue.Some? ==> r == Some(f.value(maybeValue.value))
  {
    match f
    case Some(fx) => maybeValue.Map(fx)
    case None => None
  }

  /** `success` as a function value. */
  function Succeed<B, E>(b: B): Result<B, E>
  {
    Success(b)
  }

  /**
   * `f <*> values` on results: `f.flatMap { fn in values.flatMap(fn >>> success) }`.
   * A failing function wins over a failing argument.
   */
  function ApplyResult<A, B, E>(f: Result<A -> B, E>, values: Result<A, E>): (r: Result<B, E>)
    ensures f.Failure? ==> r == Failure(f.error)
    ensures f.Success? && values.Failure? ==> r == Failure(values.error)
    ensures f.Success? && values.Success? ==> r == Success(f.value(values.value))
  {
    f.FlatMap((fn: A -> B) => values.FlatMap(Compose(fn, Succeed)))
  }

  /** Applying the identity function changes nothing, for optionals and for results. */
  lemma ApplyIdentity<A, E>(maybeValue: Option<A>, values: Result<A, E>)
    ensures ApplyOptional(Some(Id), maybeValue) == maybeValue
    ensures ApplyResult(Success(Id), values) == values
  {
  }

  /** Applying a present function to a present value is plain application. */
  lemma ApplyHomomorphism<A, B, E>(g: A -> B, x: A)
    ensures ApplyOptional(Some(g), Some(x)) == Some(g(x))
    ensures ApplyResult(Success(g), Succeed<A, E>(x)) == Success(g(x))
  {
  }

  /**
   * `<*>` on results succeeds exactly when both operands succeed, and then
   * on optionals it is the same computation.
   */
  lemma ApplyResultAgreesWithOptional<A, B, E>(f: Result<A -> B, E>, values: Result<A, E>)
    ensures ApplyResult(f, values).Success? <==> f.Success? && values.Success?
    ensures ApplyResult(f, values).Success? ==>
      ApplyOptional(Some(f.value), Some(values.value)) == Some(ApplyResult(f, values).value)
  {
  }
}
