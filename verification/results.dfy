/**
 The two wrapper types the program leans on: Swift's `Optional` and
 `Swift.Result<Success, Failure>`, with the handful of `Result` members the
 task combinators call (`map`, `mapError`, `flatMapError`, `get`).
 */
module Results {

  datatype Option<+T> = None | Some(value: T)

  datatype Result<+S, +E> = Success(value: S) | Failure(error: E)

  /** Stands in for Swift's `Never`. Swift's type has no values; this one has
      one, so "cannot fail" is the proved property `NeverFails` of a task
      rather than a fact read off its type. */
  datatype Never = Never

  /** `T.Type`: the metatype a Swift API takes to fix a type parameter that
      its other arguments leave open (`errorType:`, `valueType:`). */
  datatype Metatype<T> = Metatype

  /** `Result.map`: transforms a success value, keeps a failure. */
  function MapValue<S, E, S2>(r: Result<S, E>, f: S -> S2): (m: Result<S2, E>)
    ensures m.Success? <==> r.Success?
    ensures r.Success? ==> m.value == f(r.value)
    ensures r.Failure? ==> m.error == r.error
  {
    match r
    case Success(s) => Success(f(s))
    case Failure(e) => Failure(e)
  }

  /** `Result.mapError`: transforms a failure, keeps a success value. */
  function MapFailure<S, E, E2>(r: Result<S, E>, f: E -> E2): (m: Result<S, E2>)
    ensures m.Success? <==> r.Success?
    ensures r.Success? ==> m.value == r.value
    ensures r.Failure? ==> m.error == f(r.error)
  {
    match r
    case Success(s) => Success(s)
    case Failure(e) => Failure(f(e))
  }

  /** `Result.flatMapError { .success(f($0)) }`: a failure becomes a success. */
  function Recover<S, E>(r: Result<S, E>, f: E -> S): (m: Result<S, Never>)
    ensures m.Success?
    ensures r.Success? ==> m.value == r.value
    ensures r.Failure? ==> m.value == f(r.error)
  {
    match r
    case Success(s) => Success(s)
    case Failure(e) => Success(f(e))
  }

  /** `try? result.get()`: the success value, or nil. */
  function Get<S, E>(r: Result<S, E>): (o: Option<S>)
    ensures o.Some? <==> r.Success?
    ensures r.Success? ==> o.value == r.value
  {
    match r
    case Success(s) => Some(s)
    case Failure(_) => None
  }
}
