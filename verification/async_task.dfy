/**
 `Async.Task<Success, Error>`: a stored block that, when `complete` is called
 with a completion callback, hands results to that callback.

 The model keeps only what a block does observably: the sequence of results it
 hands to its completion during one `complete` call, in order. A well-behaved
 task hands over exactly one; the combinators below are stated for any block,
 so that "exactly once" is a property to prove rather than an assumption.
 Swift's `Never` error type is an empty type; its stand-in `Never` is not, so
 every task built with error type `Never` is also proved to satisfy
 `NeverFails`.
 */
module AsyncTask {
  import opened Results

  /** `Async.Task.init(block)`: the task only stores its block. */
  datatype Task<S, E> = Task(block: seq<Result<S, E>>)

  /** The block hands exactly one result to its completion. */
  predicate ExactlyOnce<S, E>(t: Task<S, E>)
  {
    |t.block| == 1
  }

  /** Every result the block hands over is a success (`Error == Never`). */
  predicate NeverFails<S, E>(t: Task<S, E>)
  {
    forall i :: 0 <= i < |t.block| ==> t.block[i].Success?
  }

  /** The single result of an exactly-once task. */
  function Outcome<S, E>(t: Task<S, E>): Result<S, E>
    requires ExactlyOnce(t)
  {
    t.block[0]
  }

  /** A task whose block hands over `r` once: how a service call that
      answers exactly once is seen by the combinators. */
  function Resolved<S, E>(r: Result<S, E>): (t: Task<S, E>)
    ensures ExactlyOnce(t) && Outcome(t) == r
  {
    Task([r])
  }

  /** `complete(c)`: the values the callback `c` returns, one per invocation,
      in invocation order. (Swift's `complete` runs the block again on every
      call; the model, being a function of the task, cannot express that.) */
  function Complete<S, E, X>(t: Task<S, E>, c: Result<S, E> -> X): (calls: seq<X>)
    ensures |calls| == |t.block|
    ensures forall i :: 0 <= i < |calls| ==> calls[i] == c(t.block[i])
  {
    seq(|t.block|, i requires 0 <= i < |t.block| => c(t.block[i]))
  }

  /** An exactly-once task invokes the callback exactly once per `complete`,
      with the task's one outcome. */
  lemma CompleteExactlyOnce<S, E, X>(t: Task<S, E>, c: Result<S, E> -> X)
    requires ExactlyOnce(t)
    ensures Complete(t, c) == [c(Outcome(t))]
  {
  }

  // ---------------------------------------------------------------------------
  // map and its specialisations (AsyncTask+Map.swift)
  // ---------------------------------------------------------------------------

  /** `map(transform)`: a task whose block completes the source task and hands
      `transform(result)` on, once per result of the source. */
  function Map<S, E, S2, E2>(t: Task<S, E>, f: Result<S, E> -> Result<S2, E2>): (m: Task<S2, E2>)
    ensures |m.block| == |t.block|
  {
    Task(seq(|t.block|, i requires 0 <= i < |t.block| => f(t.block[i])))
  }

  /** Completing `map(f)` with `c` is completing the source with `c` after `f`. */
  lemma MapComplete<S, E, S2, E2, X>(t: Task<S, E>, f: Result<S, E> -> Result<S2, E2>, c: Result<S2, E2> -> X)
    ensures Complete(Map(t, f), c) == Complete(t, r => c(f(r)))
    ensures ExactlyOnce(t) ==> ExactlyOnce(Map(t, f)) && Outcome(Map(t, f)) == f(Outcome(t))
  {
  }

  /** Functor laws: mapping the identity changes nothing, and two maps are
      one map of the composition. */
  lemma MapFunctor<S, E, S2, E2, S3, E3>(
    t: Task<S, E>, f: Result<S, E> -> Result<S2, E2>, g: Result<S2, E2> -> Result<S3, E3>)
    ensures Map(t, r => r) == t
    ensures Map(Map(t, f), g) == Map(t, r => g(f(r)))
  {
    assert Map(t, r => r).block == t.block;
  }

  /** `mapSuccess`: success values are transformed, failures pass unchanged. */
  function MapSuccess<S, E, S2>(t: Task<S, E>, f: S -> S2): (m: Task<S2, E>)
    ensures |m.block| == |t.block|
    ensures forall i :: 0 <= i < |t.block| ==>
      && (m.block[i].Success? <==> t.block[i].Success?)
      && (t.block[i].Success? ==> m.block[i].value == f(t.block[i].value))
      && (t.block[i].Failure? ==> m.block[i].error == t.block[i].error)
  {
    Map(t, (r: Result<S, E>) => MapValue(r, f))
  }

  /** `mapError`: failures are transformed, successes pass unchanged. */
  function MapError<S, E, E2>(t: Task<S, E>, f: E -> E2): (m: Task<S, E2>)
    ensures |m.block| == |t.block|
    ensures forall i :: 0 <= i < |t.block| ==>
      && (m.block[i].Success? <==> t.block[i].Success?)
      && (t.block[i].Success? ==> m.block[i].value == t.block[i].value)
      && (t.block[i].Failure? ==> m.block[i].error == f(t.block[i].error))
  {
    Map(t, (r: Result<S, E>) => MapFailure(r, f))
  }

  /** `mapError { $0 }` changes nothing. */
  lemma MapErrorIdentity<S, E>(t: Task<S, E>)
    ensures MapError(t, (e: E) => e) == t
  {
  }

  /** An exactly-once task is the lifting of its outcome. */
  lemma ResolvedOutcome<S, E>(t: Task<S, E>)
    requires ExactlyOnce(t)
    ensures t == Resolved(Outcome(t))
  {
  }

  /** Mapping a lifted result is lifting the mapped result. */
  lemma ResolvedMaps<S, E, S2, E2>(r: Result<S, E>, f: S -> S2, g: E -> E2)
    ensures MapSuccess(Resolved(r), f) == Resolved(MapValue(r, f))
    ensures MapError(Resolved(r), g) == Resolved(MapFailure(r, g))
  {
  }

  /** `replaceError`: the task never fails; success `s` stays `s` and failure
      `e` becomes success `f(e)`. */
  function ReplaceError<S, E>(t: Task<S, E>, f: E -> S): (m: Task<S, Never>)
    ensures |m.block| == |t.block|
    ensures NeverFails(m)
    ensures forall i :: 0 <= i < |t.block| ==>
      && (t.block[i].Success? ==> m.block[i].value == t.block[i].value)
      && (t.block[i].Failure? ==> m.block[i].value == f(t.block[i].error))
  {
    Map(t, (r: Result<S, E>) => Recover(r, f))
  }

  /** `mapToResult`: the task never fails and carries the original result. */
  function MapToResult<S, E>(t: Task<S, E>): (m: Task<Result<S, E>, Never>)
    ensures |m.block| == |t.block|
    ensures NeverFails(m)
    ensures forall i :: 0 <= i < |t.block| ==> m.block[i].value == t.block[i]
  {
    Map(t, (r: Result<S, E>) => Success(r))
  }

  /** `withErrorType` on a task with error type `Never`: only the error type
      changes; every success value is kept. */
  function WithErrorType<S, E2>(t: Task<S, Never>, errorType: Metatype<E2>): (m: Task<S, E2>)
    requires NeverFails(t)
    ensures |m.block| == |t.block|
    ensures NeverFails(m)
    ensures forall i :: 0 <= i < |t.block| ==> m.block[i].value == t.block[i].value
  {
    Task(seq(|t.block|, i requires 0 <= i < |t.block| => Success(t.block[i].value)))
  }

  /** The values `completeSuccess(c)` passes to `c`: one per success, in order. */
  function CompleteSuccess<S, E, X>(t: Task<S, E>, c: S -> X): (calls: seq<X>)
    ensures |calls| <= |t.block|
    ensures ExactlyOnce(t) ==>
      if Outcome(t).Success? then calls == [c(Outcome(t).value)] else calls == []
    ensures NeverFails(t) ==> |calls| == |t.block|
    ensures |calls| == |SuccessValues(t.block)|
    ensures forall i :: 0 <= i < |calls| ==> calls[i] == c(SuccessValues(t.block)[i])
    decreases |t.block|
  {
    if |t.block| == 0 then []
    else
      var rest := CompleteSuccess(Task(t.block[1..]), c);
      match t.block[0]
      case Success(s) => [c(s)] + rest
      case Failure(_) => rest
  }

  /** The values `completeErrorError(c)` passes to `c`: one per failure, in order. */
  function CompleteErrorError<S, E, X>(t: Task<S, E>, c: E -> X): (calls: seq<X>)
    ensures |calls| <= |t.block|
    ensures ExactlyOnce(t) ==>
      if Outcome(t).Failure? then calls == [c(Outcome(t).error)] else calls == []
    ensures NeverFails(t) ==> calls == []
    ensures |calls| == |FailureValues(t.block)|
    ensures forall i :: 0 <= i < |calls| ==> calls[i] == c(FailureValues(t.block)[i])
    decreases |t.block|
  {
    if |t.block| == 0 then []
    else
      var rest := CompleteErrorError(Task(t.block[1..]), c);
      match t.block[0]
      case Success(_) => rest
      case Failure(e) => [c(e)] + rest
  }

  // ---------------------------------------------------------------------------
  // then (AsyncTask+Then.swift)
  // ---------------------------------------------------------------------------

  /** What `then` hands on for one result of the first task: everything
      `next(s)` hands over on success, the failure itself otherwise. */
  function Step<S, E, S2>(r: Result<S, E>, next: S -> Task<S2, E>): seq<Result<S2, E>>
  {
    match r
    case Success(s) => next(s).block
    case Failure(e) => [Failure(e)]
  }

  function Chain<S, E, S2>(block: seq<Result<S, E>>, next: S -> Task<S2, E>): seq<Result<S2, E>>
  {
    if |block| == 0 then [] else Step(block[0], next) + Chain(block[1..], next)
  }

  /** `then(next)`: sequencing. On success `s` the chained task delivers
      whatever `next(s)` delivers; on failure `e` it delivers `e`. */
  function Then<S, E, S2>(t: Task<S, E>, next: S -> Task<S2, E>): (r: Task<S2, E>)
    ensures ExactlyOnce(t) && Outcome(t).Success? ==> r == next(Outcome(t).value)
    ensures ExactlyOnce(t) && Outcome(t).Failure? ==> r == Resolved(Failure(Outcome(t).error))
  {
    assert |t.block| == 1 ==> Chain(t.block, next) == Step(t.block[0], next) + Chain([], next);
    Task(Chain(t.block, next))
  }

  /** The arguments `then` passes to `next`: the success values, in order. */
  function SuccessValues<S, E>(block: seq<Result<S, E>>): (vs: seq<S>)
    ensures forall s :: s in vs ==> Success(s) in block
  {
    if |block| == 0 then []
    else if block[0].Success? then [block[0].value] + SuccessValues(block[1..])
    else SuccessValues(block[1..])
  }

  /** The errors of a block, in order. */
  function FailureValues<S, E>(block: seq<Result<S, E>>): (es: seq<E>)
    ensures forall e :: e in es ==> Failure(e) in block
  {
    if |block| == 0 then []
    else if block[0].Failure? then [block[0].error] + FailureValues(block[1..])
    else FailureValues(block[1..])
  }

  /** `next` is consulted only at the success values of the first task: two
      continuations that agree there give the same chained task. In
      particular a failing task never invokes `next`. */
  lemma {:induction false} ThenConsultsNextOnlyOnSuccess<S, E, S2>(
    t: Task<S, E>, next1: S -> Task<S2, E>, next2: S -> Task<S2, E>)
    requires forall s :: s in SuccessValues(t.block) ==> next1(s) == next2(s)
    ensures Then(t, next1) == Then(t, next2)
  {
    ChainAgrees(t.block, next1, next2);
  }

  lemma {:induction false} ChainAgrees<S, E, S2>(
    block: seq<Result<S, E>>, next1: S -> Task<S2, E>, next2: S -> Task<S2, E>)
    requires forall s :: s in SuccessValues(block) ==> next1(s) == next2(s)
    ensures Chain(block, next1) == Chain(block, next2)
  {
    if |block| > 0 {
      assert forall s :: s in SuccessValues(block[1..]) ==> s in SuccessValues(block);
      ChainAgrees(block[1..], next1, next2);
    }
  }

  /** If the first task and every continuation deliver exactly once, so does
      the chained task. */
  lemma ThenExactlyOnce<S, E, S2>(t: Task<S, E>, next: S -> Task<S2, E>)
    requires ExactlyOnce(t)
    requires Outcome(t).Success? ==> ExactlyOnce(next(Outcome(t).value))
    ensures ExactlyOnce(Then(t, next))
  {
  }

  lemma {:induction false} ChainAppend<S, E, S2>(a: seq<Result<S, E>>, b: seq<Result<S, E>>, next: S -> Task<S2, E>)
    ensures Chain(a + b, next) == Chain(a, next) + Chain(b, next)
  {
    if |a| > 0 {
      assert (a + b)[1..] == a[1..] + b;
      ChainAppend(a[1..], b, next);
    } else {
      assert a + b == b;
    }
  }

  /** Right identity: continuing with `justValue` changes nothing. */
  lemma {:induction false} ThenRightIdentity<S, E>(t: Task<S, E>)
    ensures Then(t, (s: S) => JustValue<S, E>(s, Metatype)) == t
  {
    ChainRightIdentity(t.block);
  }

  lemma {:induction false} ChainRightIdentity<S, E>(block: seq<Result<S, E>>)
    ensures Chain(block, (s: S) => JustValue<S, E>(s, Metatype)) == block
  {
    if |block| > 0 {
      ChainRightIdentity(block[1..]);
      assert block == [block[0]] + block[1..];
    }
  }

  /** Associativity: chaining in two steps is chaining once with the
      composed continuation. */
  lemma {:induction false} ThenAssociative<S, E, S2, S3>(
    t: Task<S, E>, f: S -> Task<S2, E>, g: S2 -> Task<S3, E>)
    ensures Then(Then(t, f), g) == Then(t, (s: S) => Then(f(s), g))
  {
    ChainAssociative(t.block, f, g);
  }

  lemma {:induction false} ChainAssociative<S, E, S2, S3>(
    block: seq<Result<S, E>>, f: S -> Task<S2, E>, g: S2 -> Task<S3, E>)
    ensures Chain(Chain(block, f), g) == Chain(block, (s: S) => Then(f(s), g))
  {
    if |block| > 0 {
      ChainAppend(Step(block[0], f), Chain(block[1..], f), g);
      ChainAssociative(block[1..], f, g);
      match block[0]
      case Success(s) =>
      case Failure(e) =>
        assert Chain([Failure(e)], g) == [Failure(e)] + Chain([], g);
    }
  }

  // ---------------------------------------------------------------------------
  // justValue, justError, firstly (AsyncTask+Just.swift, AsyncTask+Firstly.swift)
  // ---------------------------------------------------------------------------

  /** `justValue(value:)`: each `complete` hands `.success(value)` over once. */
  function JustValue<S, E>(v: S, errorType: Metatype<E>): (t: Task<S, E>)
    ensures ExactlyOnce(t) && Outcome(t) == Success(v)
  {
    Task([Success(v)])
  }

  /** `justError(error:)`: each `complete` hands `.failure(error)` over once. */
  function JustError<S, E>(valueType: Metatype<S>, e: E): (t: Task<S, E>)
    ensures ExactlyOnce(t) && Outcome(t) == Failure(e)
  {
    Task([Failure(e)])
  }

  /** Left identity, and a failed start short-circuits whatever follows. */
  lemma JustThen<S, E, S2>(v: S, e: E, f: S -> Task<S2, E>)
    ensures Then(JustValue(v, Metatype), f) == f(v)
    ensures Then(JustError(Metatype, e), f) == JustError(Metatype, e)
  {
  }

  /** `justError(e).replaceError(f)` behaves as `justValue(f(e))`. */
  lemma JustErrorReplaced<S, E>(e: E, f: E -> S)
    ensures ReplaceError(JustError<S, E>(Metatype, e), f) == JustValue<S, Never>(f(e), Metatype)
  {
  }

  /** `firstly(factory)`: the task the factory creates, the factory being
      evaluated once, at the call. */
  function Firstly<S, E>(factory: () -> Task<S, E>): (t: Task<S, E>)
    ensures t == factory()
  {
    factory()
  }

  /** `firstly(f).then(g)` behaves as `f().then(g)`. */
  lemma FirstlyThen<S, E, S2>(factory: () -> Task<S, E>, g: S -> Task<S2, E>)
    ensures Then(Firstly(factory), g) == Then(factory(), g)
  {
  }
}
