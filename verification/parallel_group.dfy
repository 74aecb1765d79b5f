/**
 `Async.ParallelTaskGroup` and `Async.forEach`: start every task, record each
 task's result in the slot with the task's index, and once all have finished
 hand over the slots in index order.

 The dispatch group's concurrency is reduced to one thing the output could
 depend on: the order in which the tasks finish. `CompleteGroup` takes that
 order as an input and is proved to produce the same list for every order.
 */
module ParallelGroup {
  import opened Results
  import opened AsyncTask

  /** `GroupTaskStatus`: the state of one slot. */
  datatype GroupTaskStatus<S, E> = InProgress | Succeeded(success: S) | Failed(failure: E)

  /** `asResult`: nil exactly for a slot still in progress. */
  function AsResult<S, E>(status: GroupTaskStatus<S, E>): (r: Option<Result<S, E>>)
    ensures r.None? <==> status.InProgress?
    ensures status.Succeeded? ==> r == Some(Success(status.success))
    ensures status.Failed? ==> r == Some(Failure(status.failure))
  {
    match status
    case InProgress => None
    case Succeeded(s) => Some(Success(s))
    case Failed(e) => Some(Failure(e))
  }

  /** The slot write a task's completion performs. */
  function Settle<S, E>(r: Result<S, E>): (status: GroupTaskStatus<S, E>)
    ensures !status.InProgress?
    ensures AsResult(status) == Some(r)
  {
    match r
    case Success(s) => Succeeded(s)
    case Failure(e) => Failed(e)
  }

  /** A finished slot read back by `asResult` gives the result that was
      written, and a result read back from a slot is what was written. */
  lemma SettleRoundTrip<S, E>(r: Result<S, E>, status: GroupTaskStatus<S, E>)
    ensures AsResult(Settle(r)) == Some(r)
    ensures AsResult(status) == Some(r) ==> status == Settle(r)
  {
  }

  predicate AllExactlyOnce<S, E>(tasks: seq<Task<S, E>>)
  {
    forall i :: 0 <= i < |tasks| ==> ExactlyOnce(tasks[i])
  }

  /** The order-preserving reference: position `i` holds task `i`'s result. */
  function GroupResults<S, E>(tasks: seq<Task<S, E>>): (results: seq<Result<S, E>>)
    requires AllExactlyOnce(tasks)
    ensures |results| == |tasks|
    ensures forall i :: 0 <= i < |tasks| ==> results[i] == Outcome(tasks[i])
  {
    seq(|tasks|, i requires 0 <= i < |tasks| => Outcome(tasks[i]))
  }

  /** `order` lists every task index, in the order the tasks finish. */
  predicate IsCompletionOrder(order: seq<nat>, n: nat)
  {
    && |order| == n
    && (forall k :: 0 <= k < |order| ==> order[k] < n)
    && (forall i :: 0 <= i < n ==> i in order)
  }

  /** `ParallelTaskGroup.complete`, run sequentially with the tasks finishing
      in `order`: every slot starts `inProgress`, a finishing task writes its
      own slot, and `compactMap(asResult)` reads the slots back. Whatever the
      order, the list has one result per task, task `i`'s at position `i`. */
  method CompleteGroup<S, E>(tasks: seq<Task<S, E>>, order: seq<nat>) returns (results: seq<Result<S, E>>)
    requires AllExactlyOnce(tasks)
    requires IsCompletionOrder(order, |tasks|)
    ensures |results| == |tasks|
    ensures forall i :: 0 <= i < |tasks| ==> results[i] == Outcome(tasks[i])
  {
    var statuses: seq<GroupTaskStatus<S, E>> := seq(|tasks|, _ => InProgress);
    var k := 0;
    while k < |order|
      invariant 0 <= k <= |order|
      invariant |statuses| == |tasks|
      invariant forall i :: 0 <= i < |tasks| ==>
        statuses[i] == if i in order[..k] then Settle(Outcome(tasks[i])) else InProgress
    {
      var index := order[k];
      statuses := statuses[index := Settle(Outcome(tasks[index]))];
      assert order[..k + 1] == order[..k] + [index];
      k := k + 1;
    }
    assert order[..k] == order;

    results := [];
    var j := 0;
    while j < |statuses|
      invariant 0 <= j <= |statuses|
      invariant |results| == j
      invariant forall i :: 0 <= i < j ==> results[i] == Outcome(tasks[i])
    {
      match AsResult(statuses[j]) {
        case Some(r) => results := results + [r];
        case None =>
      }
      j := j + 1;
    }
  }

  /** `ParallelTaskGroup.asTask`: once every task has finished, the group hands
      over `.success(results)`, exactly once. It never fails. A task that
      never finishes keeps the dispatch group from notifying, so nothing is
      handed over. A task that finishes more than once is outside what the
      group supports: the model hands over nothing for it too. */
  function GroupTask<S, E>(tasks: seq<Task<S, E>>): (t: Task<seq<Result<S, E>>, Never>)
    ensures NeverFails(t)
    ensures AllExactlyOnce(tasks) <==> ExactlyOnce(t)
    ensures AllExactlyOnce(tasks) ==> Outcome(t) == Success(GroupResults(tasks))
    ensures AllExactlyOnce(tasks) && |tasks| == 0 ==> Outcome(t) == Success([])
  {
    if AllExactlyOnce(tasks) then Resolved(Success(GroupResults(tasks))) else Task([])
  }

  /** `forEach(in: items, f)`: one task per item, built by `f` in item order,
      run as a group. */
  function ForEach<T, S, E>(items: seq<T>, f: T -> Task<S, E>): (t: Task<seq<Result<S, E>>, Never>)
    ensures NeverFails(t)
    ensures (forall i :: 0 <= i < |items| ==> ExactlyOnce(f(items[i]))) ==>
      && ExactlyOnce(t)
      && |Outcome(t).value| == |items|
      && forall i :: 0 <= i < |items| ==> Outcome(t).value[i] == Outcome(f(items[i]))
  {
    GroupTask(seq(|items|, i requires 0 <= i < |items| => f(items[i])))
  }
}
