/** The life cycle of a task: NOT_COMPUTED, then QUEUED, STARTED, and
    finally FAILED or SUCCEEDED; a finished task may be queued again. Each
    state answers every transition with its successor or with an
    IllegalStateException. */
module Tasks {
  import opened Wrappers
  import opened Coordinates

  /** `TaskStateIdentifier`. */
  datatype Identifier = NOT_COMPUTED | QUEUED | STARTED | FAILED | SUCCEEDED

  /** `isFinished`. */
  predicate IsFinished(id: Identifier)
  {
    match id
    case NOT_COMPUTED => false
    case QUEUED => false
    case STARTED => false
    case FAILED => true
    case SUCCEEDED => true
  }

  /** The immutable `TaskState` implementations; `Failed` and `Succeeded`
      carry the exception and the result. */
  datatype State<R> = NotComputed | Queued | Started | Failed(exception: Exception) | Succeeded(result: R)

  /** `identifier()` of each state. */
  function Id<R>(s: State<R>): Identifier
  {
    match s
    case NotComputed => NOT_COMPUTED
    case Queued => QUEUED
    case Started => STARTED
    case Failed(_) => FAILED
    case Succeeded(_) => SUCCEEDED
  }

  /** `queued()`: from NotComputed or a finished state. */
  function Queue<R>(s: State<R>): Result<State<R>>
  {
    match s
    case NotComputed => Ok(Queued)
    case Queued => Err(IllegalState)
    case Started => Err(IllegalState)
    case Failed(_) => Ok(Queued)
    case Succeeded(_) => Ok(Queued)
  }

  /** `started()`: from NotComputed (skipping the queue) or Queued. */
  function Start<R>(s: State<R>): Result<State<R>>
  {
    match s
    case NotComputed => Ok(Started)
    case Queued => Ok(Started)
    case Started => Err(IllegalState)
    case Failed(_) => Err(IllegalState)
    case Succeeded(_) => Err(IllegalState)
  }

  /** `failed(exception)`: from NotComputed or Started. */
  function Fail<R>(s: State<R>, e: Exception): Result<State<R>>
  {
    match s
    case NotComputed => Ok(Failed(e))
    case Queued => Err(IllegalState)
    case Started => Ok(Failed(e))
    case Failed(_) => Err(IllegalState)
    case Succeeded(_) => Err(IllegalState)
  }

  /** `succeeded(result)`: from NotComputed or Started. */
  function Succeed<R>(s: State<R>, r: R): Result<State<R>>
  {
    match s
    case NotComputed => Ok(Succeeded(r))
    case Queued => Err(IllegalState)
    case Started => Ok(Succeeded(r))
    case Failed(_) => Err(IllegalState)
    case Succeeded(_) => Err(IllegalState)
  }

  /** Exactly FAILED and SUCCEEDED are finished, and they are the states
      that carry an outcome. */
  lemma FinishedStates<R>(s: State<R>)
    ensures IsFinished(Id(s)) <==> s.Failed? || s.Succeeded?
    ensures IsFinished(Id(s)) <==> Id(s) == FAILED || Id(s) == SUCCEEDED
  {
  }

  /** Queuing is refused exactly while a task is queued or running; apart
      from the very first time, a task can only be queued again once it has
      finished. */
  lemma QueueOnlyFromNotComputedOrFinished<R>(s: State<R>)
    ensures Queue(s).Ok? <==> s.NotComputed? || IsFinished(Id(s))
    ensures Queue(s).Ok? ==> Queue(s).value == Queued
    ensures Queue(s).Err? ==> Queue(s).error == IllegalState
  {
  }

  /** A task is started only if it has not been started since it was last
      queued. */
  lemma StartOnlyFromNotComputedOrQueued<R>(s: State<R>)
    ensures Start(s).Ok? <==> s.NotComputed? || s.Queued?
    ensures Start(s).Ok? ==> Id(Start(s).value) == STARTED
  {
  }

  /** A task finishes only when running or not yet computed, and then holds
      exactly the given exception or result. */
  lemma FinishOnlyFromNotComputedOrStarted<R>(s: State<R>, e: Exception, r: R)
    ensures Fail(s, e).Ok? <==> s.NotComputed? || s.Started?
    ensures Succeed(s, r).Ok? <==> s.NotComputed? || s.Started?
    ensures Fail(s, e).Ok? ==> Fail(s, e).value == Failed(e) && Id(Fail(s, e).value) == FAILED
    ensures Succeed(s, r).Ok? ==> Succeed(s, r).value == Succeeded(r) && Id(Succeed(s, r).value) == SUCCEEDED
  {
  }

  /** NotComputed accepts every transition. */
  lemma NotComputedNeverThrows<R>(e: Exception, r: R)
    ensures Queue<R>(NotComputed).Ok? && Start<R>(NotComputed).Ok?
    ensures Fail<R>(NotComputed, e).Ok? && Succeed<R>(NotComputed, r).Ok?
  {
  }

  /** The events a task sees, for reasoning about sequences of transitions. */
  datatype Event<R> = QueueEvent | StartEvent | FailEvent(e: Exception) | SucceedEvent(r: R)

  function Step<R>(s: State<R>, ev: Event<R>): Result<State<R>>
  {
    match ev
    case QueueEvent => Queue(s)
    case StartEvent => Start(s)
    case FailEvent(e) => Fail(s, e)
    case SucceedEvent(r) => Succeed(s, r)
  }

  /** Runs the events in order; the first refused transition ends the run. */
  function Run<R>(s: State<R>, evs: seq<Event<R>>): Result<State<R>>
    decreases |evs|
  {
    if evs == [] then Ok(s)
    else match Step(s, evs[0])
      case Ok(s') => Run(s', evs[1..])
      case Err(e) => Err(e)
  }

  /** A task that is queued or running can be queued again only after it
      has failed or succeeded: every refusal-free run from such a state that
      queues the task also finishes it. */
  lemma {:induction false} RequeueOnlyAfterFinishing<R>(s: State<R>, evs: seq<Event<R>>)
    requires s.Queued? || s.Started?
    requires Run(s, evs).Ok?
    requires QueueEvent in evs
    ensures exists k :: 0 <= k < |evs| && (evs[k].FailEvent? || evs[k].SucceedEvent?)
    decreases |evs|
  {
    var ev := evs[0];
    if ev.FailEvent? || ev.SucceedEvent? {
      assert evs[0].FailEvent? || evs[0].SucceedEvent?;
    } else {
      assert ev == StartEvent && s == Queued;
      assert QueueEvent in evs[1..];
      RequeueOnlyAfterFinishing(Started, evs[1..]);
      var k :| 0 <= k < |evs[1..]| && (evs[1..][k].FailEvent? || evs[1..][k].SucceedEvent?);
      assert evs[k + 1] == evs[1..][k];
    }
  }

  /** `Task`: a mutable holder of the current state. Every transition
      replaces the state with the current state's answer; a refused
      transition throws before the assignment and leaves the state as it was. */
  class Task<R> {
    var state: State<R>

    /** A new task is NOT_COMPUTED. */
    constructor ()
      ensures state == NotComputed
    {
      state := NotComputed;
    }

    method MarkQueued() returns (outcome: Result<()>)
      modifies this
      ensures outcome.Ok? <==> Queue(old(state)).Ok?
      ensures state == if outcome.Ok? then Queue(old(state)).value else old(state)
    {
      var next := Queue(state);
      if next.Err? { return Err(next.error); }
      state := next.value;
      return Ok(());
    }

    method MarkStarted() returns (outcome: Result<()>)
      modifies this
      ensures outcome.Ok? <==> Start(old(state)).Ok?
      ensures state == if outcome.Ok? then Start(old(state)).value else old(state)
    {
      var next := Start(state);
      if next.Err? { return Err(next.error); }
      state := next.value;
      return Ok(());
    }

    method MarkFailed(e: Exception) returns (outcome: Result<()>)
      modifies this
      ensures outcome.Ok? <==> Fail(old(state), e).Ok?
      ensures state == if outcome.Ok? then Failed(e) else old(state)
    {
      var next := Fail(state, e);
      if next.Err? { return Err(next.error); }
      state := next.value;
      return Ok(());
    }

    method MarkSucceeded(r: R) returns (outcome: Result<()>)
      modifies this
      ensures outcome.Ok? <==> Succeed(old(state), r).Ok?
      ensures state == if outcome.Ok? then Succeeded(r) else old(state)
    {
      var next := Succeed(state, r);
      if next.Err? { return Err(next.error); }
      state := next.value;
      return Ok(());
    }

    /** `error()`: only a failed task has one. */
    function Error(): (e: Result<Exception>)
      reads this
      ensures e.Ok? <==> Identifier() == FAILED
      ensures e.Ok? ==> state == Failed(e.value)
      ensures e.Err? ==> e.error == IllegalState
    {
      if state.Failed? then Ok(state.exception) else Err(IllegalState)
    }

    /** `result()`: only a succeeded task has one. */
    function Value(): (r: Result<R>)
      reads this
      ensures r.Ok? <==> Identifier() == SUCCEEDED
      ensures r.Ok? ==> state == Succeeded(r.value)
      ensures r.Err? ==> r.error == IllegalState
    {
      if state.Succeeded? then Ok(state.result) else Err(IllegalState)
    }

    /** `identifier()`: the current state's identifier. */
    function Identifier(): Identifier
      reads this
    {
      Id(state)
    }
  }
}
