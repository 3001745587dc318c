/** Task channels: a simple channel of three FIFO queues (tasks, results,
    errors) and the two decorators that replay stored items in front of a
    channel or copy every send to a second channel. A channel is a stack of
    such layers over simple channels; the layers are values, the queues live
    in objects that the operations update in place. */
module Channels {
  import opened Wrappers

  /** `SimpleTaskChannel`: an unbounded task queue and a result and an error
      queue, each unbounded for capacity 0 and bounded by its capacity
      otherwise. */
  class SimpleTaskChannel<T, R, E> {
    const taskName: string
    const resultCapacity: nat
    const errorCapacity: nat
    var tasks: seq<T>
    var results: seq<R>
    var errors: seq<E>

    constructor (taskName: string, resultCapacity: nat, errorCapacity: nat)
      ensures this.taskName == taskName
      ensures this.resultCapacity == resultCapacity && this.errorCapacity == errorCapacity
      ensures tasks == [] && results == [] && errors == []
    {
      this.taskName := taskName;
      this.resultCapacity := resultCapacity;
      this.errorCapacity := errorCapacity;
      tasks, results, errors := [], [], [];
    }

    /** `add` on a bounded queue fails once the queue holds its capacity. */
    predicate HasRoomForResult()
      reads this
    {
      resultCapacity == 0 || |results| < resultCapacity
    }

    predicate HasRoomForError()
      reads this
    {
      errorCapacity == 0 || |errors| < errorCapacity
    }
  }

  /** The replay queues of a `ReplayingTaskChannelDecorator`, filled once
      from the collections given on construction and only ever consumed. */
  class ReplayQueues<T, R, E> {
    var tasks: seq<T>
    var results: seq<R>
    var errors: seq<E>

    constructor (tasks: seq<T>, results: seq<R>, errors: seq<E>)
      ensures this.tasks == tasks && this.results == results && this.errors == errors
    {
      this.tasks, this.results, this.errors := tasks, results, errors;
    }
  }

  /** A channel as the layers it is made of. `spy(l)` on a channel `c` is
      `Spying(c, l)`; `replaying(...)` on `c` is `Replaying(c, q)` with fresh
      replay queues `q`. */
  datatype TaskChannel<T, R, E> =
    | Simple(channel: SimpleTaskChannel<T, R, E>)
    | Replaying(decorated: TaskChannel<T, R, E>, replay: ReplayQueues<T, R, E>)
    | Spying(decorated: TaskChannel<T, R, E>, listening: TaskChannel<T, R, E>)

  /** Every simple channel a send reaches. */
  ghost function Leaves<T, R, E>(ch: TaskChannel<T, R, E>): set<SimpleTaskChannel<T, R, E>>
  {
    match ch
    case Simple(c) => {c}
    case Replaying(d, _) => Leaves(d)
    case Spying(d, l) => Leaves(d) + Leaves(l)
  }

  /** Every replay queue in the stack. */
  ghost function Replays<T, R, E>(ch: TaskChannel<T, R, E>): set<ReplayQueues<T, R, E>>
  {
    match ch
    case Simple(_) => {}
    case Replaying(d, q) => {q} + Replays(d)
    case Spying(d, l) => Replays(d) + Replays(l)
  }

  /** The one simple channel that queries reach: the innermost decorated one. */
  function QueriedLeaf<T, R, E>(ch: TaskChannel<T, R, E>): (c: SimpleTaskChannel<T, R, E>)
    ensures c in Leaves(ch)
  {
    match ch
    case Simple(c) => c
    case Replaying(d, _) => QueriedLeaf(d)
    case Spying(d, _) => QueriedLeaf(d)
  }

  /** The replay queues that queries consume, outermost first. */
  ghost function QueriedReplays<T, R, E>(ch: TaskChannel<T, R, E>): (qs: set<ReplayQueues<T, R, E>>)
    ensures qs <= Replays(ch)
  {
    match ch
    case Simple(_) => {}
    case Replaying(d, q) => {q} + QueriedReplays(d)
    case Spying(d, _) => QueriedReplays(d)
  }

  /** No object is shared between two layers, so a decorator's two channels
      and its replay queues change independently. */
  ghost predicate Valid<T, R, E>(ch: TaskChannel<T, R, E>)
  {
    match ch
    case Simple(_) => true
    case Replaying(d, q) => Valid(d) && q !in Replays(d)
    case Spying(d, l) =>
      && Valid(d) && Valid(l)
      && Leaves(d) !! Leaves(l) && Replays(d) !! Replays(l)
  }

  /** The tasks a query sees, in the order it returns them. */
  function Tasks<T, R, E>(ch: TaskChannel<T, R, E>): seq<T>
    reads Leaves(ch), Replays(ch)
  {
    match ch
    case Simple(c) => c.tasks
    case Replaying(d, q) => q.tasks + Tasks(d)
    case Spying(d, _) => Tasks(d)
  }

  function Results<T, R, E>(ch: TaskChannel<T, R, E>): seq<R>
    reads Leaves(ch), Replays(ch)
  {
    match ch
    case Simple(c) => c.results
    case Replaying(d, q) => q.results + Results(d)
    case Spying(d, _) => Results(d)
  }

  function Errors<T, R, E>(ch: TaskChannel<T, R, E>): seq<E>
    reads Leaves(ch), Replays(ch)
  {
    match ch
    case Simple(c) => c.errors
    case Replaying(d, q) => q.errors + Errors(d)
    case Spying(d, _) => Errors(d)
  }

  /** `taskName`: the decorators report the decorated channel's name. */
  function TaskName<T, R, E>(ch: TaskChannel<T, R, E>): (name: string)
    ensures name == QueriedLeaf(ch).taskName
  {
    match ch
    case Simple(c) => c.taskName
    case Replaying(d, _) => TaskName(d)
    case Spying(d, _) => TaskName(d)
  }

  /** `nrOfWaitingTasks`: the queue length for a simple channel, the
      remaining replayed tasks plus the decorated count for a replaying
      one, the decorated count for a spying one. */
  function NrOfWaitingTasks<T, R, E>(ch: TaskChannel<T, R, E>): (n: nat)
    reads Leaves(ch), Replays(ch)
    ensures n == |Tasks(ch)|
  {
    match ch
    case Simple(c) => |c.tasks|
    case Replaying(d, q) => |q.tasks| + NrOfWaitingTasks(d)
    case Spying(d, _) => NrOfWaitingTasks(d)
  }

  /** `noWaitingTasks`: the replay is empty and the decorated channel has
      no waiting task. */
  function NoWaitingTasks<T, R, E>(ch: TaskChannel<T, R, E>): (b: bool)
    reads Leaves(ch), Replays(ch)
    ensures b <==> NrOfWaitingTasks(ch) == 0
  {
    match ch
    case Simple(c) => c.tasks == []
    case Replaying(d, q) => q.tasks == [] && NoWaitingTasks(d)
    case Spying(d, _) => NoWaitingTasks(d)
  }

  /** The task queue of every simple channel of the stack, decorated
      channels before listening ones. */
  function LeafTasks<T, R, E>(ch: TaskChannel<T, R, E>): seq<seq<T>>
    reads Leaves(ch)
  {
    match ch
    case Simple(c) => [c.tasks]
    case Replaying(d, _) => LeafTasks(d)
    case Spying(d, l) => LeafTasks(d) + LeafTasks(l)
  }

  function LeafResults<T, R, E>(ch: TaskChannel<T, R, E>): seq<seq<R>>
    reads Leaves(ch)
  {
    match ch
    case Simple(c) => [c.results]
    case Replaying(d, _) => LeafResults(d)
    case Spying(d, l) => LeafResults(d) + LeafResults(l)
  }

  function LeafErrors<T, R, E>(ch: TaskChannel<T, R, E>): seq<seq<E>>
    reads Leaves(ch)
  {
    match ch
    case Simple(c) => [c.errors]
    case Replaying(d, _) => LeafErrors(d)
    case Spying(d, l) => LeafErrors(d) + LeafErrors(l)
  }

  /** Everything a layer holds: its simple channels' queues and the queues
      its queries see. */
  datatype Shown<T, R, E> = Shown(
    leafTasks: seq<seq<T>>, leafResults: seq<seq<R>>, leafErrors: seq<seq<E>>,
    tasks: seq<T>, results: seq<R>, errors: seq<E>)

  ghost function View<T, R, E>(ch: TaskChannel<T, R, E>): Shown<T, R, E>
    reads Leaves(ch), Replays(ch)
  {
    Shown(LeafTasks(ch), LeafResults(ch), LeafErrors(ch), Tasks(ch), Results(ch), Errors(ch))
  }

  /** Each queue with one more item at its end. */
  function AppendEach<X>(qs: seq<seq<X>>, x: X): (r: seq<seq<X>>)
    ensures |r| == |qs|
  {
    if qs == [] then [] else [qs[0] + [x]] + AppendEach(qs[1..], x)
  }

  /** The queues of the first `k` channels received the item, the others
      did not. */
  ghost predicate AppendedToPrefix<X>(before: seq<seq<X>>, after: seq<seq<X>>, x: X)
  {
    exists k :: 0 <= k <= |before| && after == AppendEach(before[..k], x) + before[k..]
  }

  /** Every simple channel reached by a send has room for one more result. */
  ghost predicate RoomForResult<T, R, E>(ch: TaskChannel<T, R, E>)
    reads Leaves(ch)
  {
    forall c :: c in Leaves(ch) ==> c.HasRoomForResult()
  }

  ghost predicate RoomForError<T, R, E>(ch: TaskChannel<T, R, E>)
    reads Leaves(ch)
  {
    forall c :: c in Leaves(ch) ==> c.HasRoomForError()
  }

  /** `sendTask`: every simple channel of the stack receives the task (the
      spying decorator forwards to both of its channels), the replay queues
      are untouched, and the task becomes the last one a query sees. */
  method SendTask<T, R, E>(ch: TaskChannel<T, R, E>, t: T)
    requires Valid(ch)
    modifies Leaves(ch)
    ensures LeafTasks(ch) == AppendEach(old(LeafTasks(ch)), t)
    ensures LeafResults(ch) == old(LeafResults(ch)) && LeafErrors(ch) == old(LeafErrors(ch))
    ensures Tasks(ch) == old(Tasks(ch)) + [t]
    ensures Results(ch) == old(Results(ch)) && Errors(ch) == old(Errors(ch))
    decreases ch
  {
    match ch
    case Simple(c) =>
      c.tasks := c.tasks + [t];
    case Replaying(d, _) =>
      SendTask(d, t);
    case Spying(d, l) =>
      StackAllocated(d);
      StackAllocated(l);
      ghost var listenerBefore := View(l);
      SendTask(d, t);
      assert View(l) == listenerBefore;
      ghost var decoratedAfter := View(d);
      SendTask(l, t);
      assert View(d) == decoratedAfter;
      AppendEachConcat(old(LeafTasks(d)), old(LeafTasks(l)), t);
  }

  /** `sendResult`: `add` on every simple channel, decorated channel first;
      a full bounded queue fails with IllegalStateException. The send
      succeeds exactly when every queue it reaches had room, and then each
      of them holds the result at its end; a failed send has reached the
      channels before the full one. */
  method SendResult<T, R, E>(ch: TaskChannel<T, R, E>, r: R) returns (outcome: Result<()>)
    requires Valid(ch)
    modifies Leaves(ch)
    ensures outcome.Ok? <==> old(RoomForResult(ch))
    ensures outcome.Err? ==> outcome.error == IllegalState
    ensures outcome.Ok? ==> LeafResults(ch) == AppendEach(old(LeafResults(ch)), r)
    ensures outcome.Err? ==> AppendedToPrefix(old(LeafResults(ch)), LeafResults(ch), r)
    ensures LeafTasks(ch) == old(LeafTasks(ch)) && LeafErrors(ch) == old(LeafErrors(ch))
    ensures outcome.Ok? ==> Results(ch) == old(Results(ch)) + [r]
    ensures Tasks(ch) == old(Tasks(ch)) && Errors(ch) == old(Errors(ch))
    decreases ch, 1
  {
    match ch
    case Simple(c) =>
      if c.HasRoomForResult() {
        c.results := c.results + [r];
        outcome := Ok(());
      } else {
        outcome := Err(IllegalState);
        assert LeafResults(ch) == AppendEach(old(LeafResults(ch))[..0], r) + old(LeafResults(ch))[0..];
      }
    case Replaying(d, _) =>
      outcome := SendResult(d, r);
    case Spying(d, l) =>
      outcome := SendResultToBoth(d, l, r);
  }

  /** A spying decorator sends to its decorated channel, then, when that
      succeeded, to its listening one. */
  method SendResultToBoth<T, R, E>(d: TaskChannel<T, R, E>, l: TaskChannel<T, R, E>, r: R) returns (outcome: Result<()>)
    requires Valid(Spying(d, l))
    modifies Leaves(d), Leaves(l)
    ensures outcome.Ok? <==> old(RoomForResult(Spying(d, l)))
    ensures outcome.Err? ==> outcome.error == IllegalState
    ensures outcome.Ok? ==> LeafResults(Spying(d, l)) == AppendEach(old(LeafResults(Spying(d, l))), r)
    ensures outcome.Err? ==> AppendedToPrefix(old(LeafResults(Spying(d, l))), LeafResults(Spying(d, l)), r)
    ensures LeafTasks(Spying(d, l)) == old(LeafTasks(Spying(d, l))) && LeafErrors(Spying(d, l)) == old(LeafErrors(Spying(d, l)))
    ensures outcome.Ok? ==> Results(Spying(d, l)) == old(Results(Spying(d, l))) + [r]
    ensures Tasks(Spying(d, l)) == old(Tasks(Spying(d, l))) && Errors(Spying(d, l)) == old(Errors(Spying(d, l)))
    decreases Spying(d, l), 0
  {
    StackAllocated(d);
    StackAllocated(l);
    ghost var listenerBefore := View(l);
    outcome := SendResult(d, r);
    assert View(l) == listenerBefore;
    if outcome.Ok? {
      ghost var decoratedAfter := View(d);
      outcome := SendResult(l, r);
      assert View(d) == decoratedAfter;
      if outcome.Ok? {
        AppendEachConcat(old(LeafResults(d)), old(LeafResults(l)), r);
      } else {
        AppendedAfterComplete(old(LeafResults(d)), old(LeafResults(l)), LeafResults(l), r);
      }
    } else {
      AppendedBeforeUntouched(old(LeafResults(d)), LeafResults(d), old(LeafResults(l)), r);
    }
  }

  /** `sendError`: as `sendResult`, on the error queues. */
  method SendError<T, R, E>(ch: TaskChannel<T, R, E>, e: E) returns (outcome: Result<()>)
    requires Valid(ch)
    modifies Leaves(ch)
    ensures outcome.Ok? <==> old(RoomForError(ch))
    ensures outcome.Err? ==> outcome.error == IllegalState
    ensures outcome.Ok? ==> LeafErrors(ch) == AppendEach(old(LeafErrors(ch)), e)
    ensures outcome.Err? ==> AppendedToPrefix(old(LeafErrors(ch)), LeafErrors(ch), e)
    ensures LeafTasks(ch) == old(LeafTasks(ch)) && LeafResults(ch) == old(LeafResults(ch))
    ensures outcome.Ok? ==> Errors(ch) == old(Errors(ch)) + [e]
    ensures Tasks(ch) == old(Tasks(ch)) && Results(ch) == old(Results(ch))
    decreases ch, 1
  {
    match ch
    case Simple(c) =>
      if c.HasRoomForError() {
        c.errors := c.errors + [e];
        outcome := Ok(());
      } else {
        outcome := Err(IllegalState);
        assert LeafErrors(ch) == AppendEach(old(LeafErrors(ch))[..0], e) + old(LeafErrors(ch))[0..];
      }
    case Replaying(d, _) =>
      outcome := SendError(d, e);
    case Spying(d, l) =>
      outcome := SendErrorToBoth(d, l, e);
  }

  /** A spying decorator sends to its decorated channel, then, when that
      succeeded, to its listening one. */
  method SendErrorToBoth<T, R, E>(d: TaskChannel<T, R, E>, l: TaskChannel<T, R, E>, e: E) returns (outcome: Result<()>)
    requires Valid(Spying(d, l))
    modifies Leaves(d), Leaves(l)
    ensures outcome.Ok? <==> old(RoomForError(Spying(d, l)))
    ensures outcome.Err? ==> outcome.error == IllegalState
    ensures outcome.Ok? ==> LeafErrors(Spying(d, l)) == AppendEach(old(LeafErrors(Spying(d, l))), e)
    ensures outcome.Err? ==> AppendedToPrefix(old(LeafErrors(Spying(d, l))), LeafErrors(Spying(d, l)), e)
    ensures LeafTasks(Spying(d, l)) == old(LeafTasks(Spying(d, l))) && LeafResults(Spying(d, l)) == old(LeafResults(Spying(d, l)))
    ensures outcome.Ok? ==> Errors(Spying(d, l)) == old(Errors(Spying(d, l))) + [e]
    ensures Tasks(Spying(d, l)) == old(Tasks(Spying(d, l))) && Results(Spying(d, l)) == old(Results(Spying(d, l)))
    decreases Spying(d, l), 0
  {
    StackAllocated(d);
    StackAllocated(l);
    ghost var listenerBefore := View(l);
    outcome := SendError(d, e);
    assert View(l) == listenerBefore;
    if outcome.Ok? {
      ghost var decoratedAfter := View(d);
      outcome := SendError(l, e);
      assert View(d) == decoratedAfter;
      if outcome.Ok? {
        AppendEachConcat(old(LeafErrors(d)), old(LeafErrors(l)), e);
      } else {
        AppendedAfterComplete(old(LeafErrors(d)), old(LeafErrors(l)), LeafErrors(l), e);
      }
    } else {
      AppendedBeforeUntouched(old(LeafErrors(d)), LeafErrors(d), old(LeafErrors(l)), e);
    }
  }

  lemma {:induction false} AppendEachAt<X>(qs: seq<seq<X>>, x: X, i: nat)
    requires i < |qs|
    ensures AppendEach(qs, x)[i] == qs[i] + [x]
  {
    if i > 0 {
      AppendEachAt(qs[1..], x, i - 1);
    }
  }

  lemma {:induction false} AppendEachConcat<X>(a: seq<seq<X>>, b: seq<seq<X>>, x: X)
    ensures AppendEach(a + b, x) == AppendEach(a, x) + AppendEach(b, x)
  {
    if a != [] {
      assert (a + b)[1..] == a[1..] + b;
      AppendEachConcat(a[1..], b, x);
    } else {
      assert a + b == b;
    }
  }

  /** When the first channels all received the item and a prefix of the
      remaining ones did, a prefix of the whole stack did. */
  lemma AppendedAfterComplete<X>(a: seq<seq<X>>, b: seq<seq<X>>, b': seq<seq<X>>, x: X)
    requires AppendedToPrefix(b, b', x)
    ensures AppendedToPrefix(a + b, AppendEach(a, x) + b', x)
  {
    var k :| 0 <= k <= |b| && b' == AppendEach(b[..k], x) + b[k..];
    var head, tail := b[..k], b[k..];
    var ab := a + b;
    assert ab[..|a| + k] == a + head;
    assert ab[|a| + k..] == tail;
    assert AppendEach(a + head, x) == AppendEach(a, x) + AppendEach(head, x) by {
      AppendEachConcat(a, head, x);
    }
    SeqAssoc(AppendEach(a, x), AppendEach(head, x), tail);
    assert AppendEach(a, x) + b' == AppendEach(ab[..|a| + k], x) + ab[|a| + k..];
  }

  lemma SeqAssoc<X>(p: seq<X>, q: seq<X>, r: seq<X>)
    ensures p + (q + r) == (p + q) + r
  {
  }

  /** When the first channels received the item only in part, the others
      are untouched. */
  lemma AppendedBeforeUntouched<X>(a: seq<seq<X>>, a': seq<seq<X>>, b: seq<seq<X>>, x: X)
    requires AppendedToPrefix(a, a', x)
    ensures AppendedToPrefix(a + b, a' + b, x)
  {
    var k :| 0 <= k <= |a| && a' == AppendEach(a[..k], x) + a[k..];
    assert (a + b)[..k] == a[..k];
    assert (a + b)[k..] == a[k..] + b;
  }

  /** `getTask`: the oldest task a query sees; a replaying decorator serves
      its replayed tasks before asking the decorated channel. Only the
      queried path changes, so a spy's listening channel is untouched. The
      source blocks on an empty channel; here that is excluded. */
  method GetTask<T, R, E>(ch: TaskChannel<T, R, E>) returns (t: T)
    requires Valid(ch) && Tasks(ch) != []
    modifies QueriedLeaf(ch), QueriedReplays(ch)
    ensures t == old(Tasks(ch))[0]
    ensures Tasks(ch) == old(Tasks(ch))[1..]
    ensures Results(ch) == old(Results(ch)) && Errors(ch) == old(Errors(ch))
    ensures ch.Spying? ==> View(ch.listening) == old(View(ch.listening))
    decreases ch
  {
    match ch
    case Simple(c) =>
      t := c.tasks[0];
      c.tasks := c.tasks[1..];
    case Replaying(d, q) =>
      if q.tasks != [] {
        t := q.tasks[0];
        q.tasks := q.tasks[1..];
      } else {
        t := GetTask(d);
      }
    case Spying(d, l) =>
      StackAllocated(l);
      t := GetTask(d);
  }

  /** `drainTasks`, consumed to the end: every task a query sees, in order,
      after which there is none. */
  method DrainTasks<T, R, E>(ch: TaskChannel<T, R, E>) returns (items: seq<T>)
    requires Valid(ch)
    modifies QueriedLeaf(ch), QueriedReplays(ch)
    ensures items == old(Tasks(ch)) && Tasks(ch) == []
    ensures Results(ch) == old(Results(ch)) && Errors(ch) == old(Errors(ch))
    ensures ch.Spying? ==> View(ch.listening) == old(View(ch.listening))
    decreases ch
  {
    match ch
    case Simple(c) =>
      items := c.tasks;
      c.tasks := [];
    case Replaying(d, q) =>
      var replayed := q.tasks;
      q.tasks := [];
      var rest := DrainTasks(d);
      items := replayed + rest;
    case Spying(d, l) =>
      StackAllocated(l);
      items := DrainTasks(d);
  }

  /** `drainResults`, consumed to the end: the remaining replayed results,
      then the decorated channel's; the replay is emitted only once. */
  method DrainResults<T, R, E>(ch: TaskChannel<T, R, E>) returns (items: seq<R>)
    requires Valid(ch)
    modifies QueriedLeaf(ch), QueriedReplays(ch)
    ensures items == old(Results(ch)) && Results(ch) == []
    ensures Tasks(ch) == old(Tasks(ch)) && Errors(ch) == old(Errors(ch))
    ensures ch.Spying? ==> View(ch.listening) == old(View(ch.listening))
    decreases ch
  {
    match ch
    case Simple(c) =>
      items := c.results;
      c.results := [];
    case Replaying(d, q) =>
      var replayed := q.results;
      q.results := [];
      var rest := DrainResults(d);
      items := replayed + rest;
    case Spying(d, l) =>
      StackAllocated(l);
      items := DrainResults(d);
  }

  method DrainErrors<T, R, E>(ch: TaskChannel<T, R, E>) returns (items: seq<E>)
    requires Valid(ch)
    modifies QueriedLeaf(ch), QueriedReplays(ch)
    ensures items == old(Errors(ch)) && Errors(ch) == []
    ensures Tasks(ch) == old(Tasks(ch)) && Results(ch) == old(Results(ch))
    ensures ch.Spying? ==> View(ch.listening) == old(View(ch.listening))
    decreases ch
  {
    match ch
    case Simple(c) =>
      items := c.errors;
      c.errors := [];
    case Replaying(d, q) =>
      var replayed := q.errors;
      q.errors := [];
      var rest := DrainErrors(d);
      items := replayed + rest;
    case Spying(d, l) =>
      StackAllocated(l);
      items := DrainErrors(d);
  }

  // Creation

  lemma StackAllocated<T, R, E>(ch: TaskChannel<T, R, E>)
    ensures forall q :: q in Replays(ch) ==> allocated(q)
    ensures forall c :: c in Leaves(ch) ==> allocated(c)
  {
    match ch
    case Simple(_) =>
    case Replaying(d, _) => StackAllocated(d);
    case Spying(d, l) => StackAllocated(d); StackAllocated(l);
  }

  /** `namedAndUnbounded`. */
  method NamedAndUnbounded<T, R, E>(taskName: string) returns (ch: TaskChannel<T, R, E>)
    ensures ch.Simple? && fresh(ch.channel) && Valid(ch)
    ensures ch.channel.resultCapacity == 0 && ch.channel.errorCapacity == 0
    ensures TaskName(ch) == taskName && Tasks(ch) == [] && Results(ch) == [] && Errors(ch) == []
  {
    var c := new SimpleTaskChannel(taskName, 0, 0);
    ch := Simple(c);
  }

  /** `namedAndBounded(name, capacity)`: the same capacity for results and
      errors. */
  method NamedAndBounded<T, R, E>(taskName: string, capacity: nat) returns (ch: TaskChannel<T, R, E>)
    ensures ch.Simple? && fresh(ch.channel) && Valid(ch)
    ensures ch.channel.resultCapacity == capacity && ch.channel.errorCapacity == capacity
    ensures TaskName(ch) == taskName && Tasks(ch) == [] && Results(ch) == [] && Errors(ch) == []
  {
    var c := new SimpleTaskChannel(taskName, capacity, capacity);
    ch := Simple(c);
  }

  /** `namedAndBounded(name, resultCapacity, errorCapacity)`. */
  method NamedAndBoundedSeparately<T, R, E>(taskName: string, resultCapacity: nat, errorCapacity: nat)
    returns (ch: TaskChannel<T, R, E>)
    ensures ch.Simple? && fresh(ch.channel) && Valid(ch)
    ensures ch.channel.resultCapacity == resultCapacity && ch.channel.errorCapacity == errorCapacity
    ensures TaskName(ch) == taskName && Tasks(ch) == [] && Results(ch) == [] && Errors(ch) == []
  {
    var c := new SimpleTaskChannel(taskName, resultCapacity, errorCapacity);
    ch := Simple(c);
  }

  /** The constructors of the oldest channel, which has no name:
      `Channel(resultCapacity, errorCapacity)`, `Channel(capacity)` is
      `Unnamed(capacity, capacity)` and `Channel()` is `Unnamed(0, 0)`. */
  method Unnamed<T, R, E>(resultCapacity: nat, errorCapacity: nat) returns (ch: TaskChannel<T, R, E>)
    ensures ch.Simple? && fresh(ch.channel) && Valid(ch)
    ensures ch.channel.resultCapacity == resultCapacity && ch.channel.errorCapacity == errorCapacity
    ensures TaskName(ch) == [] && Tasks(ch) == [] && Results(ch) == [] && Errors(ch) == []
  {
    var c := new SimpleTaskChannel([], resultCapacity, errorCapacity);
    ch := Simple(c);
  }

  /** `spy(listening)`: queries see the decorated channel; sends reach the
      decorated channel's queues and then the listening channel's. */
  method Spy<T, R, E>(ch: TaskChannel<T, R, E>, listening: TaskChannel<T, R, E>) returns (r: TaskChannel<T, R, E>)
    requires Valid(ch) && Valid(listening)
    requires Leaves(ch) !! Leaves(listening) && Replays(ch) !! Replays(listening)
    ensures r.Spying? && r.decorated == ch && r.listening == listening && Valid(r)
    ensures Tasks(r) == Tasks(ch) && Results(r) == Results(ch) && Errors(r) == Errors(ch)
    ensures TaskName(r) == TaskName(ch)
    ensures LeafTasks(r) == LeafTasks(ch) + LeafTasks(listening)
    ensures LeafResults(r) == LeafResults(ch) + LeafResults(listening)
    ensures LeafErrors(r) == LeafErrors(ch) + LeafErrors(listening)
  {
    r := Spying(ch, listening);
  }

  /** A task sent to a channel is taken after every task already waiting. */
  method SendTaskThenGetTask<T, R, E>(ch: TaskChannel<T, R, E>, t: T) returns (first: T)
    requires Valid(ch)
    modifies Leaves(ch), QueriedReplays(ch)
    ensures first == (old(Tasks(ch)) + [t])[0]
    ensures Tasks(ch) == (old(Tasks(ch)) + [t])[1..]
    ensures old(Tasks(ch)) == [] ==> first == t && Tasks(ch) == []
  {
    StackAllocated(ch);
    SendTask(ch, t);
    first := GetTask(ch);
  }

  /** A result that fits is drained after every result already waiting,
      and the drain leaves the results empty. */
  method SendResultThenDrain<T, R, E>(ch: TaskChannel<T, R, E>, r: R) returns (outcome: Result<()>, items: seq<R>)
    requires Valid(ch)
    modifies Leaves(ch), QueriedReplays(ch)
    ensures outcome.Ok? <==> old(RoomForResult(ch))
    ensures outcome.Ok? ==> items == old(Results(ch)) + [r]
    ensures Results(ch) == [] && Tasks(ch) == old(Tasks(ch)) && Errors(ch) == old(Errors(ch))
  {
    StackAllocated(ch);
    outcome := SendResult(ch, r);
    items := DrainResults(ch);
  }

  /** The same for errors; the result queue is not touched. */
  method SendErrorThenDrain<T, R, E>(ch: TaskChannel<T, R, E>, e: E) returns (outcome: Result<()>, items: seq<E>)
    requires Valid(ch)
    modifies Leaves(ch), QueriedReplays(ch)
    ensures outcome.Ok? <==> old(RoomForError(ch))
    ensures outcome.Ok? ==> items == old(Errors(ch)) + [e]
    ensures Errors(ch) == [] && Tasks(ch) == old(Tasks(ch)) && Results(ch) == old(Results(ch))
  {
    StackAllocated(ch);
    outcome := SendError(ch, e);
    items := DrainErrors(ch);
  }

  /** `replaying(tasks, results, errors)`: the given items are seen before
      the channel's own. */
  method Replay<T, R, E>(ch: TaskChannel<T, R, E>, tasks: seq<T>, results: seq<R>, errors: seq<E>)
    returns (r: TaskChannel<T, R, E>)
    requires Valid(ch)
    ensures r.Replaying? && r.decorated == ch && fresh(r.replay) && Valid(r)
    ensures r.replay.tasks == tasks && r.replay.results == results && r.replay.errors == errors
    ensures Tasks(r) == tasks + Tasks(ch)
    ensures Results(r) == results + Results(ch)
    ensures Errors(r) == errors + Errors(ch)
  {
    StackAllocated(ch);
    ghost var replays := Replays(ch);
    var q := new ReplayQueues(tasks, results, errors);
    assert q !in replays;
    r := Replaying(ch, q);
  }

  /** `replaying(results, errors)`: no tasks are replayed. */
  method ReplayResultsAndErrors<T, R, E>(ch: TaskChannel<T, R, E>, results: seq<R>, errors: seq<E>)
    returns (r: TaskChannel<T, R, E>)
    requires Valid(ch)
    ensures r.Replaying? && r.decorated == ch && fresh(r.replay) && Valid(r)
    ensures r.replay.tasks == [] && r.replay.results == results && r.replay.errors == errors
    ensures Tasks(r) == Tasks(ch)
    ensures Results(r) == results + Results(ch)
    ensures Errors(r) == errors + Errors(ch)
  {
    r := Replay(ch, [], results, errors);
  }

  /** With nothing left to replay, a replaying channel shows exactly what
      the decorated channel shows, under the same name. */
  lemma EmptyReplayIsTransparent<T, R, E>(d: TaskChannel<T, R, E>, q: ReplayQueues<T, R, E>)
    requires q.tasks == [] && q.results == [] && q.errors == []
    ensures var ch := Replaying(d, q);
      && Tasks(ch) == Tasks(d) && Results(ch) == Results(d) && Errors(ch) == Errors(d)
      && NrOfWaitingTasks(ch) == NrOfWaitingTasks(d) && TaskName(ch) == TaskName(d)
  {
  }
}
