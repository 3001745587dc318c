/** Failure-compatible wrappers shared by every module: an optional value and
    the result of an operation that can throw one of the Java exceptions the
    system raises. */
module Wrappers {

  datatype Option<+T> = None | Some(value: T)

  /** The exceptions the modelled code throws, by class; `StackOverflow`
      stands for the `StackOverflowError` of a recursion without end. */
  datatype Error =
    | IllegalState
    | IllegalArgument
    | IndexOutOfBounds
    | NoSuchElement
    | MissingFormatArgument
    | UnknownFormatConversion
    | NullPointer
    | StackOverflow

  datatype Result<+T> = Ok(value: T) | Err(error: Error) {
    predicate IsFailure() { Err? }

    function PropagateFailure<U>(): Result<U>
      requires Err?
    {
      Err(error)
    }

    function Extract(): T
      requires Ok?
    {
      value
    }
  }

  /** Runs through the results in order and stops at the first failure, as a
      stream that maps with a throwing function does. */
  function CollectResults<T>(rs: seq<Result<T>>): (r: Result<seq<T>>)
    ensures r.Ok? <==> forall i :: 0 <= i < |rs| ==> rs[i].Ok?
    ensures r.Ok? ==> |r.value| == |rs| && forall i :: 0 <= i < |rs| ==> r.value[i] == rs[i].value
    ensures r.Err? ==> exists i :: 0 <= i < |rs| && rs[i] == Err(r.error)
  {
    if rs == [] then Ok([])
    else if rs[0].Err? then Err(rs[0].error)
    else
      match CollectResults(rs[1..])
      case Err(e) => Err(e)
      case Ok(tail) => Ok([rs[0].value] + tail)
  }

  /** A stream's `map` over a list, in order. */
  function MapSeq<A, B>(xs: seq<A>, f: A -> B): (r: seq<B>)
    ensures |r| == |xs| && forall i :: 0 <= i < |xs| ==> r[i] == f(xs[i])
  {
    seq(|xs|, i requires 0 <= i < |xs| => f(xs[i]))
  }

  /** The first failure in the list is the one reported. */
  lemma {:induction false} CollectFirstError<T>(rs: seq<Result<T>>, i: nat)
    requires i < |rs| && rs[i].Err?
    requires forall j :: 0 <= j < i ==> rs[j].Ok?
    ensures CollectResults(rs) == Err(rs[i].error)
    decreases i
  {
    if i > 0 {
      CollectFirstError(rs[1..], i - 1);
    }
  }
}
