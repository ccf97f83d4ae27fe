/** Option and Result: the explicit form of Python's `None` returns and raised exceptions. */
module Wrappers {

  datatype Option<+T> = None | Some(value: T) {

    /** The `Result` that carries this value, or `error` when there is none. */
    function ToResult<E>(error: E): Result<T, E> {
      match this
      case Some(v) => Success(v)
      case None => Failure(error)
    }
  }

  datatype Result<+T, +E> = Success(value: T) | Failure(error: E) {

    predicate IsFailure() {
      Failure?
    }

    function PropagateFailure<U>(): Result<U, E>
      requires Failure?
    {
      Failure(error)
    }

    function Extract(): T
      requires Success?
    {
      value
    }
  }

  /** The result of a step that yields no value: it passed, or it raised `error`. */
  datatype Outcome<+E> = Pass | Fail(error: E)

  /**
   * `acc` followed by the list in `r`, or the error of `r`: what a loop that has
   * already appended `acc` ends with when the rest of its input yields `r`.
   */
  function Prepend<T, E>(acc: seq<T>, r: Result<seq<T>, E>): Result<seq<T>, E>
  {
    match r
    case Success(rest) => Success(acc + rest)
    case Failure(e) => Failure(e)
  }

  lemma PrependNothing<T, E>(r: Result<seq<T>, E>)
    ensures Prepend([], r) == r
  {
    if r.Success? {
      assert [] + r.value == r.value;
    }
  }

  /** Appending one more item to the accumulator moves it out of the remainder. */
  lemma PrependOne<T, E>(acc: seq<T>, x: T, r: Result<seq<T>, E>)
    ensures Prepend(acc, Prepend([x], r)) == Prepend(acc + [x], r)
  {
    if r.Success? {
      assert acc + ([x] + r.value) == (acc + [x]) + r.value;
    }
  }

  /**
   * Reads every item in order, collecting the values, or stops at the first item that
   * fails with its error: what a loop that appends each item's value, and lets an
   * exception escape, computes.
   */
  function Collect<A, T, E>(read: A -> Result<T, E>, items: seq<A>): Result<seq<T>, E>
  {
    if |items| == 0 then Success([])
    else
      var first :- read(items[0]);
      var rest :- Collect(read, items[1..]);
      Success([first] + rest)
  }

  /** The collection from item `i` on: the error of item `i`, or its value before the rest. */
  lemma CollectAt<A, T, E>(read: A -> Result<T, E>, items: seq<A>, i: nat)
    requires i < |items|
    ensures Collect(read, items[i..])
         == match read(items[i])
            case Failure(e) => Failure(e)
            case Success(x) => Prepend([x], Collect(read, items[i + 1..]))
  {
    assert items[i..][1..] == items[i + 1..];
  }

  /** A collection that succeeds holds exactly one value per item, each the item's own. */
  lemma CollectEntries<A, T, E>(read: A -> Result<T, E>, items: seq<A>)
    requires Collect(read, items).Success?
    ensures |Collect(read, items).value| == |items|
    ensures forall i :: 0 <= i < |items| ==> read(items[i]) == Success(Collect(read, items).value[i])
  {
    CollectLength(read, items);
    forall i | 0 <= i < |items|
      ensures read(items[i]) == Success(Collect(read, items).value[i])
    {
      CollectEntry(read, items, i);
    }
  }

  lemma {:induction false} CollectLength<A, T, E>(read: A -> Result<T, E>, items: seq<A>)
    requires Collect(read, items).Success?
    ensures |Collect(read, items).value| == |items|
  {
    if |items| > 0 {
      CollectLength(read, items[1..]);
    }
  }

  lemma {:induction false} CollectEntry<A, T, E>(read: A -> Result<T, E>, items: seq<A>, i: nat)
    requires Collect(read, items).Success? && i < |items|
    ensures i < |Collect(read, items).value|
    ensures read(items[i]) == Success(Collect(read, items).value[i])
  {
    if i > 0 {
      CollectEntry(read, items[1..], i - 1);
      assert items[1..][i - 1] == items[i];
    }
  }

  /** A collection fails exactly when some item fails. */
  lemma {:induction false} CollectFails<A, T, E>(read: A -> Result<T, E>, items: seq<A>)
    ensures Collect(read, items).Failure? <==> exists i :: 0 <= i < |items| && read(items[i]).Failure?
  {
    if |items| > 0 {
      CollectFails(read, items[1..]);
      assert forall i :: 1 <= i < |items| ==> items[i] == items[1..][i - 1];
    }
  }
}
