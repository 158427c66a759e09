/**
 * Failure-compatible result types shared by every stage of the pipeline, and
 * two facts about sequence concatenation that the proofs use.
 */
module Wrappers {

  datatype Option<+T> = None | Some(value: T)

  /** Either a value or the error a stage throws in place of returning it. */
  datatype Result<+T, +E> = Ok(value: T) | Err(error: E) {
    predicate IsFailure() {
      Err?
    }

    function PropagateFailure<U>(): Result<U, E>
      requires Err?
    {
      Err(error)
    }

    function Extract(): T
      requires Ok?
    {
      value
    }
  }

  /** Concatenation regroups. */
  lemma Regroup<T>(a: seq<T>, b: seq<T>, c: seq<T>)
    ensures a + b + c == a + (b + c)
  {
  }

  /** The empty sequence is neutral on either side. */
  lemma NoText<T>(a: seq<T>)
    ensures a + [] == a && [] + a == a
  {
  }
}
