/** Failure-carrying values shared by every module of the model. */
module Wrappers {
  datatype Option<+T> = None | Some(value: T)

  datatype Result<+T, +E> = Success(value: T) | Failure(error: E) {
    predicate IsFailure() {
      Failure?
    }

    function PropagateFailure<U>(): Result<U, E>
      requires Failure?
    {
      Failure(error)
    }

    function Extract(): T
      requires Success?
    {
      value
    }
  }

  /** A list whose first part is `done` and whose rest may still fail. */
  function Prefixed<T, E>(done: seq<T>, rest: Result<seq<T>, E>): Result<seq<T>, E> {
    match rest
    case Success(more) => Success(done + more)
    case Failure(error) => Failure(error)
  }

  lemma PrefixedNil<T, E>(rest: Result<seq<T>, E>)
    ensures Prefixed([], rest) == rest
  {
    if rest.Success? {
      assert [] + rest.value == rest.value;
    }
  }

  lemma PrefixedSnoc<T, E>(done: seq<T>, next: T, rest: Result<seq<T>, E>)
    ensures Prefixed(done, Prefixed([next], rest)) == Prefixed(done + [next], rest)
  {
    if rest.Success? {
      assert done + ([next] + rest.value) == (done + [next]) + rest.value;
    }
  }
}
