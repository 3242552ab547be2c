/** Option and Result, the shapes the model uses for Python's None and for raised exceptions. */
module Wrappers {

  /** A value that may be absent: Python's `None` versus a present value. */
  datatype Option<T> = None | Some(value: T)

  /** The outcome of a step that may raise: the value it returns, or the exception it raises. */
  datatype Result<T, E> = Success(value: T) | Failure(error: E)

  /** Concatenation regroups freely; stated once so that callers need not prove
      sequence equality element by element. */
  lemma AppendAssoc<T>(a: seq<T>, b: seq<T>, c: seq<T>)
    ensures (a + b) + c == a + (b + c)
  {
  }
}
