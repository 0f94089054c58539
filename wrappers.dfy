/** Small value wrappers shared by the modules of the pipeline model. */
module Wrappers {

  /** A value that may be absent (Python's `None`). */
  datatype Option<+T> = None | Some(value: T)

  /** The present value as a one-element sequence, or the empty sequence. */
  function Listed<T>(o: Option<T>): seq<T> {
    if o.Some? then [o.value] else []
  }

  /** Concatenation of sequences is associative. */
  lemma AppendAssoc<T>(a: seq<T>, b: seq<T>, c: seq<T>)
    ensures (a + b) + c == a + (b + c)
  {
  }

  /** The result of a stage that either finishes or is aborted by an exception naming an item. */
  datatype Outcome<+E> = Pass | Fail(error: E)
}
