/** Shared vocabulary: optional values, results, and how one step of host work can end. */
module Common {

  datatype Option<+T> = None | Some(value: T)

  datatype Result<+T, +E> = Ok(value: T) | Err(error: E)

  /** How one primitive step of the worker ends.
      `Raised` is a Python exception, which a handler may catch.
      `Died` is the death of the worker process: no handler runs after it. */
  datatype Outcome = Done | Raised | Died

  /** Any input or output operation may succeed, raise, or be the last thing the worker does. */
  method Io() returns (o: Outcome)
  {
    o := *;
  }

  lemma ConcatAssociates<T>(a: seq<T>, b: seq<T>, c: seq<T>)
    ensures a + (b + c) == (a + b) + c
  {
  }
}
