/** Optional values and pass/fail outcomes, used where the source stores `None`
    or raises an exception. */
module Outcomes {

  /** A value that may be unset (Python's `None`). */
  datatype Option<+T> = None | Some(value: T)

  /** The result of a check that either returns normally or raises `error`. */
  datatype Outcome<+E> = Pass | Fail(error: E)
}
