/** Failure-carrying result types: every exception the configuration loader
    throws becomes an error value carrying the same message. */
module Wrappers {

  datatype Option<+T> = None | Some(value: T)

  datatype Result<+T, +E> = Ok(value: T) | Err(error: E)

  /** The result of a step that produces no value (a `void` function that may throw). */
  datatype Outcome<+E> = Pass | Fail(error: E)

  /** A method's result paired with the state it leaves, for comparison with
      a function that returns both; after an error the state is not compared. */
  function Paired<T, S, E>(r: Result<T, E>, s: S): Result<(T, S), E> {
    match r
    case Ok(v) => Ok((v, s))
    case Err(e) => Err(e)
  }
}
