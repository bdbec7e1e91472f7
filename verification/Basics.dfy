/** Shared vocabulary: optional values, outcomes, the ends of a sequence, and time units. */
module Basics {

  datatype Option<+T> = None | Some(value: T)

  datatype Result<+T, +E> = Ok(value: T) | Err(error: E)

  function Front<T>(s: seq<T>): seq<T>
    requires s != []
  { s[..|s| - 1] }

  function Last<T>(s: seq<T>): T
    requires s != []
  { s[|s| - 1] }

  /** Time spans in nanoseconds. */
  const MILLISECOND := 1_000_000
  const SECOND := 1000 * MILLISECOND
  const MINUTE := 60 * SECOND
}
