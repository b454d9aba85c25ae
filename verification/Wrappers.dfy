/** Result types shared by the modules. */
module Wrappers {
  import opened Sequences

  datatype Option<+T> = None | Some(value: T)

  /** Result of an operation of the program that may throw. */
  datatype Result<+T> = Ok(value: T) | Err(message: string)

  /** The result of a loop that has already read `xs`. */
  ghost function Combined<T>(xs: seq<T>, r: Result<seq<T>>): Result<seq<T>> {
    match r case Err(m) => Err(m) case Ok(more) => Ok(xs + more)
  }

  lemma CombinedNothing<T>(r: Result<seq<T>>)
    ensures Combined([], r) == r
  {
    if r.Ok? { assert [] + r.value == r.value; }
  }

  lemma CombinedStep<T>(xs: seq<T>, x: T, r: Result<seq<T>>)
    ensures Combined(xs + [x], r) == Combined(xs, match r case Err(m) => Err(m) case Ok(more) => Ok([x] + more))
  {
    if r.Ok? { Assoc(xs, [x], r.value); }
  }
}
