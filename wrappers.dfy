/** Option and Result values, used for nullable columns, lookups that may find
    nothing, and remote calls that may fail. */
module Wrappers {

  datatype Option<+T> = None | Some(value: T)

  datatype Result<+R, +E> = Success(value: R) | Failure(error: E)

  /** JavaScript's `x || 0` on a nullable number column: null and undefined read as 0. */
  function OrZero(x: Option<int>): int
  {
    if x.Some? then x.value else 0
  }

  /** JavaScript's `x || y` on numbers: 0 is falsy, so it falls through to `y`. */
  function OrElse(x: int, y: int): int
  {
    if x != 0 then x else y
  }
}
