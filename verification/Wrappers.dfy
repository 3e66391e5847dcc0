/** Result types shared by the model. */
module Wrappers {

  datatype Option<+T> = None | Some(value: T)

  datatype Result<+T, +E> = Ok(value: T) | Err(error: E)

  /** What a query answers: the object, "there is nothing at this position", or "known to exist, but
      we do not have it". */
  datatype QueryResult<+T> = Found(value: T) | NotFound | Missing

  /** An entry known to exist as the answer to a query. */
  function AsResult<T>(o: Option<T>): QueryResult<T> { if o.Some? then Found(o.value) else Missing }

  function Min(a: int, b: int): int { if a <= b then a else b }

  function Max(a: int, b: int): int { if a >= b then a else b }

  /** Unsigned subtraction that stops at zero. */
  function SaturatingSub(a: nat, b: nat): nat { if a <= b then 0 else a - b }
}
