// What the models share: the source's thrown errors and nulls as values, and a minimum.
module Outcomes {
  datatype Option<+T> = None | Some(value: T)

  datatype Result<+T, +E> = Ok(value: T) | Err(error: E)

  function Least(a: int, b: int): int {
    if a < b then a else b
  }
}
