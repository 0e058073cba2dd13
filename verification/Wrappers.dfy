/** What the component models share: a missing value, a raised error, and the lesser and greater of two numbers. */
module Wrappers {
  datatype Option<+T> = None | Some(value: T)

  /** `Err` stands for the exception a component raises; the reason is kept for readers only. */
  datatype Result<+T> = Ok(value: T) | Err(reason: string) {
    predicate IsFailure() {
      Err?
    }

    function PropagateFailure<U>(): Result<U>
      requires Err?
    {
      Err(reason)
    }

    function Extract(): T
      requires Ok?
    {
      value
    }
  }

  function Min(a: int, b: int): int {
    if a < b then a else b
  }

  function Max(a: int, b: int): int {
    if a < b then b else a
  }
}
