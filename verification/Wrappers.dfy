// The two outcome types shared by every module of the model.
module Wrappers {

  // An optional value.
  datatype Option<+T> = None | Some(value: T)

  // A value, or the error a caller gets instead of it.
  datatype Result<+T, +E> = Ok(value: T) | Err(error: E) {

    predicate IsFailure() {
      Err?
    }

    function PropagateFailure<U>(): Result<U, E>
      requires Err?
    {
      Err(error)
    }

    function Extract(): T
      requires Ok?
    {
      value
    }
  }
}
