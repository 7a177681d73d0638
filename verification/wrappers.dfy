/** Option and Result, used for absent configuration values and for the
    exceptions the integration lets escape. */
module Wrappers {

  datatype Option<+T> = None | Some(value: T)

  datatype Result<+T, +E> = Ok(value: T) | Err(error: E) {
    predicate IsFailure() {
      Err?
    }

    function PropagateFailure<U>(): Result<U, E>
      requires Err?
    {
      Err(error)
    }

    function Extract(): T
      requires Ok?
    {
      value
    }
  }

  /** Python truthiness of an optional string or list option: absent (None)
      and empty are both falsy. */
  predicate Truthy<T>(o: Option<seq<T>>) {
    o.Some? && o.value != []
  }
}
