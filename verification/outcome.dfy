/** Optional values and fallible results shared by every module of the model.
    A Python exception, a rejected JavaScript promise or an HTTP error status
    becomes an `Err` carrying the human-readable detail. */
module Outcome {

  datatype Option<+T> = None | Some(value: T) {

    function GetOr(default: T): T {
      match this
      case Some(v) => v
      case None => default
    }
  }

  datatype Result<+T> = Ok(value: T) | Err(error: string) {

    predicate IsFailure() {
      Err?
    }

    function PropagateFailure<U>(): Result<U>
      requires Err?
    {
      Err(error)
    }

    function Extract(): T
      requires Ok?
    {
      value
    }
  }

  /** JavaScript/Python truthiness of an optional string: absent and "" are both falsy. */
  predicate Truthy(o: Option<string>) {
    o.Some? && o.value != ""
  }
}
