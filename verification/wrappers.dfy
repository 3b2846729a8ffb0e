/** Failure-compatible option type used across the model. */
module Wrappers {

  /** `None` stands for JavaScript's `undefined`/`null`, `Some(v)` for a present value. */
  datatype Option<+T> = None | Some(value: T) {

    /** Returns the value, or `default` when absent. */
    function GetOr(default: T): T {
      match this
      case Some(v) => v
      case None => default
    }
  }

  /** JavaScript truthiness of an optional string: present and non-empty. */
  predicate Truthy(o: Option<string>) {
    o.Some? && o.value != ""
  }

  /** JavaScript `a || b` on optional strings. */
  function OrElse(a: Option<string>, b: Option<string>): (r: Option<string>)
    ensures Truthy(a) ==> r == a
    ensures !Truthy(a) ==> r == b
  {
    if Truthy(a) then a else b
  }

  /** The result of a call into code outside the model: the value it returned, or the fact that it threw. */
  datatype Outcome<+T> = Success(data: T) | Failure
}
