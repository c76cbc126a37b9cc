/** Shared helper types: the "value or undefined" shape used across the model. */
module Common {

  /** A present value, or JavaScript's `undefined`/`null`. */
  datatype Option<+T> = None | Some(value: T) {

    /** The value, or `default` when absent. The model uses it for JavaScript's `x || default`
        where the two operators agree: a present array is truthy, and a missing or NaN time
        is already `None`. */
    function GetOr(default: T): T {
      match this
      case Some(v) => v
      case None => default
    }
  }
}
