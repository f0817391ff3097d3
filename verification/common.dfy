/**
  Small shared vocabulary: optional values, the errors JavaScript code throws,
  and the outcome of a call that either returns or throws.
 */
module Common {

  /** `None` stands for JavaScript's `null`/`undefined`, `Some` for a present value. */
  datatype Option<+T> = None | Some(value: T) {

    /** The value, or `default` when absent. */
    function GetOr(default: T): T {
      match this
      case Some(v) => v
      case None => default
    }
  }

  /**
    A thrown JavaScript error, reduced to its `message`. The empty string stands
    both for an empty and for a missing message: the code only ever tests the
    message for truthiness, and both are falsy.
   */
  datatype JsError = JsError(message: string)

  /** What an (awaited) call did: returned a value or threw an error. */
  datatype Outcome<+T> = Returned(value: T) | Threw(error: JsError)
}
