/** Failure-carrying datatypes shared by the whole model.
    - Option<T> stands for TypeScript's optional properties (`x?: T`) and `undefined`.
    - Completion<T> stands for a JavaScript call that either returns a value or throws
      an error; only the thrown error's `message` is kept.
 */
module Wrappers {

  datatype Option<+T> = None | Some(value: T) {

    /** The value, or `default` when absent (JavaScript's `x ?? default`). */
    function GetOr(default: T): T {
      match this
      case Some(v) => v
      case None => default
    }
  }

  datatype Completion<+T> = Returned(value: T) | Threw(message: string)
}
