/** The optional-value datatype the rest of the model uses for JavaScript's
    `undefined` results (a failed `Array.prototype.find`, a missing key). */
module Wrappers {

  datatype Option<+T> = None | Some(value: T) {

    /** The wrapped value, or `default` when there is none (the `x || d` idiom). */
    function GetOr(default: T): T {
      match this
      case Some(v) => v
      case None => default
    }
  }
}
