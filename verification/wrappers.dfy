/** The optional-value datatype the model uses for lookups that may miss. */
module Wrappers {

  datatype Option<+T> = None | Some(value: T) {

    /** The value held in Some, or `default` if None */
    function GetOr(default: T): T {
      match this
      case Some(v) => v
      case None => default
    }
  }
}
