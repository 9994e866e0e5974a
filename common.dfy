/** Small value wrappers shared by the model. */
module Common {

  /** Swift's `T?`: a value or nothing. */
  datatype Option<+T> = None | Some(value: T) {

    /** Swift's nil-coalescing `self ?? default`. */
    function GetOr(default: T): T {
      match this
      case Some(v) => v
      case None => default
    }
  }

  /**
   * The outcome of running a piece of Swift code that may stop the
   * process with a runtime trap (an invalid range, for instance):
   * either it completes with a value or it traps.
   */
  datatype Outcome<+T> = Done(value: T) | Trapped
}
