/** The Java `null`-or-value convention, as a datatype. */
module Options {

  /** `None` stands for Java `null` (or an absent map entry); `Some(v)` for a present value. */
  datatype Option<+T> = None | Some(value: T) {

    /** The value, or `default` when absent. */
    function GetOr(default: T): T {
      match this
      case Some(v) => v
      case None => default
    }
  }
}
