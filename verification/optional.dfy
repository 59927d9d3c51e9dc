/** A value that may be absent: a Python `None`, a dictionary key that is not
    there, or a session-state entry that has not been written yet. */
module Optional {

  datatype Option<+T> = None | Some(value: T) {

    /** The carried value, or `default` when absent (Python's `d.get(k, default)`). */
    function GetOr(default: T): T {
      match this
      case Some(v) => v
      case None => default
    }
  }
}
