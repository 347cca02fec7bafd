/** The nullable results of the source (`FirstOrDefault` returning null,
    `float?` sensor values) as an Option. */
module Wrappers {

  datatype Option<+T> = None | Some(value: T) {

    /** `GetValueOrDefault`: the value, or the given default when absent. */
    function GetOr(default: T): T {
      match this
      case Some(v) => v
      case None => default
    }
  }
}
