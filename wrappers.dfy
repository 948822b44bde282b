/** The optional value used wherever the C code works with a pointer that may be NULL
    or with a `sscanf` conversion that may match nothing. */
module Wrappers {

  datatype Option<+T> = None | Some(value: T) {

    /** The value held, or `default` when there is none. */
    function GetOr(default: T): T
    {
      match this
      case Some(v) => v
      case None => default
    }
  }
}
