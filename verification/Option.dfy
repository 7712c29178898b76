/** The value a C function returns through a pointer that may be null. */
module Option {
  datatype Option<+T> = None | Some(value: T) {
    function GetOr(default: T): T {
      if Some? then value else default
    }
  }
}
