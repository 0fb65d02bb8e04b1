/** The optional value that stands for Go's `(value, ok)` pairs and nil pointers. */
module Options {
  datatype Option<+T> = None | Some(value: T) {
    function GetOr(default: T): T { if Some? then value else default }
  }
}
