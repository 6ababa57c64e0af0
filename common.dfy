/** Values shared by every module: optional values (JavaScript's null and
    undefined) and the reply of the hosted database, which the model treats
    as an oracle that either hands back a value or reports an error. */
module Common {

  /** `None` stands for a JavaScript `null` or `undefined`. */
  datatype Option<+T> = None | Some(value: T) {
    function GetOr(default: T): T {
      match this
      case Some(v) => v
      case None => default
    }
  }

  /** The outcome of one call to the hosted database: the row(s) it returned,
      or the `error` it reported. */
  datatype Reply<+T> = Ok(value: T) | Err
}
