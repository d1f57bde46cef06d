/** A value that may be absent: the model's stand-in for JavaScript's
    `undefined` result of `Array.prototype.find` and the `-1` of `findIndex`. */
module Optional {

  datatype Option<+T> = None | Some(value: T) {

    /** Returns the wrapped value, or `default` when there is none. */
    function GetOr(default: T): T
    {
      match this
      case Some(v) => v
      case None => default
    }
  }
}
