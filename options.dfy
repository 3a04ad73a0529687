/** An optional value, used for SQL NULLs, for `float(...)` that may raise,
    and for lookups that may find nothing. */
module Options {

  datatype Option<T> = None | Some(value: T) {

    /** The wrapped value, or `default` when there is none (SQL `COALESCE`). */
    function GetOr(default: T): T
    {
      match this
      case Some(v) => v
      case None => default
    }
  }
}
