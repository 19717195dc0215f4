/** Option type shared by every module of the model: `None` stands for Python's `None`
    and for a pandas missing value (NaN / NaT). */
module Base {

  datatype Option<+T> = None | Some(value: T) {

    /** The wrapped value, or `default` when there is none. */
    function GetOr(default: T): T {
      match this
      case Some(v) => v
      case None => default
    }
  }
}
