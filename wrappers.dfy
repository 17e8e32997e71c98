/** Optional values: the model's stand-in for JavaScript's `null`, `undefined` and `NaN`. */
module Wrappers {

  datatype Option<+T> = None | Some(value: T) {

    /** The sequence holding the value, if any. */
    function ToSeq(): seq<T> {
      match this
      case Some(v) => [v]
      case None => []
    }
  }
}
