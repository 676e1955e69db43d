/** The optional value used wherever the charts read something that may be absent. */
module Wrappers {

  datatype Option<+T> = None | Some(value: T) {

    /** The wrapped value as a one-element sequence, or the empty sequence (`.filter(Boolean)` on one slot). */
    function ToSeq(): seq<T> {
      match this
      case Some(v) => [v]
      case None => []
    }
  }
}
