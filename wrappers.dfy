/** The optional value used throughout the model: `None` stands for the
    JavaScript values `undefined`, `null`, `NaN` or `false` where the source
    uses one of them to mean "nothing". */
module Wrappers {

  datatype Option<+T> = None | Some(value: T) {

    /** Returns the value encapsulated in Some or a default value if None */
    function GetOr(default: T): T {
      match this
      case Some(v) => v
      case None => default
    }
  }
}
