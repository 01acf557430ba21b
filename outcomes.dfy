/**
  Optional values and the outcome of an operation that may throw.

  The components raise exactly one kind of error, JavaScript's `TypeError`,
  when an argument is not an instance of the expected component (or not a
  number where a number is accepted).
 */
module Outcomes {

  datatype Option<+T> = None | Some(value: T) {

    /** The supplied value, or `default` when the option is absent. */
    function GetOr(default: T): T {
      match this
      case Some(v) => v
      case None => default
    }
  }

  /** What a component operation returns: a value, or the `TypeError` it throws. */
  datatype Result<+T> = Ok(value: T) | TypeError
}
