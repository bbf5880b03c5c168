/** The optional value the Python code expresses with `None`. */
module Wrappers {

  /** `None` or a present value; usable with `:-` so that a missing value short-circuits to `None`. */
  datatype Option<+T> = None | Some(value: T) {

    predicate IsFailure() {
      None?
    }

    function PropagateFailure<U>(): Option<U>
      requires None?
    {
      None
    }

    function Extract(): T
      requires Some?
    {
      value
    }
  }
}
