/** The absent-or-present result that every stage of the job hands to the next. */
module Wrappers {

  /** `None` is the "no table" outcome; `Some` carries a value. Usable with `:-`. */
  datatype Option<T> = None | Some(value: T) {

    predicate IsFailure() {
      None?
    }

    function PropagateFailure<U>(): Option<U>
      requires None?
    {
      None
    }

    function Extract(): T
      requires Some?
    {
      value
    }
  }
}
