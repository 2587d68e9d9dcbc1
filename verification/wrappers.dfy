/** Option and settled-promise datatypes shared by the other modules. */
module Wrappers {

  /** A value that may be absent: JavaScript's `null` from `localStorage.getItem`,
      or a `currentUser` that has not been set. */
  datatype Option<+T> = None | Some(value: T)

  /** The settled outcome of an awaited promise: either it rejected (the awaiting
      handler stops at the `await`), or it resolved with a value. */
  datatype Remote<+T> = Rejected | Resolved(value: T)
}
