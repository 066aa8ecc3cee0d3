/** Optional values, and results that either carry a value or name the
    Python exception irreptables would raise at that point. */
module Wrappers {

  datatype Option<+T> = None | Some(value: T)

  /** The kinds of Python exception the parser raises or catches. */
  datatype PyError =
    | ValueError      // int()/float() on a bad token, unpacking, reshape, broadcast
    | IndexError      // list index out of range
    | AssertionError  // a failing `assert`
    | RuntimeError    // the explicit `raise RuntimeError(...)` checks
    | AttributeError  // an attribute that was never assigned
    | TypeError       // numpy arithmetic on objects that are not numbers
    | HelperError     // whatever a helper outside this model raises

  datatype Result<+T> = Ok(value: T) | Err(error: PyError) {
    predicate IsFailure() { Err? }

    function PropagateFailure<U>(): Result<U>
      requires Err?
    {
      Err(error)
    }

    function Extract(): T
      requires Ok?
    {
      value
    }
  }
}
