/**
 Shared failure-compatible datatypes for the model: `Option` for Python's
 `None`-or-value results and `Result` for calls that may raise one of the
 Python exceptions the modelled code can run into.
 */
module Wrappers {

  datatype Option<+T> = None | Some(value: T)

  /** The Python exception classes that the modelled code raises or catches. */
  datatype PyError =
    | OSError          // missing file for getmtime/utime/remove, makedirs over a file
    | IOError          // open() on a directory or in a missing directory
    | ValueError       // list.index / list.remove of an absent element
    | IndexError       // list subscript out of range
    | KeyError         // dict lookup of an absent key
    | AttributeError   // attribute access on None
    | TypeError        // arithmetic on None
    | RecursionLimit   // the interpreter's maximum recursion depth

  datatype Result<+T> = Ok(value: T) | Err(error: PyError) {

    predicate IsFailure() {
      Err?
    }

    function PropagateFailure<U>(): Result<U>
      requires Err?
    {
      Err(error)
    }

    function Extract(): T
      requires Ok?
    {
      value
    }
  }
}
