/** Option and Result values standing for Python's None and for the exceptions the generator can raise. */
module Wrappers {

  datatype Option<+T> = None | Some(value: T)

  /** The Python exception classes that the modelled code can raise. */
  datatype PyError =
    | AttributeError
    | TypeError
    | ValueError
    | KeyError
    | NotImplementedError
    /** `eval` of a verb name that is a Python keyword. */
    | SyntaxError
    /** A stream the model refuses although Python would go on (a second `Response` element). */
    | UnsupportedDocument

  datatype Result<+T> = Ok(value: T) | Err(error: PyError)
  {
    predicate IsFailure() {
      Err?
    }

    function PropagateFailure<U>(): Result<U>
      requires Err?
    {
      Err(error)
    }

    function Extract(): T
      requires Ok?
    {
      value
    }
  }

  datatype Outcome = Pass | Fail(error: PyError)
}
