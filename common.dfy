/** Exceptions the Python code can raise, and the result type that carries them. */
module Common {

  /** The exception classes the modelled code raises (directly or through the
      standard library calls it makes). */
  datatype Error =
    | ValueError(msg: string)
    | KeyError(key: string)
    | IndexError
    | AttributeError
    | TypeError
    | StopIteration
    | RuntimeError(msg: string)
    | BinasciiError(msg: string)
    | UnicodeDecodeError

  datatype Option<+T> = None | Some(value: T)

  /** Either a value or the exception that ended the computation. */
  datatype Result<+T> = Ok(value: T) | Err(error: Error) {
    predicate IsFailure() {
      Err?
    }

    function PropagateFailure<U>(): Result<U>
      requires Err?
    {
      Err(error)
    }

    function Extract(): T
      requires Ok?
    {
      value
    }
  }
}
