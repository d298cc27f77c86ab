/** Error kinds of libndtypes (the NDT_* error codes set in an ndt_context_t)
    and the Result/Option types that replace the C convention "return NULL
    (or -1) and record the error in the context". */
module Results {

  datatype Error =
    | ValueError
    | TypeError
    | InvalidArgumentError
    | IndexError
    | NotImplementedError
    | RuntimeError

  datatype Option<+T> = None | Some(value: T)

  datatype Result<+T> = Ok(value: T) | Err(error: Error) {

    predicate IsFailure() {
      Err?
    }

    function PropagateFailure<U>(): Result<U>
      requires Err?
    {
      Err(error)
    }

    function Extract(): T
      requires Ok?
    {
      value
    }
  }

  /** `:- Need(c, e)` fails with `e` unless `c` holds. */
  datatype Check = Pass | Fail(error: Error) {

    predicate IsFailure() {
      Fail?
    }

    function PropagateFailure<U>(): Result<U>
      requires Fail?
    {
      Err(error)
    }
  }

  function Need(condition: bool, error: Error): (c: Check)
    ensures c.Pass? <==> condition
  {
    if condition then Pass else Fail(error)
  }
}
