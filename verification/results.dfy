/** Failure-compatible wrappers shared by every module of the model.
    A Python exception that aborts a translation becomes an `Err` carrying
    a description; `Option` stands for a Python value that may be `None`. */
module Results {

  datatype Option<+T> = None | Some(value: T)

  datatype Result<+T> = Ok(value: T) | Err(error: string) {

    predicate IsFailure() {
      Err?
    }

    function PropagateFailure<U>(): Result<U>
      requires Err?
    {
      Err(error)
    }

    function Extract(): T
      requires Ok?
    {
      value
    }
  }
}
