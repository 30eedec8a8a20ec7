/** Outcomes of operations that can end with an exception. */
module Results {

  datatype Error =
    // the encoder
    | DomainError | LengthError | InvalidArgument | DataTooLong
    // the block store
    | KeyImageExists | UnexpectedInput | TxExists | WrongAssets | WrongOutput | SizeMismatch
    | BlockExists | ParentMissing | TxMissing | OutputMissing | NoBlock

  datatype Result<+T> = Ok(value: T) | Err(error: Error) {
    predicate IsFailure() { Err? }

    function PropagateFailure<U>(): Result<U>
      requires Err?
    {
      Err(error)
    }

    function Extract(): T
      requires Ok?
    {
      value
    }
  }

  datatype Option<+T> = None | Some(value: T)
}
