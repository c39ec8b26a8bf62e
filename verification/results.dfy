/** Python's `None`-or-value returns and the exceptions the configuration toolkit can raise. */
module Results {

  /** A value that may be Python's `None`. */
  datatype Option<+T> = None | Some(value: T)

  /** The exceptions the toolkit raises on its inputs. */
  datatype Error =
    | IndexError          // `words[1]` of a one-word marker line, `""[0]`
    | KeyError(key: string) // a missing `Type` or `Value` property

  /** Either a value or the exception that aborted the computation. */
  datatype Result<+T> = Ok(value: T) | Err(error: Error) {

    predicate IsFailure() {
      Err?
    }

    function PropagateFailure<U>(): Result<U>
      requires Err?
    {
      Err(error)
    }

    function Extract(): T
      requires Ok?
    {
      value
    }
  }
}
