/** Failure-carrying values shared by every module: an optional value (a SQL
    NULL, a dictionary key that may be missing) and the result of an operation
    that the Python source can abort with an exception. */
module Wrappers {

  datatype Option<+T> = None | Some(value: T)

  /** The exceptions the modelled Python code raises, by kind. */
  datatype Error =
    | AssertionError(message: string)
    | ValueError(message: string)
    | IndexError
    | KeyError(key: string)
    | TypeError(message: string)
    | UnboundName(name: string)
    | NoResultFound
    | MultipleResultsFound
    | IOError(path: string)
    | AttributeError(name: string)

  datatype Result<+T> = Ok(value: T) | Err(error: Error) {
    predicate IsFailure() { Err? }

    function PropagateFailure<U>(): Result<U>
      requires Err?
    {
      Err(error)
    }

    function Extract(): T
      requires Ok?
    {
      value
    }
  }

  /** `query.one()`: the single row, `NoResultFound` when there is none and
      `MultipleResultsFound` when there are several. */
  function One<T>(rows: seq<T>): (r: Result<T>)
    ensures r.Ok? <==> |rows| == 1
    ensures r.Ok? ==> r.value == rows[0]
    ensures |rows| == 0 ==> r == Err(NoResultFound)
    ensures |rows| > 1 ==> r == Err(MultipleResultsFound)
  {
    if |rows| == 0 then Err(NoResultFound)
    else if |rows| > 1 then Err(MultipleResultsFound)
    else Ok(rows[0])
  }
}
