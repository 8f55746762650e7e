/** Failure-compatible wrappers shared by every module of the planner model.
    The Java planner signals errors by throwing; here each thrown exception
    becomes an `Err` carrying the exception kind. */
module Base {

  datatype Option<+T> = None | Some(value: T)

  /** The exception kinds the modelled code can raise. */
  datatype PlanError =
    | NotSupportQuery    // NotSupportQueryException: statement kind not handled
    | InvalidQuery       // InvalidQueryException: e.g. DISTINCT with aggregation
    | NotImplemented     // NotImplementedException: e.g. BROADCAST partitions
    | IllegalArgument    // Preconditions.checkArgument failed
    | IndexOutOfBounds   // List.get / array access past the end
    | NullPointer        // a null reference is dereferenced
    | ClassCast          // a downcast to the wrong node class
    | NoSuchTable        // the catalog does not know the table

  datatype Result<+T> = Ok(value: T) | Err(error: PlanError) {
    predicate IsFailure() {
      Err?
    }

    function PropagateFailure<U>(): Result<U>
      requires Err?
    {
      Err(error)
    }

    function Extract(): T
      requires Ok?
    {
      value
    }
  }

  function Min(a: nat, b: nat): nat {
    if a <= b then a else b
  }
}
