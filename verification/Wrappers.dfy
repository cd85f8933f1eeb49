// Optional values and results that carry the service's error conditions.
module Wrappers {
  datatype Option<+T> = None | Some(value: T)

  /** The errors a store, service or engine operation answers with. */
  datatype Error =
    | NotFound
    | AlreadyExists
    | OwnedBySource
    | Reserved
    | ReservationConflict
    | Forbidden
    | Cycle
    | InvalidToken
    | InvalidId
    | InvalidRelation
    | InvalidExpiry
    | ImportRefused
    | LocalSource

  datatype Result<+T> = Ok(value: T) | Err(error: Error) {
    predicate IsFailure() {
      Err?
    }

    function PropagateFailure<U>(): Result<U>
      requires Err?
    {
      Err(error)
    }

    function Extract(): T
      requires Ok?
    {
      value
    }
  }
}
