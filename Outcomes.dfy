/** Failure-compatible wrappers and the error kinds a command can reply with. */
module Outcomes {

  datatype Option<+T> = None | Some(value: T) {
    predicate IsFailure() { None? }

    function PropagateFailure<U>(): Option<U>
      requires None?
    {
      None
    }

    function Extract(): T
      requires Some?
    {
      value
    }
  }

  /** The ways a command can fail before or instead of reaching the calendar. */
  datatype BotError =
    | DateFormat       // the text does not match the strptime pattern (or has trailing data)
    | DateOutOfRange   // the pattern matched but the numbers name no real date (ValueError)
    | DateOverflow     // date arithmetic left Python's year range 1..9999 (OverflowError)
    | InvalidNumber    // int() or tuple unpacking failed on a /show or /delete argument
    | NotFound         // /delete position outside the last shown list
    | BadStoredDate    // a listed all-day start that fromisoformat rejects

  datatype Result<+T> = Ok(value: T) | Err(error: BotError) {
    predicate IsFailure() { Err? }

    function PropagateFailure<U>(): Result<U>
      requires Err?
    {
      Err(error)
    }

    function Extract(): T
      requires Ok?
    {
      value
    }
  }
}
