/** How calls to Fleet and status writes end, for every controller (internal/controller/errors.go). */
module FleetCalls {

  datatype Err = Http(code: int) | Transport | Cancelled

  /** Which errors the workqueue retries with backoff. */
  predicate IsTransient(e: Err) {
    match e
    case Http(c) => c == 429 || c == 408 || 500 <= c < 600
    case Transport => true
    case Cancelled => false
  }

  /** A refused or interrupted call may have taken effect all the same. */
  datatype Reply = Done | Refused(err: Err, applied: bool) | Crashed(applied: bool)
  {
    predicate Applied() {
      Done? || applied
    }
  }

  /** A lost status write: a conflict, another failure, or the process dying before it. */
  datatype StatusWrite = Stored | Conflict | WriteFailed | DiedBefore
}
