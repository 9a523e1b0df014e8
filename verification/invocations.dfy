/**
 One invocation of `maybe_increment_visitors` (src/store.rs, lines 440 to 489) as the state
 machine between its awaits: what it does with what a read returns and with what a put reports.
 */
module Invocations {
  import opened Wrappers
  import opened Visitors
  import opened CountEntries

  const MAX_ATTEMPTS_FOR_OPTIMISTIC_LOCKING: nat := 5

  datatype ReadError =
    | GetItemFailed
    | CountNotANumber
    | CountUnparsable
    | CountMissing
    | ValueNotABlob
    | ValueUndecodable
    | ValueMissing

  /** What a put reports: success, a failed condition, or any other service error. */
  datatype Report = Accepted | ConditionalCheckFailed | Failed

  datatype Outcome =
    | Returned(count: nat)
    | ReadFailed(error: ReadError)
    | PutFailed
    | MaxAttemptsExceeded
    | Panicked(panic: Panic)

  datatype Phase = Reading | Putting(request: Request) | Done(outcome: Outcome)

  datatype Invocation = Invocation(visitor: Visitor, now: Time, attempt: nat, phase: Phase)

  function Start(visitor: Visitor, now: Time): Invocation {
    Invocation(visitor, now, 0, Reading)
  }

  function OnRead(inv: Invocation, reading: Result<Option<Version>, ReadError>): Invocation {
    match reading
    case Failure(error) => inv.(phase := Done(ReadFailed(error)))
    case Success(base) =>
      match Plan(base, inv.visitor, inv.now)
      case Success(request) => inv.(phase := Putting(request))
      case Failure(panic) => inv.(phase := Done(Panicked(panic)))
  }

  function OnReport(inv: Invocation, report: Report): Invocation
    requires inv.phase.Putting?
  {
    match report
    case Accepted => inv.(phase := Done(Returned(inv.phase.request.version.count)))
    case Failed => inv.(phase := Done(PutFailed))
    case ConditionalCheckFailed =>
      inv.(attempt := inv.attempt + 1,
           phase := if inv.attempt + 1 < MAX_ATTEMPTS_FOR_OPTIMISTIC_LOCKING
                    then Reading else Done(MaxAttemptsExceeded))
  }

  /** The condition of a put holds of the item that is there. */
  predicate Admits(request: Request, current: Option<Version>) {
    match request.expected
    case None => current.None?
    case Some(count) => current.Some? && current.value.count == count
  }
}
