// Lifecycle vocabulary of discovery jobs (backend/app/discovery/contracts.py).

module Common {
  datatype Option<+T> = None | Some(value: T)

  datatype Result<+T, +E> = Ok(value: T) | Err(error: E)
}

module Contracts {

  datatype Status = Queued | Running | Succeeded | Failed | TimedOut | Cancelled {
    predicate IsTerminal() {
      Succeeded? || Failed? || TimedOut? || Cancelled?
    }

    predicate IsActive() {
      Queued? || Running?
    }
  }

  datatype FailureCode =
    | TARGET_NOT_FOUND | TARGET_DISABLED | UNSUPPORTED_VENDOR | CREDENTIAL_RESOLUTION_FAILED
    | AUTHENTICATION_FAILED | UNSUPPORTED_CREDENTIAL | CONNECTION_FAILED | CONNECTION_TIMEOUT
    | HOST_UNREACHABLE | CONNECTION_REFUSED | TIMEOUT | DISCOVERY_TIMEOUT | DISCOVERY_FAILED
    | TRANSPORT_UNAVAILABLE | TRANSPORT_DISABLED | UNSUPPORTED_PLATFORM | AMBIGUOUS_PLATFORM
    | UNSUPPORTED_CAPABILITY | COLLECTOR_FAILED | PARSER_FAILED | NORMALIZATION_FAILED
    | EVIDENCE_PERSISTENCE_FAILED | SNAPSHOT_PERSISTENCE_FAILED | CANCELLED

  /** The transition table consulted before every durable transition. */
  predicate Allowed(current: Status, target: Status) {
    match current
    case Queued => target.Running? || target.Cancelled?
    case Running => target.Succeeded? || target.Failed? || target.TimedOut? || target.Cancelled?
    case _ => false
  }
}
