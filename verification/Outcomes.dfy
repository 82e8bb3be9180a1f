module Outcomes {
  datatype Option<+T> = None | Some(value: T)

  /** What can escape a call: only the kind and, where precedence depends on
      it, the identity. */
  datatype Error =
    | Cancelled(id: nat)
    | OsError(id: nat)
    | FileExists
    | Foreign(id: nat)
    | TooLarge
    | Serialization
    | Configuration
    | Containment
    | SymbolicLink
    | LinkLoop
    | NotADirectory
    | IsADirectory
    | NoSuchEntry
    | Timeout
    | NoCapacity
    | CircuitOpen
    | BadGateway
    | PreconditionFailed
    | TransportFailed
    | Suppressed

  datatype Outcome<+T> = Ok(value: T) | Raise(error: Error)
}
