// The status of an order in the ledger and how match events move it.
module OrderStatus {
  import opened Wrappers

  datatype Status = Pending | Accepted | Partial | Canceling | Filled | Canceled | Rejected

  // The numbers of match events: accepted, filled, partial, canceled.
  const ORDER_ACCEPTED := 1
  const ORDER_FILLED := 2
  const ORDER_PARTIAL := 3
  const ORDER_CANCELED := 4

  function TargetStatus(eventType: int): Option<Status> {
    if eventType == ORDER_ACCEPTED then Some(Accepted)
    else if eventType == ORDER_PARTIAL then Some(Partial)
    else if eventType == ORDER_FILLED then Some(Filled)
    else if eventType == ORDER_CANCELED then Some(Canceled)
    else None
  }

  predicate IsTerminal(s: Status) { s == Filled || s == Canceled || s == Rejected }

  function AllowedFrom(target: Status): seq<Status> {
    match target
    case Pending => []
    case Accepted => [Pending, Canceling]
    case Partial => [Pending, Accepted, Partial, Canceling]
    case Filled => [Pending, Accepted, Partial, Canceling]
    case Canceling => [Pending, Accepted, Partial]
    case Canceled => [Pending, Accepted, Partial, Canceling]
    case Rejected => [Pending]
  }

  predicate CanTransition(from: Status, to: Status) { from == to || from in AllowedFrom(to) }

  // The terminal statuses are exactly those that nothing leads out of.
  lemma TerminalHasNoExit(s: Status)
    ensures IsTerminal(s) <==> forall to: Status :: CanTransition(s, to) ==> to == s
  {
    if !IsTerminal(s) {
      match s
      case Pending => assert CanTransition(s, Accepted) by { assert AllowedFrom(Accepted)[0] == s; }
      case Accepted => assert CanTransition(s, Partial) by { assert AllowedFrom(Partial)[1] == s; }
      case Partial => assert CanTransition(s, Filled) by { assert AllowedFrom(Filled)[2] == s; }
      case Canceling => assert CanTransition(s, Accepted) by { assert AllowedFrom(Accepted)[1] == s; }
    }
  }

  // Nothing goes back to the beginning, and a match event can reach an order that is canceling.
  lemma PendingIsFirst(from: Status, eventType: int)
    requires TargetStatus(eventType).Some?
    ensures TargetStatus(eventType).value != Pending
    ensures CanTransition(Canceling, TargetStatus(eventType).value)
    ensures CanTransition(from, Pending) ==> from == Pending
  {
  }
}
