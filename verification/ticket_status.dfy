/** Lifecycle status of a support ticket and the integer stored for it
    in `support.tickets.status`. */
module TicketStatuses {
  import opened Results

  datatype TicketStatus = New | Opened | Resolved | Closed

  /** `TicketStatus.status()`: the code the enum constant was built with. */
  function Code(s: TicketStatus): (c: int)
    ensures 1 <= c <= 4
  {
    match s
    case New => 1
    case Opened => 2
    case Resolved => 3
    case Closed => 4
  }

  /** Reading a stored code back: the one status built with it, if any. */
  function FromCode(c: int): (r: Option<TicketStatus>)
    ensures r.Some? <==> 1 <= c <= 4
    ensures forall s :: r == Some(s) <==> Code(s) == c
  {
    if c == 1 then Some(New)
    else if c == 2 then Some(Opened)
    else if c == 3 then Some(Resolved)
    else if c == 4 then Some(Closed)
    else None
  }

  /** Distinct statuses are stored under distinct codes. */
  lemma CodeInjective(a: TicketStatus, b: TicketStatus)
    ensures Code(a) == Code(b) <==> a == b
  {
  }
}
