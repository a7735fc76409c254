/** Escalation status of a ticket and the integer stored for it in
    `support.tickets.escalation_status`.

    The ticket store imports an `EscalationStatus` enum from the `enums`
    package that is not part of this model; its codes are taken to be
    those of `net.atos.entng.support.EscalationStatus`. */
module EscalationStatuses {
  import opened Results

  datatype EscalationStatus = NotDone | InProgress | Successful | Failed

  /** `EscalationStatus.status()`: the code the enum constant was built with. */
  function Code(s: EscalationStatus): (c: int)
    ensures 1 <= c <= 4
  {
    match s
    case NotDone => 1
    case InProgress => 2
    case Successful => 3
    case Failed => 4
  }

  /** Reading a stored code back: the one status built with it, if any. */
  function FromCode(c: int): (r: Option<EscalationStatus>)
    ensures r.Some? <==> 1 <= c <= 4
    ensures forall s :: r == Some(s) <==> Code(s) == c
  {
    if c == 1 then Some(NotDone)
    else if c == 2 then Some(InProgress)
    else if c == 3 then Some(Successful)
    else if c == 4 then Some(Failed)
    else None
  }

  /** Distinct statuses are stored under distinct codes. */
  lemma CodeInjective(a: EscalationStatus, b: EscalationStatus)
    ensures Code(a) == Code(b) <==> a == b
  {
  }
}
