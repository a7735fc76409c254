/** The decisions `TicketController` takes around the services: how a new
    ticket is prepared, who is notified of a created or updated ticket,
    how a subject is shortened for a notification, how a comment for the
    bug tracker is signed, and how an escalation request is sequenced
    from the claim to the recorded outcome.

    Replies of the escalation service and of the tracker are inputs; the
    ticket store is the one of `TicketServiceSql`. */
module TicketController {
  import opened Results
  import opened Strings
  import opened TicketStatuses
  import opened EscalationStatuses
  import opened BugTracker
  import opened TicketServiceSql

  // ---------------------------------------------------------------------
  // shortenSubject

  const SubjectLengthInNotification := 50
  const Ellipsis := " [...]"

  /** A subject longer than the limit is cut to the limit and marked. */
  function ShortenSubject(subject: string): (r: string)
    ensures |r| <= SubjectLengthInNotification + |Ellipsis|
  {
    if |subject| > SubjectLengthInNotification then subject[..SubjectLengthInNotification] + Ellipsis
    else subject
  }

  /** A short subject is kept as it is; a long one keeps exactly its first 50
      characters, followed by the marker; shortening twice changes nothing
      more. */
  lemma ShortenSubjectSpec(subject: string)
    ensures |subject| <= SubjectLengthInNotification ==> ShortenSubject(subject) == subject
    ensures |subject| > SubjectLengthInNotification ==>
      && |ShortenSubject(subject)| == SubjectLengthInNotification + |Ellipsis|
      && ShortenSubject(subject)[..SubjectLengthInNotification] == subject[..SubjectLengthInNotification]
      && ShortenSubject(subject)[SubjectLengthInNotification..] == Ellipsis
    ensures ShortenSubject(ShortenSubject(subject)) == ShortenSubject(subject)
  {
    if |subject| > SubjectLengthInNotification {
      var r := subject[..SubjectLengthInNotification] + Ellipsis;
      assert r[..SubjectLengthInNotification] == subject[..SubjectLengthInNotification];
    }
  }

  // ---------------------------------------------------------------------
  // createTicket: the defaults of a new ticket

  /** A new ticket as `createTicket` hands it to the service: the body
      without its attachments, and the attachments apart. */
  datatype NewTicket = NewTicket(body: map<string, Value>, attachments: Option<seq<AttachmentElem>>)

  /** Status NEW, one event, and the attachments taken out of the body.
      An `attachments` member that is not an array makes `getArray` throw,
      and no ticket is created. */
  function PrepareNewTicket(body: map<string, Value>): (r: Option<NewTicket>)
  {
    var attachments: Option<seq<AttachmentElem>> :=
      if "attachments" in body && body["attachments"].VAttachments? then Some(body["attachments"].items) else None;
    if "attachments" in body && !body["attachments"].VAttachments? && !body["attachments"].VNull? then None
    else
      var b := body["status" := VInt(TicketStatuses.Code(New))]["event_count" := VInt(1)];
      Some(NewTicket(map k | k in b && k != "attachments" :: b[k], attachments))
  }

  /** The prepared ticket is NEW with one event, holds no attachments
      member, keeps every other member, and carries the attachments the
      body held. */
  lemma NewTicketDefaults(body: map<string, Value>)
    ensures PrepareNewTicket(body).None? <==>
      "attachments" in body && !body["attachments"].VAttachments? && !body["attachments"].VNull?
    ensures PrepareNewTicket(body).Some? ==>
      var t := PrepareNewTicket(body).value;
      && t.body["status"] == VInt(1)
      && t.body["event_count"] == VInt(1)
      && "attachments" !in t.body
      && (forall k :: k in t.body.Keys <==> k == "status" || k == "event_count" || (k in body && k != "attachments"))
      && (forall k :: k in body && k !in {"status", "event_count", "attachments"} ==> t.body[k] == body[k])
      && (t.attachments.Some? <==> "attachments" in body && body["attachments"].VAttachments?)
      && (t.attachments.Some? ==> t.attachments.value == body["attachments"].items)
  {
  }

  // ---------------------------------------------------------------------
  // notifyTicketCreated / notifyTicketUpdated

  /** A timeline notification about a ticket. */
  datatype TicketNotice = TicketNotice(name: string, recipients: set<Option<string>>, ticketId: string, subject: string)

  /** The administrators' ids without the acting user (an absent id is kept). */
  function AdminsBut(admins: seq<Option<string>>, actor: string): set<Option<string>> {
    set x | x in admins && x != Some(actor)
  }

  /** Recipients of "ticket created": the school's administrators but the
      author; nothing when the directory answered nothing or nobody is left. */
  function CreatedRecipients(admins: Option<seq<Option<string>>>, actor: string): (r: Option<set<Option<string>>>)
    ensures r.Some? ==> |r.value| > 0
  {
    if admins.None? then None
    else
      var rs := AdminsBut(admins.value, actor);
      if rs == {} then None else Some(rs)
  }

  /** Recipients of "ticket updated": the owner unless they are the actor,
      and the administrators but the actor; nothing when the directory
      answered nothing or nobody is left. */
  function UpdatedRecipients(admins: Option<seq<Option<string>>>, owner: string, actor: string): (r: Option<set<Option<string>>>)
    ensures r.Some? ==> |r.value| > 0
  {
    if admins.None? then None
    else
      var rs := (if owner != actor then {Some(owner)} else {}) + AdminsBut(admins.value, actor);
      if rs == {} then None else Some(rs)
  }

  /** The actor is never told about their own change; the administrators
      are told about both; the owner only about an update by someone else. */
  lemma RecipientRules(admins: Option<seq<Option<string>>>, owner: string, actor: string)
    ensures CreatedRecipients(admins, actor).Some? ==>
      forall x :: x in CreatedRecipients(admins, actor).value <==> x in admins.value && x != Some(actor)
    ensures CreatedRecipients(admins, actor).None? <==>
      admins.None? || forall x :: x in admins.value ==> x == Some(actor)
    ensures UpdatedRecipients(admins, owner, actor).Some? ==>
      forall x :: x in UpdatedRecipients(admins, owner, actor).value <==>
        x != Some(actor) && (x == Some(owner) || x in admins.value)
    ensures UpdatedRecipients(admins, owner, actor).None? <==>
      admins.None? || (owner == actor && forall x :: x in admins.value ==> x == Some(actor))
  {
    if admins.Some? {
      var a := AdminsBut(admins.value, actor);
      assert forall x :: x in a <==> x in admins.value && x != Some(actor);
      if owner != actor {
        assert Some(owner) in (if owner != actor then {Some(owner)} else {}) + a;
      }
    }
  }

  const TicketCreated := "support.ticket-created"
  const TicketUpdated := "support.ticket-updated"

  /** `notifyTicketCreated`: sent only for a created row with an id, a
      subject and a school. */
  function NotifyTicketCreated(id: int, subject: Option<string>, schoolId: Option<string>,
                               admins: Option<seq<Option<string>>>, actor: string): (r: Option<TicketNotice>)
    ensures r.Some? ==> r.value.name == TicketCreated && r.value.ticketId == IntToString(id)
  {
    if id == 0 || subject.None? || schoolId.None? then None
    else
      match CreatedRecipients(admins, actor)
      case None => None
      case Some(rs) => Some(TicketNotice(TicketCreated, rs, IntToString(id), ShortenSubject(subject.value)))
  }

  /** `notifyTicketUpdated`: sent only when the updated row names its
      subject, owner and school. */
  function NotifyTicketUpdated(ticketId: string, subject: Option<string>, owner: Option<string>, schoolId: Option<string>,
                               admins: Option<seq<Option<string>>>, actor: string): (r: Option<TicketNotice>)
    ensures r.Some? ==> r.value.name == TicketUpdated && r.value.ticketId == ticketId
  {
    if subject.None? || owner.None? || schoolId.None? then None
    else
      match UpdatedRecipients(admins, owner.value, actor)
      case None => None
      case Some(rs) => Some(TicketNotice(TicketUpdated, rs, ticketId, ShortenSubject(subject.value)))
  }

  /** A notice is sent exactly when its guard holds and someone is left to
      tell, and its subject is the shortened one. */
  lemma TicketNoticeRules(id: int, ticketId: string, subject: Option<string>, owner: Option<string>, schoolId: Option<string>,
                          admins: Option<seq<Option<string>>>, actor: string)
    ensures NotifyTicketCreated(id, subject, schoolId, admins, actor).Some? <==>
      id != 0 && subject.Some? && schoolId.Some? && CreatedRecipients(admins, actor).Some?
    ensures NotifyTicketCreated(id, subject, schoolId, admins, actor).Some? ==>
      NotifyTicketCreated(id, subject, schoolId, admins, actor).value.subject == ShortenSubject(subject.value)
    ensures NotifyTicketUpdated(ticketId, subject, owner, schoolId, admins, actor).Some? <==>
      subject.Some? && owner.Some? && schoolId.Some? && UpdatedRecipients(admins, owner.value, actor).Some?
    ensures NotifyTicketUpdated(ticketId, subject, owner, schoolId, admins, actor).Some? ==>
      && NotifyTicketUpdated(ticketId, subject, owner, schoolId, admins, actor).value.subject == ShortenSubject(subject.value)
      && NotifyTicketUpdated(ticketId, subject, owner, schoolId, admins, actor).value.recipients ==
           UpdatedRecipients(admins, owner.value, actor).value
  {
  }

  // ---------------------------------------------------------------------
  // sendIssueComment

  /** The comment sent to the tracker: the translated author caption, " : ",
      the author's name, a line break, then the comment's content ("null"
      when the body has none). */
  function IssueCommentContent(authorCaption: string, username: string, content: Option<string>): string {
    authorCaption + " : " + username + "\n" + AppendText(content)
  }

  /** `sendIssueComment`: the issue id is parsed with `Integer.parseInt`; a
      malformed id throws and nothing is sent. */
  function SendIssueComment(id: string, authorCaption: string, username: string, content: Option<string>): (r: Option<(int, string)>)
    ensures r.Some? <==> ParseJavaInt(id).Some?
  {
    match ParseJavaInt(id)
    case None => None
    case Some(issueId) => Some((issueId, IssueCommentContent(authorCaption, username, content)))
  }

  /** The signature line can be read back: the first line names the author,
      the remaining lines are exactly the original content. */
  lemma IssueCommentReadBack(authorCaption: string, username: string, content: Option<string>)
    requires '\n' !in authorCaption && '\n' !in username
    ensures var lines := Split(IssueCommentContent(authorCaption, username, content), '\n');
      && lines[0] == authorCaption + " : " + username
      && Join(lines[1..], '\n') == AppendText(content)
  {
    var head := authorCaption + " : " + username;
    assert '\n' !in head;
    assert IssueCommentContent(authorCaption, username, content) == head + ['\n'] + AppendText(content);
    SplitCons(head, '\n', AppendText(content));
    JoinSplit(AppendText(content), '\n');
  }

  /** The comment goes to the issue the id names. */
  lemma SendIssueCommentTarget(issueId: int, authorCaption: string, username: string, content: Option<string>)
    requires IntMin <= issueId <= IntMax
    ensures SendIssueComment(IntToString(issueId), authorCaption, username, content) ==
      Some((issueId, IssueCommentContent(authorCaption, username, content)))
  {
    IntRoundTrip(issueId);
  }

  // ---------------------------------------------------------------------
  // escalateTicket: getTicketForEscalationHandler and getEscalateTicketHandler

  const EscalationConflict := "support.error.escalation.conflict"

  /** The error rendered when the claim's statement fails. */
  const ClaimDataError := "support.escalation.error.data.cannot.be.retrieved.from.database"

  /** The history event type of an escalation request. */
  const EscalationEvent := 4

  /** What the request answers. `NoResponse` stands for a handler that is
      never called, or that throws before it answers. */
  datatype Response = BadRequest(message: string) | RenderJson(issue: IssueDoc) | RenderError(message: string) | NoResponse

  /** What the escalation service answered, and what it put in the shared
      attachment map; `reply == None` when it never answered. */
  datatype ServiceOutcome = ServiceOutcome(reply: Option<Either<string, IssueDoc>>, attachmentMap: map<int, string>)

  datatype FlowResult = FlowResult(store: Store, response: Response)

  /** After the service answered: an error records FAILED and renders it;
      for a created issue, its id is read (which throws, and ends the
      request unanswered, when the issue has no `issue` object), the issue
      is fetched whole and recorded as SUCCESSFUL, with the whole issue,
      or with an empty one when fetching failed. */
  function AfterEscalation(s: Store, ticketId: int, user: User, now: int, outcome: ServiceOutcome,
                           fetched: Either<string, IssueDoc>): (r: FlowResult)
  {
    match outcome.reply
    case None => FlowResult(s, NoResponse)
    case Some(Left(message)) =>
      FlowResult(EndFailedEscalation(s, ticketId, user, now).store, RenderError(message))
    case Some(Right(issue)) =>
      match ExtractIdFromIssue(issue)
      case Throws => FlowResult(s, NoResponse)
      case Got(issueId) =>
        match fetched
        case Right(whole) =>
          var e := EndSuccessfulEscalation(s, ticketId, whole, issueId, outcome.attachmentMap, user, now);
          FlowResult(e.store, match e.reply
                              case None => NoResponse
                              case Some(Right(_)) => RenderJson(whole)
                              case Some(Left(message)) => RenderError(message))
        case Left(message) =>
          var e := EndSuccessfulEscalation(s, ticketId, EmptyIssue, issueId, outcome.attachmentMap, user, now);
          FlowResult(e.store, RenderError(message))
  }

  /** The whole request: claim (whose statement may fail in the database),
      history row, escalation, outcome. */
  function EscalateTicketFlow(s: Store, ticketId: int, user: User, escalateText: string, claimFails: bool,
                              claimedAt: int, endedAt: int, outcome: ServiceOutcome,
                              fetched: Either<string, IssueDoc>): (r: FlowResult)
  {
    if claimFails then FlowResult(s, RenderError(ClaimDataError))
    else
      var claim := GetTicketForEscalation(s, ticketId, claimedAt);
      match claim.snapshot
      case None => FlowResult(claim.store, BadRequest(EscalationConflict))
      case Some(t) =>
        var s1 := CreateTicketHisto(claim.store, t.id, escalateText + user.username, TicketStatuses.Code(t.status), Some(user.id), EscalationEvent);
        AfterEscalation(s1, ticketId, user, endedAt, outcome, fetched)
  }

  /** A claim whose statement fails renders the database error, and the
      store is left as it was. */
  lemma ClaimErrorStops(s: Store, ticketId: int, user: User, escalateText: string,
                        claimedAt: int, endedAt: int, outcome: ServiceOutcome, fetched: Either<string, IssueDoc>)
    ensures EscalateTicketFlow(s, ticketId, user, escalateText, true, claimedAt, endedAt, outcome, fetched) ==
      FlowResult(s, RenderError(ClaimDataError))
  {
  }

  /** A ticket that cannot be claimed gets a conflict, and nothing else
      happens to the store. */
  lemma ConflictStops(s: Store, ticketId: int, user: User, escalateText: string,
                      claimedAt: int, endedAt: int, outcome: ServiceOutcome, fetched: Either<string, IssueDoc>)
    requires ticketId !in s.tickets || !Claimable(s.tickets[ticketId])
    ensures EscalateTicketFlow(s, ticketId, user, escalateText, false, claimedAt, endedAt, outcome, fetched) ==
      FlowResult(s, BadRequest(EscalationConflict))
  {
  }

  /** An escalation error always ends in FAILED and renders the error. */
  lemma ErrorRecordsFailed(s: Store, ticketId: int, user: User, escalateText: string,
                           claimedAt: int, endedAt: int, message: string, map0: map<int, string>,
                           fetched: Either<string, IssueDoc>)
    requires GetTicketForEscalation(s, ticketId, claimedAt).snapshot.Some?
    ensures var r := EscalateTicketFlow(s, ticketId, user, escalateText, false, claimedAt, endedAt,
                                        ServiceOutcome(Some(Left(message)), map0), fetched);
      && r.response == RenderError(message)
      && r.store.tickets[ticketId].escalationStatus == Failed
      && r.store.issues == s.issues && r.store.links == s.links
  {
  }

  /** A created issue without an `issue` object: reading its id throws, the
      request is never answered and the ticket stays IN_PROGRESS, with no
      issue recorded. */
  lemma MissingIssueObjectStaysInProgress(s: Store, ticketId: int, user: User, escalateText: string,
                                          claimedAt: int, endedAt: int, issue: IssueDoc, map0: map<int, string>,
                                          fetched: Either<string, IssueDoc>)
    requires GetTicketForEscalation(s, ticketId, claimedAt).snapshot.Some?
    requires issue.issue.None?
    ensures var r := EscalateTicketFlow(s, ticketId, user, escalateText, false, claimedAt, endedAt,
                                        ServiceOutcome(Some(Right(issue)), map0), fetched);
      && r.response == NoResponse
      && r.store.tickets[ticketId].escalationStatus == InProgress
      && r.store.issues == s.issues && r.store.links == s.links
  {
  }

  /** A created and fetched issue ends in SUCCESSFUL with the whole issue
      stored, when the transaction commits. The request goes unanswered,
      leaving the ticket IN_PROGRESS, exactly when reading the created
      issue's id or the whole issue's attachments throws. */
  lemma FetchedRecordsSuccess(s: Store, ticketId: int, user: User, escalateText: string,
                              claimedAt: int, endedAt: int, issue: IssueDoc, map0: map<int, string>, whole: IssueDoc)
    requires GetTicketForEscalation(s, ticketId, claimedAt).snapshot.Some?
    ensures var r := EscalateTicketFlow(s, ticketId, user, escalateText, false, claimedAt, endedAt,
                                        ServiceOutcome(Some(Right(issue)), map0), Right(whole));
      && (r.response == NoResponse <==> ExtractIdFromIssue(issue).Throws? || ReadingAttachmentsThrows(whole))
      && (r.response == NoResponse ==>
            r.store.tickets[ticketId].escalationStatus == InProgress && r.store.issues == s.issues)
      && (r.response == RenderJson(whole) ==>
            && r.store.tickets[ticketId].escalationStatus == Successful
            && ExtractIdFromIssue(issue).Got? && ExtractIdFromIssue(issue).member.Some?
            && r.store.issues[ExtractIdFromIssue(issue).member.value] == IssueRow(ticketId, whole, user.id))
      && (r.response != RenderJson(whole) && r.response != NoResponse ==>
            r.response == RenderError(TransactionRefused) && r.store.tickets[ticketId].escalationStatus == InProgress)
  {
  }

  /** A created issue that could not be fetched is still recorded as
      SUCCESSFUL when the transaction commits, with an empty issue and so
      without attachment links, and the fetch error is rendered; unless
      reading the created issue's id throws, which leaves the request
      unanswered. */
  lemma UnfetchedRecordsSuccess(s: Store, ticketId: int, user: User, escalateText: string,
                                claimedAt: int, endedAt: int, issue: IssueDoc, map0: map<int, string>, message: string)
    requires GetTicketForEscalation(s, ticketId, claimedAt).snapshot.Some?
    ensures var r := EscalateTicketFlow(s, ticketId, user, escalateText, false, claimedAt, endedAt,
                                        ServiceOutcome(Some(Right(issue)), map0), Left(message));
      var id := ExtractIdFromIssue(issue);
      && r.response == (if id.Throws? then NoResponse else RenderError(message))
      && r.store.links == s.links
      && ticketId in r.store.tickets
      && (r.store.tickets[ticketId].escalationStatus == Successful <==>
            && id.Got? && id.member.Some? && id.member.value !in s.issues
            && !HasIssue(s, ticketId))
      && (r.store.tickets[ticketId].escalationStatus == Successful ==>
            && id.Got? && id.member.Some? && id.member.value in r.store.issues
            && r.store.issues[id.member.value] == IssueRow(ticketId, EmptyIssue, user.id))
  {
    var claim := GetTicketForEscalation(s, ticketId, claimedAt);
    var t := claim.snapshot.value;
    var s1 := CreateTicketHisto(claim.store, t.id, escalateText + user.username, TicketStatuses.Code(t.status), Some(user.id), EscalationEvent);
    assert s1.issues == s.issues && s1.links == s.links;
    assert ticketId in s1.tickets && s1.tickets[ticketId].escalationStatus == InProgress;
    assert HasIssue(s1, ticketId) == HasIssue(s, ticketId);
    UnfetchedAfterEscalation(s1, ticketId, user, endedAt, issue, map0, message);
  }

  /** The step after a created issue whose fetch failed, on any store. */
  lemma UnfetchedAfterEscalation(s1: Store, ticketId: int, user: User, endedAt: int,
                                 issue: IssueDoc, map0: map<int, string>, message: string)
    requires ticketId in s1.tickets && s1.tickets[ticketId].escalationStatus == InProgress
    ensures var r := AfterEscalation(s1, ticketId, user, endedAt, ServiceOutcome(Some(Right(issue)), map0), Left(message));
      var id := ExtractIdFromIssue(issue);
      && r.response == (if id.Throws? then NoResponse else RenderError(message))
      && r.store.links == s1.links
      && ticketId in r.store.tickets
      && (r.store.tickets[ticketId].escalationStatus == Successful <==>
            && id.Got? && id.member.Some? && id.member.value !in s1.issues
            && !HasIssue(s1, ticketId))
      && (r.store.tickets[ticketId].escalationStatus == Successful ==>
            && id.Got? && id.member.Some? && id.member.value in r.store.issues
            && r.store.issues[id.member.value] == IssueRow(ticketId, EmptyIssue, user.id))
  {
    var id := ExtractIdFromIssue(issue);
    if id.Got? && id.member.Some? {
      assert EscalationLinks(EmptyIssue, id.member.value, map0) == [];
    }
  }

  /** The request keeps the escalation invariant, whatever the database,
      the service and the tracker answered. */
  lemma FlowKeepsInv(s: Store, ticketId: int, user: User, escalateText: string, claimFails: bool,
                     claimedAt: int, endedAt: int, outcome: ServiceOutcome, fetched: Either<string, IssueDoc>)
    requires Inv(s)
    ensures Inv(EscalateTicketFlow(s, ticketId, user, escalateText, claimFails, claimedAt, endedAt, outcome, fetched).store)
  {
    var claim := GetTicketForEscalation(s, ticketId, claimedAt);
    ClaimKeepsInv(s, ticketId, claimedAt);
    if !claimFails && claim.snapshot.Some? {
      var t := claim.snapshot.value;
      var s1 := CreateTicketHisto(claim.store, t.id, escalateText + user.username, TicketStatuses.Code(t.status), Some(user.id), EscalationEvent);
      assert Inv(s1) by {
        assert forall x :: HasIssue(claim.store, x) ==> HasIssue(s1, x);
      }
      assert s1.tickets[ticketId].escalationStatus == InProgress;
      match outcome.reply {
        case None =>
        case Some(Left(_)) =>
          EndFailedKeepsInv(s1, ticketId, user, endedAt);
        case Some(Right(issue)) =>
          match ExtractIdFromIssue(issue) {
            case Throws =>
            case Got(issueId) =>
              match fetched {
                case Right(whole) =>
                  EndSuccessfulKeepsInv(s1, ticketId, whole, issueId, outcome.attachmentMap, user, endedAt);
                case Left(_) =>
                  EndSuccessfulKeepsInv(s1, ticketId, EmptyIssue, issueId, outcome.attachmentMap, user, endedAt);
              }
          }
      }
    }
  }
}
