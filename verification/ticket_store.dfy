/** The ticket store of `TicketServiceSqlImpl`, as effects on abstract tables.

    Each query becomes a function from a `Store` to the next `Store` (and
    to what the query returns). Tables keyed by a primary key are maps:
    tickets by id, bug-tracker issues by their tracker id, bug-tracker
    attachment links by the tracker's attachment id.

    The schema itself is not part of this model. Where a transaction can
    be refused, the constraints assumed are: `bug_tracker_issues.id` and
    `bug_tracker_attachments.id` are primary keys, `bug_tracker_issues.ticket_id`
    is unique and references an existing ticket. */
module TicketServiceSql {
  import opened Results
  import opened Strings
  import opened Sequences
  import opened TicketStatuses
  import opened EscalationStatuses
  import opened BugTracker

  /** The acting user: `UserInfos.getUserId()` and `getUsername()`. */
  datatype User = User(id: string, username: string)

  datatype Ticket = Ticket(
    subject: string,
    description: string,
    category: string,
    schoolId: string,
    owner: string,
    locale: string,
    status: TicketStatus,
    escalationStatus: EscalationStatus,
    escalationDate: Option<int>,
    eventCount: int)

  /** A row of `support.comments`; `created` is in microseconds. */
  datatype CommentRow = CommentRow(id: int, ticketId: int, owner: string, content: string, created: int)

  /** A row of `support.attachments`: a workspace document attached to a ticket. */
  datatype AttachmentRow = AttachmentRow(documentId: string, name: string, size: int, owner: string, ticketId: int)

  /** A row of `support.bug_tracker_issues`, keyed by the tracker's issue id. */
  datatype IssueRow = IssueRow(ticketId: int, content: IssueDoc, owner: string)

  /** A row of `support.bug_tracker_attachments`, keyed by the tracker's
      attachment id: a workspace document (uploaded at escalation) or a
      stored blob (downloaded from the tracker). */
  datatype LinkRow = LinkRow(issueId: int, documentId: Option<string>, gridfsId: Option<string>, name: string, size: int)

  /** A row of `support.tickets_histo`. */
  datatype HistoRow = HistoRow(ticketId: int, event: string, status: int, userId: Option<string>, eventType: int)

  datatype Store = Store(
    tickets: map<int, Ticket>,
    users: map<string, string>,
    comments: seq<CommentRow>,
    attachments: seq<AttachmentRow>,
    issues: map<int, IssueRow>,
    links: map<int, LinkRow>,
    histo: seq<HistoRow>)

  /** The error a refused transaction reports (its text is the database's). */
  const TransactionRefused: string := "sql.transaction.refused"

  /** `SELECT support.merge_users(?,?)`: insert or rename the user. */
  function UpsertUser(s: Store, user: User): Store {
    s.(users := s.users[user.id := user.username])
  }

  predicate HasIssue(s: Store, ticketId: int) {
    exists k :: k in s.issues && s.issues[k].ticketId == ticketId
  }

  /** The escalation invariant: a ticket has a bug-tracker issue exactly when
      its escalation is SUCCESSFUL, and at most one. */
  predicate Inv(s: Store) {
    && (forall k :: k in s.issues ==>
          s.issues[k].ticketId in s.tickets && s.tickets[s.issues[k].ticketId].escalationStatus == Successful)
    && (forall t :: t in s.tickets && s.tickets[t].escalationStatus == Successful ==> HasIssue(s, t))
    && (forall k1, k2 :: k1 in s.issues && k2 in s.issues && s.issues[k1].ticketId == s.issues[k2].ticketId ==> k1 == k2)
  }

  // ---------------------------------------------------------------------
  // getTicketForEscalation: the atomic claim

  /** The conditional update's guard: escalation neither in progress nor
      done, and the ticket neither resolved nor closed. */
  predicate Claimable(t: Ticket) {
    && t.escalationStatus != InProgress && t.escalationStatus != Successful
    && t.status != Resolved && t.status != Closed
  }

  /** One element of the snapshot's `comments`: the `support.comment_tuple`
      (creation time truncated to the second, id, content, author name). */
  datatype CommentTuple = CommentTuple(created: int, id: int, content: string, ownerName: Option<string>)

  /** The row the claim returns. */
  datatype Snapshot = Snapshot(
    id: int,
    status: TicketStatus,
    subject: string,
    description: string,
    category: string,
    schoolId: string,
    ownerName: string,
    attachments: seq<string>,
    comments: seq<CommentTuple>)

  /** `date_trunc('second', created)`, in seconds. */
  function TruncSeconds(micros: int): int {
    micros / 1_000_000
  }

  /** The comment tuples of one ticket, in table order
      (`LEFT JOIN support.users AS v ON c.owner = v.id`). */
  function TicketComments(rows: seq<CommentRow>, ticketId: int, users: map<string, string>): (r: seq<CommentTuple>)
    ensures |r| <= |rows|
  {
    if |rows| == 0 then []
    else
      var c := rows[0];
      var rest := TicketComments(rows[1..], ticketId, users);
      if c.ticketId == ticketId then
        [CommentTuple(TruncSeconds(c.created), c.id, c.content, if c.owner in users then Some(users[c.owner]) else None)] + rest
      else rest
  }

  /** The document ids attached to one ticket, in table order. */
  function TicketDocuments(rows: seq<AttachmentRow>, ticketId: int): (r: seq<string>)
    ensures forall d :: d in r <==> exists i :: 0 <= i < |rows| && rows[i].ticketId == ticketId && rows[i].documentId == d
  {
    if |rows| == 0 then []
    else
      var rest := TicketDocuments(rows[1..], ticketId);
      assert forall i :: 0 < i < |rows| ==> rows[i] == rows[1..][i - 1];
      if rows[0].ticketId == ticketId then [rows[0].documentId] + rest else rest
  }

  /** The order of the aggregate: by truncated creation time, then id.
      Comment ids are a primary key, so content and author never decide. */
  predicate Before(a: CommentTuple, b: CommentTuple) {
    a.created < b.created || (a.created == b.created && a.id <= b.id)
  }

  predicate SortedComments(cs: seq<CommentTuple>) {
    forall i, j :: 0 <= i < j < |cs| ==> Before(cs[i], cs[j])
  }

  function InsertComment(c: CommentTuple, cs: seq<CommentTuple>): (r: seq<CommentTuple>)
    requires SortedComments(cs)
    ensures SortedComments(r)
    ensures multiset(r) == multiset(cs) + multiset{c}
  {
    if |cs| == 0 then [c]
    else if Before(c, cs[0]) then [c] + cs
    else
      var tail := InsertComment(c, cs[1..]);
      assert cs == [cs[0]] + cs[1..];
      HeadBeforeInsert(c, cs, tail);
      ConsSorted(cs[0], tail);
      [cs[0]] + tail
  }

  /** The head of a sorted sequence that `c` does not precede comes before
      every element of the rest with `c` inserted. */
  lemma HeadBeforeInsert(c: CommentTuple, cs: seq<CommentTuple>, tail: seq<CommentTuple>)
    requires SortedComments(cs) && |cs| > 0 && !Before(c, cs[0])
    requires multiset(tail) == multiset(cs[1..]) + multiset{c}
    ensures forall j :: 0 <= j < |tail| ==> Before(cs[0], tail[j])
  {
    forall j | 0 <= j < |tail|
      ensures Before(cs[0], tail[j])
    {
      assert tail[j] in multiset(tail);
      if tail[j] != c {
        assert tail[j] in cs[1..];
      }
    }
  }

  /** A sorted sequence stays sorted behind an element that precedes all of it. */
  lemma ConsSorted(h: CommentTuple, tail: seq<CommentTuple>)
    requires SortedComments(tail)
    requires forall j :: 0 <= j < |tail| ==> Before(h, tail[j])
    ensures SortedComments([h] + tail)
  {
    var r := [h] + tail;
    forall i, j | 0 <= i < j < |r|
      ensures Before(r[i], r[j])
    {
      assert r[j] == tail[j - 1];
      if i > 0 {
        assert r[i] == tail[i - 1];
      }
    }
  }

  /** `json_agg(... ORDER BY ...)`: the comments sorted, none lost or added. */
  function SortComments(cs: seq<CommentTuple>): (r: seq<CommentTuple>)
    ensures SortedComments(r)
    ensures multiset(r) == multiset(cs)
  {
    if |cs| == 0 then []
    else
      assert cs == [cs[0]] + cs[1..];
      InsertComment(cs[0], SortComments(cs[1..]))
  }

  datatype ClaimResult = ClaimResult(store: Store, snapshot: Option<Snapshot>)

  /** `getTicketForEscalation`: one statement that sets the escalation status
      to IN_PROGRESS only when the ticket is claimable, and selects the
      updated row joined with its owner's name, its distinct document ids and
      its ordered comments. No updated row, or an owner missing from
      `support.users` (inner join), gives no snapshot. */
  function GetTicketForEscalation(s: Store, ticketId: int, now: int): (r: ClaimResult)
    ensures ticketId !in s.tickets || !Claimable(s.tickets[ticketId]) ==> r.store == s && r.snapshot.None?
    ensures ticketId in s.tickets && Claimable(s.tickets[ticketId]) ==>
      r.store == s.(tickets := s.tickets[ticketId := s.tickets[ticketId].(escalationStatus := InProgress, escalationDate := Some(now))])
    ensures r.snapshot.Some? <==>
      ticketId in s.tickets && Claimable(s.tickets[ticketId]) && s.tickets[ticketId].owner in s.users
    ensures r.snapshot.Some? ==>
      && r.snapshot.value.id == ticketId
      && r.snapshot.value.ownerName == s.users[s.tickets[ticketId].owner]
      && NoDup(r.snapshot.value.attachments)
      && (forall d :: d in r.snapshot.value.attachments <==>
            exists i :: 0 <= i < |s.attachments| && s.attachments[i].ticketId == ticketId && s.attachments[i].documentId == d)
      && SortedComments(r.snapshot.value.comments)
      && multiset(r.snapshot.value.comments) == multiset(TicketComments(s.comments, ticketId, s.users))
  {
    if ticketId !in s.tickets || !Claimable(s.tickets[ticketId]) then ClaimResult(s, None)
    else
      var t := s.tickets[ticketId].(escalationStatus := InProgress, escalationDate := Some(now));
      var s' := s.(tickets := s.tickets[ticketId := t]);
      if t.owner !in s'.users then ClaimResult(s', None)
      else
        var snap := Snapshot(
          ticketId, t.status, t.subject, t.description, t.category, t.schoolId, s'.users[t.owner],
          Dedup(TicketDocuments(s'.attachments, ticketId)),
          SortComments(TicketComments(s'.comments, ticketId, s'.users)));
        ClaimResult(s', Some(snap))
  }

  /** Two claims of one ticket: once the first succeeds, the second is a
      conflict and changes nothing. */
  lemma ClaimIsExclusive(s: Store, ticketId: int, now1: int, now2: int)
    requires GetTicketForEscalation(s, ticketId, now1).snapshot.Some?
    ensures var s1 := GetTicketForEscalation(s, ticketId, now1).store;
      && GetTicketForEscalation(s1, ticketId, now2).snapshot.None?
      && GetTicketForEscalation(s1, ticketId, now2).store == s1
  {
    var s1 := GetTicketForEscalation(s, ticketId, now1).store;
    assert s1.tickets[ticketId].escalationStatus == InProgress;
  }

  /** The claim keeps the escalation invariant. */
  lemma ClaimKeepsInv(s: Store, ticketId: int, now: int)
    requires Inv(s)
    ensures Inv(GetTicketForEscalation(s, ticketId, now).store)
  {
    var s' := GetTicketForEscalation(s, ticketId, now).store;
    if ticketId in s.tickets && Claimable(s.tickets[ticketId]) {
      assert !HasIssue(s, ticketId);
      forall t | t in s'.tickets && s'.tickets[t].escalationStatus == Successful
        ensures HasIssue(s', t)
      {
        assert t != ticketId;
        assert HasIssue(s, t);
      }
    }
  }

  // ---------------------------------------------------------------------
  // updateTicketAfterEscalation, endSuccessfulEscalation, endFailedEscalation

  /** The links inserted for a successful escalation: one per attachment of
      the issue, with the workspace document the upload map gives for its id;
      none when the issue is empty, has no attachments or the map is empty. */
  function EscalationLinks(issue: IssueDoc, issueId: int, attachmentMap: map<int, string>): (r: seq<(int, LinkRow)>)
    ensures var atts := ExtractAttachmentsFromIssue(issue);
      if NonEmpty(issue) && atts.Got? && atts.member.Some? && |atts.member.value| > 0 && |attachmentMap| > 0 then
        var a := atts.member.value;
        && |r| == |a|
        && forall i :: 0 <= i < |r| ==>
             && r[i].0 == a[i].id
             && r[i].1.issueId == issueId
             && r[i].1.documentId == (if a[i].id in attachmentMap then Some(attachmentMap[a[i].id]) else None)
             && r[i].1.gridfsId.None?
             && r[i].1.name == a[i].filename
             && r[i].1.size == a[i].filesize
      else r == []
  {
    var atts := ExtractAttachmentsFromIssue(issue);
    if NonEmpty(issue) && atts.Got? && atts.member.Some? && |atts.member.value| > 0 && |attachmentMap| > 0 then
      var a := atts.member.value;
      seq(|a|, i requires 0 <= i < |a| =>
        (a[i].id, LinkRow(issueId, if a[i].id in attachmentMap then Some(attachmentMap[a[i].id]) else None, None, a[i].filename, a[i].filesize)))
    else []
  }

  /** A non-empty document without an `issue` object: reading its
      attachments for the links throws, before the transaction is sent. */
  predicate ReadingAttachmentsThrows(issue: IssueDoc) {
    NonEmpty(issue) && ExtractAttachmentsFromIssue(issue).Throws?
  }

  /** The keys of a batch of rows. */
  function Keys<R>(rows: seq<(int, R)>): (r: seq<int>)
    ensures |r| == |rows|
    ensures forall i :: 0 <= i < |rows| ==> r[i] == rows[i].0
  {
    seq(|rows|, i requires 0 <= i < |rows| => rows[i].0)
  }

  /** A multi-row INSERT into a keyed table. */
  function InsertRows<R>(m: map<int, R>, rows: seq<(int, R)>): (r: map<int, R>)
    requires NoDup(Keys(rows))
    ensures forall k :: k in r <==> k in m || k in Keys(rows)
    ensures forall i :: 0 <= i < |rows| ==> r[rows[i].0] == rows[i].1
    ensures forall k :: k in m && k !in Keys(rows) ==> r[k] == m[k]
  {
    if |rows| == 0 then m
    else
      var n := |rows| - 1;
      LastKeyFresh(rows);
      var prev := InsertRows(m, rows[..n]);
      assert forall i :: 0 <= i < n ==> prev[rows[i].0] == rows[..n][i].1;
      prev[rows[n].0 := rows[n].1]
  }

  /** Distinct keys: the rows before the last have distinct keys, and the
      last key is none of theirs. */
  lemma LastKeyFresh<R>(rows: seq<(int, R)>)
    requires |rows| > 0 && NoDup(Keys(rows))
    ensures NoDup(Keys(rows[..|rows| - 1]))
    ensures forall k :: k in Keys(rows) <==> k in Keys(rows[..|rows| - 1]) || k == rows[|rows| - 1].0
    ensures forall i :: 0 <= i < |rows| - 1 ==> rows[i].0 != rows[|rows| - 1].0
  {
    var n := |rows| - 1;
    var ks := Keys(rows);
    assert Keys(rows[..n]) == ks[..n];
    assert ks == ks[..n] + [ks[n]];
    forall i | 0 <= i < n ensures rows[i].0 != rows[n].0 {
      assert ks[i] == rows[i].0 && ks[n] == rows[n].0;
    }
  }

  /** Whether the transaction of a successful escalation commits: the issue
      id is present and new, the ticket exists and has no issue yet, and the
      link ids are new and distinct. */
  predicate SuccessCommits(s: Store, ticketId: int, issueId: Option<int>, links: seq<(int, LinkRow)>) {
    && issueId.Some? && issueId.value !in s.issues
    && ticketId in s.tickets && !HasIssue(s, ticketId)
    && NoDup(Keys(links))
    && forall i :: 0 <= i < |links| ==> links[i].0 !in s.links
  }

  datatype StoreResult = StoreResult(store: Store, result: Either<string, ()>)

  /** What ending an escalation gives: the store, and the handler's reply;
      `None` when an exception is thrown before anything is sent, so that
      no reply ever comes. */
  datatype EscalationEnd = EscalationEnd(store: Store, reply: Option<Either<string, ()>>)

  /** `updateTicketAfterEscalation`. For any target other than SUCCESSFUL,
      one update of the escalation status and date, which touches nothing
      else (and nothing at all when the ticket is gone). For SUCCESSFUL, one
      transaction: the status update, the user upsert, one issue row
      (issue id, ticket id, content, owner) and one link per issue
      attachment; either all of it lands or none of it. A non-empty issue
      without an `issue` object throws while the links are built: nothing
      is sent and nothing replies. */
  function UpdateTicketAfterEscalation(
    s: Store, ticketId: int, target: EscalationStatus, issue: IssueDoc, issueId: Option<int>,
    attachmentMap: map<int, string>, user: User, now: int): (r: EscalationEnd)
    ensures target != Successful ==>
      && r.reply == Some(Right(()))
      && r.store.users == s.users && r.store.issues == s.issues && r.store.links == s.links
      && r.store.comments == s.comments && r.store.attachments == s.attachments && r.store.histo == s.histo
      && r.store.tickets.Keys == s.tickets.Keys
      && (ticketId in s.tickets ==>
            r.store.tickets == s.tickets[ticketId := s.tickets[ticketId].(escalationStatus := target, escalationDate := Some(now))])
      && (ticketId !in s.tickets ==> r.store == s)
    ensures target == Successful && ReadingAttachmentsThrows(issue) ==> r.store == s && r.reply.None?
    ensures target == Successful && !ReadingAttachmentsThrows(issue) ==>
      var links := if issueId.Some? then EscalationLinks(issue, issueId.value, attachmentMap) else [];
      if SuccessCommits(s, ticketId, issueId, links) then
        && r.reply == Some(Right(()))
        && r.store.tickets == s.tickets[ticketId := s.tickets[ticketId].(escalationStatus := Successful, escalationDate := Some(now))]
        && r.store.users == s.users[user.id := user.username]
        && r.store.issues == s.issues[issueId.value := IssueRow(ticketId, issue, user.id)]
        && (forall k :: k in r.store.links <==> k in s.links || k in Keys(links))
        && (forall i :: 0 <= i < |links| ==> r.store.links[links[i].0] == links[i].1)
        && (forall k :: k in s.links ==> r.store.links[k] == s.links[k])
        && r.store.comments == s.comments && r.store.attachments == s.attachments && r.store.histo == s.histo
      else r.store == s && r.reply == Some(Left(TransactionRefused))
  {
    if target != Successful then
      if ticketId in s.tickets then
        var t := s.tickets[ticketId].(escalationStatus := target, escalationDate := Some(now));
        EscalationEnd(s.(tickets := s.tickets[ticketId := t]), Some(Right(())))
      else EscalationEnd(s, Some(Right(())))
    else if ReadingAttachmentsThrows(issue) then EscalationEnd(s, None)
    else
      var links := if issueId.Some? then EscalationLinks(issue, issueId.value, attachmentMap) else [];
      if !SuccessCommits(s, ticketId, issueId, links) then EscalationEnd(s, Some(Left(TransactionRefused)))
      else
        var t := s.tickets[ticketId].(escalationStatus := Successful, escalationDate := Some(now));
        var s1 := UpsertUser(s.(tickets := s.tickets[ticketId := t]), user);
        var s2 := s1.(issues := s1.issues[issueId.value := IssueRow(ticketId, issue, user.id)]);
        EscalationEnd(s2.(links := InsertRows(s2.links, links)), Some(Right(())))
  }

  /** `endSuccessfulEscalation` */
  function EndSuccessfulEscalation(
    s: Store, ticketId: int, issue: IssueDoc, issueId: Option<int>,
    attachmentMap: map<int, string>, user: User, now: int): EscalationEnd
  {
    UpdateTicketAfterEscalation(s, ticketId, Successful, issue, issueId, attachmentMap, user, now)
  }

  /** `endFailedEscalation` */
  function EndFailedEscalation(s: Store, ticketId: int, user: User, now: int): EscalationEnd
  {
    UpdateTicketAfterEscalation(s, ticketId, Failed, EmptyIssue, None, map[], user, now)
  }

  /** Recording a failure for a claimed ticket keeps the invariant. */
  lemma EndFailedKeepsInv(s: Store, ticketId: int, user: User, now: int)
    requires Inv(s)
    requires ticketId in s.tickets && s.tickets[ticketId].escalationStatus == InProgress
    ensures Inv(EndFailedEscalation(s, ticketId, user, now).store)
  {
    var s' := EndFailedEscalation(s, ticketId, user, now).store;
    assert !HasIssue(s, ticketId);
    forall t | t in s'.tickets && s'.tickets[t].escalationStatus == Successful
      ensures HasIssue(s', t)
    {
      assert t != ticketId;
      assert HasIssue(s, t);
    }
  }

  /** Recording a success keeps the invariant, whether or not it commits. */
  lemma EndSuccessfulKeepsInv(
    s: Store, ticketId: int, issue: IssueDoc, issueId: Option<int>,
    attachmentMap: map<int, string>, user: User, now: int)
    requires Inv(s)
    ensures Inv(EndSuccessfulEscalation(s, ticketId, issue, issueId, attachmentMap, user, now).store)
  {
    var r := EndSuccessfulEscalation(s, ticketId, issue, issueId, attachmentMap, user, now);
    if r.reply == Some(Right(())) {
      var s' := r.store;
      var id := issueId.value;
      assert s'.issues[id].ticketId == ticketId;
      forall t | t in s'.tickets && s'.tickets[t].escalationStatus == Successful
        ensures HasIssue(s', t)
      {
        if t != ticketId {
          var k :| k in s.issues && s.issues[k].ticketId == t;
          assert s'.issues[k] == s.issues[k];
        }
      }
    }
  }

  // ---------------------------------------------------------------------
  // updateIssue, listExistingIssues, insertIssueAttachment

  datatype RefreshResult = RefreshResult(store: Store, previousStatusId: Option<int>)

  /** `updateIssue`: overwrite the stored content and return the status id
      read from the content it replaces (nothing when the issue is unknown). */
  function UpdateIssue(s: Store, issueId: int, content: IssueDoc): (r: RefreshResult)
    ensures issueId in s.issues ==>
      && r.store == s.(issues := s.issues[issueId := s.issues[issueId].(content := content)])
      && r.previousStatusId == StatusId(s.issues[issueId].content)
    ensures issueId !in s.issues ==> r.store == s && r.previousStatusId.None?
  {
    if issueId in s.issues then
      RefreshResult(s.(issues := s.issues[issueId := s.issues[issueId].(content := content)]),
                    StatusId(s.issues[issueId].content))
    else RefreshResult(s, None)
  }

  /** Two refreshes in a row: the second reports the status the first stored. */
  lemma UpdateIssueReturnsPrevious(s: Store, issueId: int, c1: IssueDoc, c2: IssueDoc)
    requires issueId in s.issues
    ensures UpdateIssue(UpdateIssue(s, issueId, c1).store, issueId, c2).previousStatusId == StatusId(c1)
  {
  }

  /** The tracker ids of the attachments already linked to an issue. */
  function LinkedIds(s: Store, issueId: int): set<int> {
    set a | a in s.links && s.links[a].issueId == issueId
  }

  /** `listExistingIssues`: the known issues among `issueIds` (all of them
      when the list is empty), each with the ids of its linked attachments
      (the empty array when there are none). */
  function ListExistingIssues(s: Store, issueIds: seq<int>): (r: map<int, set<int>>)
    ensures forall k :: k in r <==> k in s.issues && (|issueIds| == 0 || k in issueIds)
    ensures forall k :: k in r ==> forall a :: a in r[k] <==> a in s.links && s.links[a].issueId == k
  {
    map k | k in s.issues && (|issueIds| == 0 || k in issueIds) :: LinkedIds(s, k)
  }

  /** `insertIssueAttachment`: link a downloaded attachment, stored as a blob,
      to an issue. A second link under the same attachment id is refused. */
  function InsertIssueAttachment(s: Store, issueId: int, attachmentId: int, gridfsId: string, name: string, size: int): (r: StoreResult)
    ensures attachmentId !in s.links ==>
      && r.result.Right?
      && r.store == s.(links := s.links[attachmentId := LinkRow(issueId, None, Some(gridfsId), name, size)])
    ensures attachmentId in s.links ==> r.store == s && r.result.Left?
  {
    if attachmentId in s.links then StoreResult(s, Left(TransactionRefused))
    else StoreResult(s.(links := s.links[attachmentId := LinkRow(issueId, None, Some(gridfsId), name, size)]), Right(()))
  }

  /** `getTicketIdAndSchoolId`: the ticket an issue belongs to. */
  datatype TicketInfo = TicketInfo(id: int, schoolId: string, owner: string, locale: string, status: TicketStatus)

  function GetTicketIdAndSchoolId(s: Store, issueId: int): (r: Option<TicketInfo>)
    ensures r.Some? <==> issueId in s.issues && s.issues[issueId].ticketId in s.tickets
    ensures r.Some? ==> r.value.id == s.issues[issueId].ticketId
  {
    if issueId in s.issues && s.issues[issueId].ticketId in s.tickets then
      var tid := s.issues[issueId].ticketId;
      var t := s.tickets[tid];
      Some(TicketInfo(tid, t.schoolId, t.owner, t.locale, t.status))
    else None
  }

  // ---------------------------------------------------------------------
  // updateEventCount

  /** `updateEventCount`: the statement touches only the ticket's counter. */
  function UpdateEventCount(s: Store, ticketId: int): (r: Store)
    ensures r.tickets.Keys == s.tickets.Keys
    ensures ticketId in s.tickets ==> r.tickets[ticketId] == s.tickets[ticketId].(eventCount := r.tickets[ticketId].eventCount)
    ensures forall t :: t in s.tickets && t != ticketId ==> r.tickets[t] == s.tickets[t]
    ensures r == s.(tickets := r.tickets)
  {
    if ticketId in s.tickets then
      s.(tickets := s.tickets[ticketId := s.tickets[ticketId].(eventCount := s.tickets[ticketId].eventCount + 1)])
    else s
  }

  /** A run of `updateEventCount` statements, one per event, in order. */
  function CountEvents(s: Store, events: seq<int>): Store
    decreases |events|
  {
    if |events| == 0 then s else CountEvents(UpdateEventCount(s, events[0]), events[1..])
  }

  /** The counter counts: after a run of events, each ticket's count has
      grown by the number of events on it, and nothing else has changed. */
  lemma {:induction false} EventCountCounts(s: Store, events: seq<int>)
    ensures var r := CountEvents(s, events);
      && r == s.(tickets := r.tickets)
      && r.tickets.Keys == s.tickets.Keys
      && forall t :: t in s.tickets ==>
           r.tickets[t] == s.tickets[t].(eventCount := s.tickets[t].eventCount + multiset(events)[t])
    decreases |events|
  {
    if |events| > 0 {
      var s1 := UpdateEventCount(s, events[0]);
      EventCountCounts(s1, events[1..]);
      assert events == [events[0]] + events[1..];
      assert multiset(events) == multiset{events[0]} + multiset(events[1..]);
    }
  }

  // ---------------------------------------------------------------------
  // createTicketHisto and listEvents

  /** `createTicketHisto`: the statement appends one row to the history
      table and touches nothing else. */
  function CreateTicketHisto(s: Store, ticketId: int, event: string, status: int, userId: Option<string>, eventType: int): (r: Store)
    ensures r == s.(histo := r.histo)
    ensures |r.histo| == |s.histo| + 1 && r.histo[..|s.histo|] == s.histo
  {
    s.(histo := s.histo + [HistoRow(ticketId, event, status, userId, eventType)])
  }

  /** The history rows of one ticket, in table order. */
  function EventsOf(rows: seq<HistoRow>, ticketId: int): (r: seq<HistoRow>)
    ensures forall h :: h in r <==> h in rows && h.ticketId == ticketId
  {
    if |rows| == 0 then []
    else
      var n := |rows| - 1;
      assert rows == rows[..n] + [rows[n]];
      var prev := EventsOf(rows[..n], ticketId);
      if rows[n].ticketId == ticketId then prev + [rows[n]] else prev
  }

  /** `listEvents`: the history of a ticket, every row of it and no other. */
  function ListEvents(s: Store, ticketId: int): (r: seq<HistoRow>)
    ensures forall h :: h in r <==> h in s.histo && h.ticketId == ticketId
  {
    EventsOf(s.histo, ticketId)
  }

  /** Recording an event adds exactly that event to the ticket's history,
      after the ones before it, and leaves every other ticket's history as
      it was. */
  lemma HistoryGrowsByOne(s: Store, ticketId: int, event: string, status: int, userId: Option<string>, eventType: int)
    ensures var r := CreateTicketHisto(s, ticketId, event, status, userId, eventType);
      && ListEvents(r, ticketId) == ListEvents(s, ticketId) + [HistoRow(ticketId, event, status, userId, eventType)]
      && forall t :: t != ticketId ==> ListEvents(r, t) == ListEvents(s, t)
  {
    var r := CreateTicketHisto(s, ticketId, event, status, userId, eventType);
    assert r.histo[..|r.histo| - 1] == s.histo;
  }

  // ---------------------------------------------------------------------
  // updateTicket and insertAttachments

  /** A JSON value of a request body. `VAttachments` is the array a body may
      carry under `attachments`; `VNow` stands for SQL `NOW()` in a SET
      clause, and is never sent by a client. */
  datatype Value =
    | VStr(s: string)
    | VInt(i: int)
    | VBool(b: bool)
    | VNull
    | VAttachments(items: seq<AttachmentElem>)
    | VNow

  /** One element of a body's `attachments` array: the descriptor of a
      workspace document, or a value that is not a JSON object. */
  datatype AttachmentElem = Descriptor(doc: AttachmentInput) | NotAnObject

  /** A workspace document descriptor. */
  datatype AttachmentInput = AttachmentInput(id: string, name: string, size: int)

  /** The field names of a JSON object are distinct. */
  predicate DistinctNames(data: seq<(string, Value)>) {
    forall i, j :: 0 <= i < j < |data| ==> data[i].0 != data[j].0
  }

  function Field(data: seq<(string, Value)>, name: string): (r: Option<Value>)
    ensures r.Some? <==> exists i :: 0 <= i < |data| && data[i].0 == name
    ensures DistinctNames(data) ==> forall i :: 0 <= i < |data| && data[i].0 == name ==> r == Some(data[i].1)
  {
    if |data| == 0 then None
    else if data[0].0 == name then Some(data[0].1)
    else
      var r := Field(data[1..], name);
      assert forall i :: 1 <= i < |data| ==> data[i] == data[1..][i - 1];
      r
  }

  /** The descriptors of an array, in order; the other elements are skipped. */
  function Descriptors(items: seq<AttachmentElem>): (r: seq<AttachmentInput>)
    ensures |r| <= |items|
    ensures forall a :: a in r <==> Descriptor(a) in items
  {
    if |items| == 0 then []
    else
      var rest := Descriptors(items[1..]);
      assert forall e :: e in items <==> e == items[0] || e in items[1..];
      match items[0]
      case Descriptor(a) => [a] + rest
      case NotAnObject => rest
  }

  /** The document ids of a run of descriptors. */
  function DocumentIds(atts: seq<AttachmentInput>): (r: seq<string>)
    ensures |r| == |atts|
    ensures forall i :: 0 <= i < |atts| ==> r[i] == atts[i].id
  {
    seq(|atts|, i requires 0 <= i < |atts| => atts[i].id)
  }

  /** The `support.attachments` rows of a run of descriptors, owned by the
      acting user and attached to the ticket. */
  function AttachmentRows(atts: seq<AttachmentInput>, user: User, ticketId: int): (r: seq<AttachmentRow>)
    ensures |r| == |atts|
    ensures forall i :: 0 <= i < |r| ==> r[i].ticketId == ticketId && r[i].owner == user.id
  {
    seq(|atts|, i requires 0 <= i < |atts| => AttachmentRow(atts[i].id, atts[i].name, atts[i].size, user.id, ticketId))
  }

  /** `insertAttachments`: no statement for a null or empty array; otherwise
      one multi-row INSERT with a row per descriptor. When no element is a
      descriptor the trailing character removed from the statement text is
      the last of `VALUES`, and the statement, `Some([])`, cannot run. */
  function InsertAttachments(items: Option<seq<AttachmentElem>>, user: User, ticketId: int): (r: Option<seq<AttachmentRow>>)
    ensures r.None? <==> items.None? || |items.value| == 0
  {
    if items.None? || |items.value| == 0 then None
    else Some(AttachmentRows(Descriptors(items.value), user, ticketId))
  }

  /** Running an attachment statement: `None` when it cannot run. */
  function RunInsert(s: Store, statement: Option<seq<AttachmentRow>>): Option<Store> {
    match statement
    case None => Some(s)
    case Some(rows) => if |rows| == 0 then None else Some(s.(attachments := s.attachments + rows))
  }

  /** The documents of a ticket in concatenated tables. */
  lemma {:induction false} TicketDocumentsAppend(a: seq<AttachmentRow>, b: seq<AttachmentRow>, ticketId: int)
    ensures TicketDocuments(a + b, ticketId) == TicketDocuments(a, ticketId) + TicketDocuments(b, ticketId)
  {
    if |a| == 0 {
      assert a + b == b;
    } else {
      assert (a + b)[1..] == a[1..] + b;
      TicketDocumentsAppend(a[1..], b, ticketId);
    }
  }

  /** The rows built for a ticket list exactly their documents under it. */
  lemma {:induction false} RowsDocuments(atts: seq<AttachmentInput>, user: User, ticketId: int, t: int)
    ensures TicketDocuments(AttachmentRows(atts, user, ticketId), t) == if t == ticketId then DocumentIds(atts) else []
  {
    if |atts| > 0 {
      var rows := AttachmentRows(atts, user, ticketId);
      assert rows[1..] == AttachmentRows(atts[1..], user, ticketId);
      RowsDocuments(atts[1..], user, ticketId, t);
      assert DocumentIds(atts) == [atts[0].id] + DocumentIds(atts[1..]);
    }
  }

  /** A run of elements with no descriptor among them. */
  lemma NoDescriptors(items: seq<AttachmentElem>)
    ensures |Descriptors(items)| == 0 <==> forall e :: e in items ==> e.NotAnObject?
  {
    if |Descriptors(items)| > 0 {
      assert Descriptors(items)[0] in Descriptors(items);
    }
  }

  /** Inserted attachments read back: the ticket's documents grow by the
      descriptors' ids, in order, other tickets' documents and the other
      tables stay as they were; the statement fails exactly when the array
      is non-empty and holds no descriptor. */
  lemma InsertedAttachmentsListed(s: Store, items: Option<seq<AttachmentElem>>, user: User, ticketId: int)
    ensures var r := RunInsert(s, InsertAttachments(items, user, ticketId));
      && (r.None? <==> items.Some? && |items.value| > 0 && forall e :: e in items.value ==> e.NotAnObject?)
      && (r.Some? ==>
            && r.value == s.(attachments := r.value.attachments)
            && TicketDocuments(r.value.attachments, ticketId) ==
                 TicketDocuments(s.attachments, ticketId) + (if items.Some? then DocumentIds(Descriptors(items.value)) else [])
            && forall t :: t != ticketId ==> TicketDocuments(r.value.attachments, t) == TicketDocuments(s.attachments, t))
  {
    if items.Some? {
      NoDescriptors(items.value);
      var rows := AttachmentRows(Descriptors(items.value), user, ticketId);
      TicketDocumentsAppend(s.attachments, rows, ticketId);
      RowsDocuments(Descriptors(items.value), user, ticketId, ticketId);
      forall t | t != ticketId
        ensures TicketDocuments(s.attachments + rows, t) == TicketDocuments(s.attachments, t)
      {
        TicketDocumentsAppend(s.attachments, rows, t);
        RowsDocuments(Descriptors(items.value), user, ticketId, t);
      }
    }
  }

  const ExcludedFields: set<string> := {"newComment", "attachments"}

  /** The comment row `updateTicket` inserts. */
  datatype CommentInsert = CommentInsert(ticketId: int, owner: string, content: string)

  /** The statements of `updateTicket`'s transaction. */
  datatype UpdateStatements = UpdateStatements(
    upsertUser: User,
    assignments: seq<(string, Value)>,
    whereId: int,
    comment: Option<CommentInsert>,
    attachments: Option<seq<AttachmentRow>>)

  function SetClauses(data: seq<(string, Value)>): (r: seq<(string, Value)>)
    ensures |r| <= |data|
    ensures forall f :: f in r <==> f in data && f.0 !in ExcludedFields
    ensures DistinctNames(data) ==> DistinctNames(r)
  {
    if |data| == 0 then []
    else
      var rest := SetClauses(data[1..]);
      assert forall f :: f in data <==> f == data[0] || f in data[1..];
      if data[0].0 in ExcludedFields then rest
      else
        assert forall f :: f in rest ==> f in data[1..];
        [data[0]] + rest
  }

  /** `getString("newComment", null)` and the blank test: `Throws` for a
      member that is not a string, `Got(None)` when no comment row is due
      (absent, null or blank), the comment otherwise. */
  function NewComment(data: seq<(string, Value)>): (r: Access<string>)
    requires DistinctNames(data)
    ensures r.Throws? <==>
      exists i :: 0 <= i < |data| && data[i].0 == "newComment" && !data[i].1.VStr? && !data[i].1.VNull?
    ensures (r.Got? && r.member.Some?) <==>
      exists i :: 0 <= i < |data| && data[i].0 == "newComment" && data[i].1.VStr? && !IsBlank(data[i].1.s)
    ensures r.Got? && r.member.Some? ==> Field(data, "newComment") == Some(VStr(r.member.value))
  {
    match Field(data, "newComment")
    case None => Got(None)
    case Some(VNull) => Got(None)
    case Some(VStr(c)) => TrimEmptyIffBlank(c); if Trim(c) == "" then Got(None) else Got(Some(c))
    case Some(_) => Throws
  }

  /** `getArray("attachments", null)`: `Throws` for a member that is not an
      array. */
  function BodyAttachments(data: seq<(string, Value)>): (r: Access<seq<AttachmentElem>>)
    requires DistinctNames(data)
    ensures r.Throws? <==>
      exists i :: 0 <= i < |data| && data[i].0 == "attachments" && !data[i].1.VAttachments? && !data[i].1.VNull?
    ensures r.Got? && r.member.Some? <==>
      exists i :: 0 <= i < |data| && data[i].0 == "attachments" && data[i].1.VAttachments?
    ensures r.Got? && r.member.Some? ==> Field(data, "attachments") == Some(VAttachments(r.member.value))
  {
    match Field(data, "attachments")
    case None => Got(None)
    case Some(VNull) => Got(None)
    case Some(VAttachments(items)) => Got(Some(items))
    case Some(_) => Throws
  }

  /** `updateTicket`: every body field but `newComment` and `attachments`
      becomes a SET clause, in body order, followed by `modified = NOW()`;
      a comment row only for a non-blank `newComment`; the body's
      attachments for the ticket. A `newComment` that is not a string or
      `attachments` that are not an array throw before anything is sent:
      `None`, and the handler never replies. */
  function UpdateTicket(ticketId: int, data: seq<(string, Value)>, user: User): (r: Option<UpdateStatements>)
    requires DistinctNames(data)
    ensures r.None? <==> NewComment(data).Throws? || BodyAttachments(data).Throws?
    ensures r.Some? ==>
      var st := r.value;
      && |st.assignments| >= 1 && st.assignments[|st.assignments| - 1] == ("modified", VNow)
      && (forall f :: f in st.assignments[..|st.assignments| - 1] <==> f in data && f.0 !in ExcludedFields)
      && st.whereId == ticketId && st.upsertUser == user
      && (st.comment.Some? <==>
            exists i :: 0 <= i < |data| && data[i].0 == "newComment" && data[i].1.VStr? && !IsBlank(data[i].1.s))
      && (st.comment.Some? ==> st.comment.value.ticketId == ticketId && st.comment.value.owner == user.id)
      && (st.attachments.Some? <==>
            exists i :: 0 <= i < |data| && data[i].0 == "attachments" && data[i].1.VAttachments? && |data[i].1.items| > 0)
  {
    var comment := NewComment(data);
    var atts := BodyAttachments(data);
    if comment.Throws? || atts.Throws? then None
    else
      var sets := SetClauses(data) + [("modified", VNow)];
      assert sets[..|sets| - 1] == SetClauses(data);
      Some(UpdateStatements(user, sets, ticketId,
        if comment.member.Some? then Some(CommentInsert(ticketId, user.id, comment.member.value)) else None,
        InsertAttachments(atts.member, user, ticketId)))
  }

  // ---------------------------------------------------------------------
  // The ticket columns a SET clause may name

  const TextColumns: set<string> := {"subject", "description", "category", "school_id", "owner", "locale"}

  /** Whether a column of `support.tickets` takes a value: the text columns
      a string, `status` and `escalation_status` one of their codes,
      `event_count` an integer, `modified` the current time. */
  predicate Accepts(column: string, v: Value) {
    || (column in TextColumns && v.VStr?)
    || (column == "status" && v.VInt? && TicketStatuses.FromCode(v.i).Some?)
    || (column == "escalation_status" && v.VInt? && EscalationStatuses.FromCode(v.i).Some?)
    || (column == "event_count" && v.VInt?)
    || (column == "modified" && v.VNow?)
  }

  /** The value a column of a ticket reads as; `None` for the columns the
      ticket does not model. */
  function ReadColumn(t: Ticket, column: string): Option<Value> {
    if column == "subject" then Some(VStr(t.subject))
    else if column == "description" then Some(VStr(t.description))
    else if column == "category" then Some(VStr(t.category))
    else if column == "school_id" then Some(VStr(t.schoolId))
    else if column == "owner" then Some(VStr(t.owner))
    else if column == "locale" then Some(VStr(t.locale))
    else if column == "status" then Some(VInt(TicketStatuses.Code(t.status)))
    else if column == "escalation_status" then Some(VInt(EscalationStatuses.Code(t.escalationStatus)))
    else if column == "event_count" then Some(VInt(t.eventCount))
    else None
  }

  /** One SET clause applied to a ticket. */
  function Assign(t: Ticket, column: string, v: Value): Ticket
    requires Accepts(column, v)
  {
    if column == "subject" then t.(subject := v.s)
    else if column == "description" then t.(description := v.s)
    else if column == "category" then t.(category := v.s)
    else if column == "school_id" then t.(schoolId := v.s)
    else if column == "owner" then t.(owner := v.s)
    else if column == "locale" then t.(locale := v.s)
    else if column == "status" then t.(status := TicketStatuses.FromCode(v.i).value)
    else if column == "escalation_status" then t.(escalationStatus := EscalationStatuses.FromCode(v.i).value)
    else if column == "event_count" then t.(eventCount := v.i)
    else t
  }

  /** An assigned column reads back the value, and no other column changes. */
  lemma AssignReadsBack(t: Ticket, column: string, v: Value)
    requires Accepts(column, v)
    ensures column != "modified" ==> ReadColumn(Assign(t, column, v), column) == Some(v)
    ensures forall c :: c != column ==> ReadColumn(Assign(t, column, v), c) == ReadColumn(t, c)
  {
  }

  predicate AllAccepted(assignments: seq<(string, Value)>) {
    forall i :: 0 <= i < |assignments| ==> Accepts(assignments[i].0, assignments[i].1)
  }

  /** The SET clauses applied in order. */
  function Assignments(t: Ticket, assignments: seq<(string, Value)>): Ticket
    requires AllAccepted(assignments)
    decreases |assignments|
  {
    if |assignments| == 0 then t
    else Assignments(Assign(t, assignments[0].0, assignments[0].1), assignments[1..])
  }

  /** With distinct columns, each assigned column reads back its value and
      every column not assigned keeps its own. */
  lemma {:induction false} AssignmentsReadBack(t: Ticket, assignments: seq<(string, Value)>)
    requires AllAccepted(assignments) && DistinctNames(assignments)
    ensures forall i :: 0 <= i < |assignments| && assignments[i].0 != "modified" ==>
      ReadColumn(Assignments(t, assignments), assignments[i].0) == Some(assignments[i].1)
    ensures forall c :: (forall i :: 0 <= i < |assignments| ==> assignments[i].0 != c) ==>
      ReadColumn(Assignments(t, assignments), c) == ReadColumn(t, c)
    decreases |assignments|
  {
    if |assignments| > 0 {
      var a := assignments;
      var t1 := Assign(t, a[0].0, a[0].1);
      AssignReadsBack(t, a[0].0, a[0].1);
      assert forall i :: 1 <= i < |a| ==> a[i] == a[1..][i - 1];
      AssignmentsReadBack(t1, a[1..]);
      assert forall i :: 0 <= i < |a[1..]| ==> a[1..][i].0 != a[0].0;
    }
  }

  /** `updateTicket`'s transaction run against the store, all or nothing.
      It is refused when two SET clauses name the same column, a clause
      names a column outside the model or gives it a value of another type,
      or the attachment statement cannot run. An update of a missing ticket
      changes no ticket row. */
  function ApplyUpdate(s: Store, st: UpdateStatements, commentId: int, now: int): Option<Store> {
    if !DistinctNames(st.assignments) || !AllAccepted(st.assignments) then None
    else
      var s1 := UpsertUser(s, st.upsertUser);
      var tickets := if st.whereId in s.tickets then s.tickets[st.whereId := Assignments(s.tickets[st.whereId], st.assignments)] else s.tickets;
      var comments := match st.comment
        case Some(c) => s.comments + [CommentRow(commentId, c.ticketId, c.owner, c.content, now)]
        case None => s.comments;
      RunInsert(s1.(tickets := tickets, comments := comments), st.attachments)
  }

  /** Every field the body sends to a SET clause names a column other than
      `modified` (set once more by the update itself) and fits it. */
  predicate SetClausesFit(data: seq<(string, Value)>) {
    forall i :: 0 <= i < |data| && data[i].0 !in ExcludedFields ==>
      data[i].0 != "modified" && Accepts(data[i].0, data[i].1)
  }

  /** A non-empty attachment array without any descriptor. */
  predicate NoDescriptorArray(items: Option<seq<AttachmentElem>>) {
    items.Some? && |items.value| > 0 && forall e :: e in items.value ==> e.NotAnObject?
  }

  /** The update's SET clauses run exactly when the body's fields fit. */
  lemma SetClausesRun(data: seq<(string, Value)>)
    requires DistinctNames(data)
    ensures var a := SetClauses(data) + [("modified", VNow)];
      DistinctNames(a) && AllAccepted(a) <==> SetClausesFit(data)
  {
    var sets := SetClauses(data);
    var a := sets + [("modified", VNow)];
    if SetClausesFit(data) {
      forall i | 0 <= i < |sets| ensures sets[i].0 != "modified" && Accepts(sets[i].0, sets[i].1) {
        assert sets[i] in sets;
      }
      assert forall i :: 0 <= i < |sets| ==> a[i] == sets[i];
    }
    if DistinctNames(a) && AllAccepted(a) {
      forall i | 0 <= i < |data| && data[i].0 !in ExcludedFields
        ensures data[i].0 != "modified" && Accepts(data[i].0, data[i].1)
      {
        assert data[i] in sets;
        var j :| 0 <= j < |sets| && sets[j] == data[i];
        assert a[j] == data[i] && a[|sets|].0 == "modified";
      }
    }
  }

  /** Run on a ticket, the update's SET clauses leave every sent field
      reading back its value and every other column as it was. */
  lemma SetClausesReadBack(t: Ticket, data: seq<(string, Value)>)
    requires DistinctNames(data) && SetClausesFit(data)
    ensures var a := SetClauses(data) + [("modified", VNow)];
      && AllAccepted(a)
      && (forall i :: 0 <= i < |data| && data[i].0 !in ExcludedFields ==>
            ReadColumn(Assignments(t, a), data[i].0) == Some(data[i].1))
      && (forall c :: Field(data, c).None? ==> ReadColumn(Assignments(t, a), c) == ReadColumn(t, c))
  {
    var sets := SetClauses(data);
    var a := sets + [("modified", VNow)];
    SetClausesRun(data);
    AssignmentsReadBack(t, a);
    forall i | 0 <= i < |data| && data[i].0 !in ExcludedFields
      ensures ReadColumn(Assignments(t, a), data[i].0) == Some(data[i].1)
    {
      assert data[i] in sets;
      var j :| 0 <= j < |sets| && sets[j] == data[i];
      assert a[j] == data[i];
    }
    forall c | Field(data, c).None?
      ensures ReadColumn(Assignments(t, a), c) == ReadColumn(t, c)
    {
      if c != "modified" {
        forall j | 0 <= j < |a| ensures a[j].0 != c {
          if j < |sets| {
            assert sets[j] in sets;
          }
        }
      }
    }
  }

  /** The statements of an update that throws nothing, field by field. */
  lemma UpdateTicketStatements(ticketId: int, data: seq<(string, Value)>, user: User)
    requires DistinctNames(data)
    requires UpdateTicket(ticketId, data, user).Some?
    ensures var st := UpdateTicket(ticketId, data, user).value;
      && st.assignments == SetClauses(data) + [("modified", VNow)]
      && st.upsertUser == user && st.whereId == ticketId
      && st.comment == (if NewComment(data).member.Some? then Some(CommentInsert(ticketId, user.id, NewComment(data).member.value)) else None)
      && st.attachments == InsertAttachments(BodyAttachments(data).member, user, ticketId)
  {
  }

  /** What an accepted update does: the sent fields read back on the ticket
      and its other columns keep their values, no other ticket changes, the
      user is upserted, the comment row is added exactly for a non-blank
      `newComment`, and the ticket's documents grow by the descriptors'
      ids. It is accepted exactly when every sent field is a column taking
      its value (a sent `modified` is refused, being then set twice), and
      the attachments are not a non-empty array without a descriptor. */
  lemma UpdateTicketEffect(s: Store, ticketId: int, data: seq<(string, Value)>, user: User, commentId: int, now: int)
    requires DistinctNames(data)
    requires UpdateTicket(ticketId, data, user).Some?
    ensures var r := ApplyUpdate(s, UpdateTicket(ticketId, data, user).value, commentId, now);
      var items := BodyAttachments(data).member;
      && (r.Some? <==> SetClausesFit(data) && !NoDescriptorArray(items))
      && (r.Some? ==>
            && r.value.users == s.users[user.id := user.username]
            && r.value.tickets.Keys == s.tickets.Keys
            && (forall t :: t in s.tickets && t != ticketId ==> r.value.tickets[t] == s.tickets[t])
            && (ticketId in s.tickets ==>
                  && (forall i :: 0 <= i < |data| && data[i].0 !in ExcludedFields ==>
                        ReadColumn(r.value.tickets[ticketId], data[i].0) == Some(data[i].1))
                  && (forall c :: Field(data, c).None? ==>
                        ReadColumn(r.value.tickets[ticketId], c) == ReadColumn(s.tickets[ticketId], c)))
            && r.value.comments == s.comments +
                 (if NewComment(data).member.Some? then [CommentRow(commentId, ticketId, user.id, NewComment(data).member.value, now)] else [])
            && TicketDocuments(r.value.attachments, ticketId) ==
                 TicketDocuments(s.attachments, ticketId) + (if items.Some? then DocumentIds(Descriptors(items.value)) else [])
            && r.value.issues == s.issues && r.value.links == s.links && r.value.histo == s.histo)
  {
    var st := UpdateTicket(ticketId, data, user).value;
    UpdateTicketStatements(ticketId, data, user);
    SetClausesRun(data);
    var items := BodyAttachments(data).member;
    if SetClausesFit(data) {
      var tickets := if ticketId in s.tickets then s.tickets[ticketId := Assignments(s.tickets[ticketId], st.assignments)] else s.tickets;
      var comments := match st.comment
        case Some(c) => s.comments + [CommentRow(commentId, c.ticketId, c.owner, c.content, now)]
        case None => s.comments;
      var s2 := UpsertUser(s, user).(tickets := tickets, comments := comments);
      assert ApplyUpdate(s, st, commentId, now) == RunInsert(s2, st.attachments);
      InsertedAttachmentsListed(s2, items, user, ticketId);
      if ticketId in s.tickets {
        SetClausesReadBack(s.tickets[ticketId], data);
      }
    }
  }
}
