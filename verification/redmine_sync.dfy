/** The reconciliation half of `EscalationServiceRedmineImpl`: the periodic
    pull of the issues that changed in Redmine, the refresh of their stored
    copies, the download of attachments added on the tracker's side, and
    the timeline notification with its history row.

    Tracker replies, the directory's list of local administrators, blob
    storage and translations are inputs. A callback that throws ends its
    chain without any further effect. */
module RedmineReconciliation {
  import opened Results
  import opened Strings
  import opened Sequences
  import opened TicketStatuses
  import opened BugTracker
  import opened TicketServiceSql

  // ---------------------------------------------------------------------
  // listIssues: the query string

  const StatusFilter := "?status_id=*"
  const UpdatedSince := "updated_on=%3E%3D"
  const OffsetKey := "offset="
  const LimitKey := "limit="

  /** `query.append("&" + key).append(v)` when the parameter is present. */
  function WithParam(q: string, present: bool, key: string, v: string): string {
    if present then q + "&" + key + v else q
  }

  /** The query `listIssues` appends to the issues path: every status,
      then the optional lower bound on `updated_on` (its `>=` hex-encoded),
      the offset when it is not negative and the limit when it is positive. */
  function ListIssuesQuery(since: Option<string>, offset: int, limit: int): string {
    var q1 := WithParam(StatusFilter, since.Some?, UpdatedSince, since.GetOr(""));
    var q2 := WithParam(q1, offset > -1, OffsetKey, IntToString(offset));
    WithParam(q2, limit > 0, LimitKey, IntToString(limit))
  }

  /** The parameters a listing query is meant to carry, in order. */
  function QueryParams(since: Option<string>, offset: int, limit: int): seq<string> {
    [StatusFilter]
    + (if since.Some? then [UpdatedSince + since.value] else [])
    + (if offset > -1 then [OffsetKey + IntToString(offset)] else [])
    + (if limit > 0 then [LimitKey + IntToString(limit)] else [])
  }

  /** An optional `&key=value` parameter is an optional last piece. */
  lemma AddParam(q: string, ps: seq<string>, present: bool, key: string, v: string)
    requires Split(q, '&') == ps
    requires '&' !in key && '&' !in v
    ensures Split(WithParam(q, present, key, v), '&') == ps + (if present then [key + v] else [])
  {
    if present {
      assert q + "&" + key + v == q + ['&'] + (key + v);
      SplitSnoc(q, key + v, '&');
    } else {
      assert ps + [] == ps;
    }
  }

  /** The status filter holds no `&`, so it splits to itself. */
  lemma StatusFilterAlone()
    ensures Split(StatusFilter, '&') == [StatusFilter]
  {
    assert forall j :: 0 <= j < |StatusFilter| ==> StatusFilter[j] != '&';
  }

  /** Cutting the query at every `&` gives back exactly the intended
      parameters, provided the watermark holds no `&`. */
  lemma ListIssuesQueryParams(since: Option<string>, offset: int, limit: int)
    requires since.Some? ==> '&' !in since.value
    ensures Split(ListIssuesQuery(since, offset, limit), '&') == QueryParams(since, offset, limit)
  {
    var q1 := WithParam(StatusFilter, since.Some?, UpdatedSince, since.GetOr(""));
    var q2 := WithParam(q1, offset > -1, OffsetKey, IntToString(offset));
    var p1: seq<string> := if since.Some? then [UpdatedSince + since.value] else [];
    var p2: seq<string> := if offset > -1 then [OffsetKey + IntToString(offset)] else [];
    StatusFilterAlone();
    IntToStringChars(offset, '&');
    IntToStringChars(limit, '&');
    AddParam(StatusFilter, [StatusFilter], since.Some?, UpdatedSince, since.GetOr(""));
    AddParam(q1, [StatusFilter] + p1, offset > -1, OffsetKey, IntToString(offset));
    AddParam(q2, [StatusFilter] + p1 + p2, limit > 0, LimitKey, IntToString(limit));
  }

  // ---------------------------------------------------------------------
  // pullDataAndUpdateIssues: pagination

  /** One call of `pullDataAndUpdateIssues`: the page it asks for, -1
      standing for an offset or limit left to the tracker. */
  datatype PageRequest = PageRequest(offset: int, limit: int, allowRecursiveCall: bool)

  /** The periodic pull starts with the tracker's default page. */
  const FirstPage := PageRequest(-1, -1, true)

  /** The members of a listing reply that the pull reads: the issue ids
      (`None` when `issues` is absent) and the counters, -1 where a
      counter is absent. */
  datatype ListReply = ListReply(issueIds: Option<seq<int>>, totalCount: int, offset: int, limit: int)

  /** The request made for the rest of the listing, if any. */
  function NextPage(req: PageRequest, reply: ListReply): (r: Option<PageRequest>)
    ensures r.Some? ==> !r.value.allowRecursiveCall && r.value.offset == reply.limit
  {
    if reply.issueIds.None? || |reply.issueIds.value| == 0 then None
    else if req.allowRecursiveCall && reply.totalCount != -1 && reply.offset != -1 && reply.limit != -1
            && reply.totalCount > reply.limit then
      Some(PageRequest(reply.limit, reply.totalCount - reply.limit, false))
    else None
  }

  /** A second page is asked for exactly when the reply listed issues,
      recursion was allowed, all three counters are present and more issues
      exist than the page held. That page starts where the first one ended,
      ends at the total count, and asks for no page after it. */
  lemma PaginationRule(req: PageRequest, reply: ListReply, later: ListReply)
    ensures NextPage(req, reply).Some? <==>
      && reply.issueIds.Some? && |reply.issueIds.value| > 0
      && req.allowRecursiveCall
      && reply.totalCount != -1 && reply.offset != -1 && reply.limit != -1
      && reply.totalCount > reply.limit
    ensures NextPage(req, reply).Some? ==>
      var next := NextPage(req, reply).value;
      && next.offset == reply.limit
      && next.offset + next.limit == reply.totalCount
      && next.limit > 0
      && NextPage(next, later).None?
  {
  }

  /** The second page's query names its offset and limit explicitly. */
  lemma SecondPageQuery(since: Option<string>, reply: ListReply)
    requires since.Some? ==> '&' !in since.value
    requires NextPage(FirstPage, reply).Some?
    requires reply.limit >= 0
    ensures var next := NextPage(FirstPage, reply).value;
      Split(ListIssuesQuery(since, next.offset, next.limit), '&') ==
        [StatusFilter]
        + (if since.Some? then [UpdatedSince + since.value] else [])
        + [OffsetKey + IntToString(reply.limit), LimitKey + IntToString(reply.totalCount - reply.limit)]
  {
    var next := NextPage(FirstPage, reply).value;
    assert next.offset == reply.limit && next.limit == reply.totalCount - reply.limit;
    ListIssuesQueryParams(since, next.offset, next.limit);
    BothCounters(since, next.offset, next.limit);
  }

  /** With both counters present the query ends with the offset, then the limit. */
  lemma BothCounters(since: Option<string>, offset: int, limit: int)
    requires offset > -1 && limit > 0
    ensures QueryParams(since, offset, limit) ==
      [StatusFilter]
      + (if since.Some? then [UpdatedSince + since.value] else [])
      + [OffsetKey + IntToString(offset), LimitKey + IntToString(limit)]
  {
    var p1: seq<string> := if since.Some? then [UpdatedSince + since.value] else [];
    var a, b := OffsetKey + IntToString(offset), LimitKey + IntToString(limit);
    assert [StatusFilter] + p1 + [a] + [b] == [StatusFilter] + p1 + [a, b];
  }

  // ---------------------------------------------------------------------
  // pullDataAndUpdateIssues: which remote attachments to download

  /** The download guard: no linked list, an empty one, or an id it does
      not hold. */
  predicate ShouldDownload(a: RemoteAttachment, linked: Option<set<int>>) {
    linked.None? || |linked.value| == 0 || a.id !in linked.value
  }

  /** The remote attachments passing the guard, in the tracker's order. */
  function Unlinked(remote: seq<RemoteAttachment>, linked: Option<set<int>>): (r: seq<RemoteAttachment>)
    ensures |r| <= |remote|
    ensures forall a :: a in r ==> a in remote
  {
    if |remote| == 0 then []
    else (if ShouldDownload(remote[0], linked) then [remote[0]] else []) + Unlinked(remote[1..], linked)
  }

  /** The attachments of a fetched issue to download: none when the issue
      lists none, and none when reading them throws (a document without an
      `issue` object), which happens after the refresh was sent. */
  function AttachmentsToDownload(remote: Access<seq<RemoteAttachment>>, linked: Option<set<int>>): seq<RemoteAttachment> {
    match remote
    case Got(Some(atts)) => Unlinked(atts, linked)
    case _ => []
  }

  /** The ids already linked, an absent list counting as empty. */
  function LinkedOrEmpty(linked: Option<set<int>>): set<int> {
    if linked.Some? then linked.value else {}
  }

  /** Exactly the remote attachments whose id is not linked yet are
      downloaded, each as often as the tracker lists it. */
  lemma {:induction false} UnlinkedIffNotLinked(remote: seq<RemoteAttachment>, linked: Option<set<int>>)
    ensures forall a :: a in Unlinked(remote, linked) <==> a in remote && a.id !in LinkedOrEmpty(linked)
    ensures forall a ::
              multiset(Unlinked(remote, linked))[a] == if a.id in LinkedOrEmpty(linked) then 0 else multiset(remote)[a]
  {
    if |remote| > 0 {
      UnlinkedIffNotLinked(remote[1..], linked);
      assert remote == [remote[0]] + remote[1..];
      assert ShouldDownload(remote[0], linked) <==> remote[0].id !in LinkedOrEmpty(linked);
    }
  }

  /** With no linked list, or an empty one, everything is downloaded. */
  lemma {:induction false} UnlinkedAllWhenNoneLinked(remote: seq<RemoteAttachment>, linked: Option<set<int>>)
    requires linked.None? || |linked.value| == 0
    ensures Unlinked(remote, linked) == remote
  {
    if |remote| > 0 {
      UnlinkedAllWhenNoneLinked(remote[1..], linked);
      assert remote == [remote[0]] + remote[1..];
    }
  }

  /** Once every remote id is linked, nothing is left to download. */
  lemma {:induction false} UnlinkedNoneWhenAllLinked(remote: seq<RemoteAttachment>, linked: set<int>)
    requires forall a :: a in remote ==> a.id in linked
    ensures Unlinked(remote, Some(linked)) == []
  {
    if |remote| > 0 {
      assert remote[0] in remote;
      assert forall a :: a in remote[1..] ==> a in remote;
      UnlinkedNoneWhenAllLinked(remote[1..], linked);
    }
  }

  // ---------------------------------------------------------------------
  // doDownloadAttachment: storing what was downloaded

  /** What blob storage answered for one downloaded attachment: the new
      blob's id and its size. */
  datatype Blob = Blob(gridfsId: string, size: int)

  /** Each downloaded attachment that reached storage is linked to the
      issue under its tracker id; a download that never completed leaves
      no trace, and a refused insert is only logged. */
  function StoreDownloads(s: Store, issueId: int, todo: seq<RemoteAttachment>, blobs: seq<Option<Blob>>): (r: Store)
    requires |blobs| == |todo|
    ensures r == s.(links := r.links)
    ensures s.links.Keys <= r.links.Keys
    ensures forall a :: a in s.links ==> r.links[a] == s.links[a]
    decreases |todo|
  {
    if |todo| == 0 then s
    else
      var s1 := if blobs[0].Some?
        then InsertIssueAttachment(s, issueId, todo[0].id, blobs[0].value.gridfsId, todo[0].filename, blobs[0].value.size).store
        else s;
      StoreDownloads(s1, issueId, todo[1..], blobs[1..])
  }

  /** When every download completes and no attachment is linked to a
      different issue, every attachment ends up linked to this issue. */
  lemma {:induction false} StoreDownloadsLinksAll(s: Store, issueId: int, todo: seq<RemoteAttachment>, blobs: seq<Option<Blob>>)
    requires |blobs| == |todo|
    requires forall i :: 0 <= i < |blobs| ==> blobs[i].Some?
    requires forall a :: a in todo && a.id in s.links ==> s.links[a.id].issueId == issueId
    ensures forall a :: a in todo ==> a.id in LinkedIds(StoreDownloads(s, issueId, todo, blobs), issueId)
    decreases |todo|
  {
    if |todo| > 0 {
      var s1 := InsertIssueAttachment(s, issueId, todo[0].id, blobs[0].value.gridfsId, todo[0].filename, blobs[0].value.size).store;
      assert todo[0].id in s1.links && s1.links[todo[0].id].issueId == issueId;
      assert forall a :: a in todo[1..] ==> a in todo;
      StoreDownloadsLinksAll(s1, issueId, todo[1..], blobs[1..]);
      var r := StoreDownloads(s1, issueId, todo[1..], blobs[1..]);
      assert r.links[todo[0].id] == s1.links[todo[0].id];
      assert forall a :: a in todo ==> a == todo[0] || a in todo[1..];
    }
  }

  // ---------------------------------------------------------------------
  // notifyIssueChanged: recipients, kind and history

  /** `getLocalAdministrators` answered a list of users whose `id` may be
      missing. Nothing is sent when that list is absent or empty; otherwise
      the recipients are the administrators' ids and the ticket's owner,
      each once. */
  function IssueRecipients(admins: Option<seq<Option<string>>>, owner: string): (r: Option<set<Option<string>>>)
    ensures r.None? <==> admins.None? || |admins.value| == 0
    ensures r.Some? ==> forall x :: x in r.value <==> x == Some(owner) || x in admins.value
  {
    if admins.None? || |admins.value| == 0 then None
    else Some((set x | x in admins.value) + {Some(owner)})
  }

  /** The owner is counted once, whether or not they are also an administrator. */
  lemma RecipientsCount(admins: seq<Option<string>>, owner: string)
    requires |admins| > 0
    ensures var r := IssueRecipients(Some(admins), owner).value;
      |r| == |set x | x in admins| + (if Some(owner) in admins then 0 else 1)
  {
    var a := set x | x in admins;
    if Some(owner) in admins {
      assert a + {Some(owner)} == a;
    } else {
      assert Some(owner) !in a;
    }
  }

  /** The Redmine status ids configured for "resolved" and "closed". */
  datatype StatusIds = StatusIds(resolved: int, closed: int)

  datatype NotificationKind = IssueResolved | IssueClosed | IssueUpdated

  /** The notification chosen from the old and the new status. */
  function KindOf(newStatus: int, oldStatus: int, ids: StatusIds): NotificationKind {
    if newStatus != oldStatus && newStatus == ids.resolved then IssueResolved
    else if newStatus != oldStatus && newStatus == ids.closed then IssueClosed
    else IssueUpdated
  }

  /** "resolved" is sent exactly for a change to the resolved id, "closed"
      exactly for a change to the closed id that is not also the resolved
      id, and "updated" otherwise. */
  lemma KindRule(newStatus: int, oldStatus: int, ids: StatusIds)
    ensures KindOf(newStatus, oldStatus, ids) == IssueResolved <==>
      newStatus != oldStatus && newStatus == ids.resolved
    ensures KindOf(newStatus, oldStatus, ids) == IssueClosed <==>
      newStatus != oldStatus && newStatus == ids.closed && newStatus != ids.resolved
    ensures KindOf(newStatus, oldStatus, ids) == IssueUpdated <==>
      newStatus == oldStatus || (newStatus != ids.resolved && newStatus != ids.closed)
  {
  }

  /** The timeline notification type of each kind. */
  function NotificationName(k: NotificationKind): (name: string)
    ensures |name| > |"support.bugtracker-issue-"|
    ensures name[..|"support.bugtracker-issue-"|] == "support.bugtracker-issue-"
  {
    match k
    case IssueResolved => "support.bugtracker-issue-resolved"
    case IssueClosed => "support.bugtracker-issue-closed"
    case IssueUpdated => "support.bugtracker-issue-updated"
  }

  /** The three categories of change a journal detail can report. */
  datatype DetailKind = AttrChange | AttachmentChange | OtherChange

  /** The category of a detail's `property`. */
  function Classify(property: string): DetailKind {
    if property == "attr" then AttrChange
    else if property == "attachment" then AttachmentChange
    else OtherChange
  }

  /** The three flags of the history loop, one per category. */
  datatype Flags = Flags(attr: bool, attachment: bool, other: bool)

  function Found(f: Flags, k: DetailKind): bool {
    match k
    case AttrChange => f.attr
    case AttachmentChange => f.attachment
    case OtherChange => f.other
  }

  function Mark(f: Flags, k: DetailKind): Flags {
    match k
    case AttrChange => f.(attr := true)
    case AttachmentChange => f.(attachment := true)
    case OtherChange => f.(other := true)
  }

  /** The history loop from detail `i` on: a category is added the first
      time it is met; a detail without `property` makes the `switch` throw,
      and nothing is recorded. */
  function HistoFold(details: seq<Option<string>>, i: nat, f: Flags, acc: seq<DetailKind>): Option<seq<DetailKind>>
    requires i <= |details|
    decreases |details| - i
  {
    if i == |details| then Some(acc)
    else if details[i].None? then None
    else
      var k := Classify(details[i].value);
      if Found(f, k) then HistoFold(details, i + 1, f, acc)
      else HistoFold(details, i + 1, Mark(f, k), acc + [k])
  }

  /** The categories mentioned by the last journal's details, in the order
      they are first met. */
  function HistoSummary(details: seq<Option<string>>): Option<seq<DetailKind>> {
    HistoFold(details, 0, Flags(false, false, false), [])
  }

  /** The category of every detail, in order. */
  function Kinds(details: seq<Option<string>>): (ks: seq<DetailKind>)
    ensures |ks| == |details|
  {
    seq(|details|, j requires 0 <= j < |details| => Classify(details[j].GetOr("")))
  }

  predicate AllProperties(details: seq<Option<string>>) {
    forall j :: 0 <= j < |details| ==> details[j].Some?
  }

  /** Every detail from `i` on names its property. */
  predicate AllFrom(details: seq<Option<string>>, i: nat) {
    forall j :: i <= j < |details| ==> details[j].Some?
  }

  /** The categories of the first `i + 1` details extend those of the first `i`. */
  lemma KindsPrefix(details: seq<Option<string>>, i: nat)
    requires i < |details| && details[i].Some?
    ensures Kinds(details)[..i + 1] == Kinds(details)[..i] + [Classify(details[i].value)]
  {
    assert Kinds(details)[i] == Classify(details[i].value);
  }

  /** Raising a category's flag records that category. */
  lemma MarkFound(f: Flags, k: DetailKind, acc: seq<DetailKind>)
    requires forall k2 :: Found(f, k2) <==> k2 in acc
    ensures forall k2 :: Found(Mark(f, k), k2) <==> k2 in acc + [k]
  {
    forall k2
      ensures Found(Mark(f, k), k2) <==> k2 in acc + [k]
    {
      assert k2 in acc + [k] <==> k2 in acc || k2 == k;
    }
  }

  lemma AllFromStep(details: seq<Option<string>>, i: nat)
    requires i < |details| && details[i].Some?
    ensures AllFrom(details, i) == AllFrom(details, i + 1)
  {
  }

  /** One detail of the history loop, by its outcome: the flags and the
      categories so far stay those of the details read. */
  lemma HistoStep(details: seq<Option<string>>, i: nat, f: Flags, acc: seq<DetailKind>)
    requires i < |details| && details[i].Some?
    requires acc == Dedup(Kinds(details)[..i])
    requires forall k :: Found(f, k) <==> k in acc
    ensures var k := Classify(details[i].value);
      var f2 := if Found(f, k) then f else Mark(f, k);
      var acc2 := if Found(f, k) then acc else acc + [k];
      && acc2 == Dedup(Kinds(details)[..i + 1])
      && (forall k2 :: Found(f2, k2) <==> k2 in acc2)
      && HistoFold(details, i, f, acc) == HistoFold(details, i + 1, f2, acc2)
      && AllFrom(details, i) == AllFrom(details, i + 1)
  {
    var k := Classify(details[i].value);
    KindsPrefix(details, i);
    DedupSnoc(Kinds(details)[..i], k);
    if !Found(f, k) {
      MarkFound(f, k, acc);
    }
    AllFromStep(details, i);
  }

  lemma {:induction false} HistoFoldIsDedup(details: seq<Option<string>>, i: nat, f: Flags, acc: seq<DetailKind>)
    requires i <= |details|
    requires acc == Dedup(Kinds(details)[..i])
    requires forall k :: Found(f, k) <==> k in acc
    ensures HistoFold(details, i, f, acc) ==
      if AllFrom(details, i) then Some(Dedup(Kinds(details))) else None
    decreases |details| - i
  {
    if i == |details| {
      assert Kinds(details)[..i] == Kinds(details);
    } else if details[i].None? {
      assert !AllFrom(details, i);
    } else {
      var k := Classify(details[i].value);
      HistoStep(details, i, f, acc);
      HistoFoldIsDedup(details, i + 1, if Found(f, k) then f else Mark(f, k), if Found(f, k) then acc else acc + [k]);
    }
  }

  /** The history summary is the categories of the details with repetitions
      removed, first occurrence kept; it is absent exactly when a detail
      lacks its `property`. */
  lemma HistoSummaryIsDedup(details: seq<Option<string>>)
    ensures HistoSummary(details) == if AllProperties(details) then Some(Dedup(Kinds(details))) else None
    ensures HistoSummary(details).Some? ==> NoDup(HistoSummary(details).value)
  {
    assert Kinds(details)[..0] == [];
    HistoFoldIsDedup(details, 0, Flags(false, false, false), []);
  }

  /** The translated sentences of the history row, in the ticket's locale. */
  datatype HistoTexts = HistoTexts(updated: string, attr: string, attachment: string, other: string)

  function KindText(k: DetailKind, texts: HistoTexts): string {
    match k
    case AttrChange => texts.attr
    case AttachmentChange => texts.attachment
    case OtherChange => texts.other
  }

  /** The history event: the "updated" sentence followed by one sentence
      per category of the summary. */
  function HistoEvent(texts: HistoTexts, kinds: seq<DetailKind>): string
  {
    if |kinds| == 0 then texts.updated
    else HistoEvent(texts, kinds[..|kinds| - 1]) + KindText(kinds[|kinds| - 1], texts)
  }

  /** The timeline notification sent about an issue. */
  datatype Notice = Notice(name: string, recipients: set<Option<string>>, issueId: int, ticketId: int)

  datatype NotifyResult = NotifyResult(store: Store, notice: Option<Notice>)

  /** The event type of a history row written on a tracker update. */
  const TrackerUpdateEvent := 6

  /** `notifyIssueChanged`, after a successful refresh: the previous status
      id (absent counts as -1), the new issue, the administrators of the
      ticket's school. A notice goes out whenever the issue has a status,
      its ticket is known and administrators were listed; the history row,
      and the event counter with it, follow only when the last journal has
      details that all name their property. */
  function NotifyIssueChanged(
    s: Store, issueId: int, previousStatusId: Option<int>, issue: IssueDoc,
    admins: Option<seq<Option<string>>>, ids: StatusIds, texts: HistoTexts): (r: NotifyResult)
  {
    var newStatus := StatusId(issue);
    var info := GetTicketIdAndSchoolId(s, issueId);
    if newStatus.None? || info.None? then NotifyResult(s, None)
    else
      var recipients := IssueRecipients(admins, info.value.owner);
      if recipients.None? then NotifyResult(s, None)
      else
        var kind := KindOf(newStatus.value, previousStatusId.GetOr(-1), ids);
        var notice := Notice(NotificationName(kind), recipients.value, issueId, info.value.id);
        var journals := issue.issue.value.journals;
        if journals.None? || |journals.value| == 0 then NotifyResult(s, Some(notice))
        else
          var details := journals.value[|journals.value| - 1].details;
          if details.None? then NotifyResult(s, Some(notice))
          else
            var summary := HistoSummary(details.value);
            if summary.None? then NotifyResult(s, Some(notice))
            else
              var tid := info.value.id;
              var s1 := CreateTicketHisto(s, tid, HistoEvent(texts, summary.value), Code(info.value.status), None, TrackerUpdateEvent);
              NotifyResult(UpdateEventCount(s1, tid), Some(notice))
  }

  /** What a notification does: the notice goes to the owner and every
      listed administrator, under the kind the status change selects; at
      most one history row is added, on the issue's ticket, with no user and
      event type 6, together with one more event on that ticket. */
  lemma NotifyIssueChangedEffect(
    s: Store, issueId: int, previousStatusId: Option<int>, issue: IssueDoc,
    admins: Option<seq<Option<string>>>, ids: StatusIds, texts: HistoTexts)
    ensures var r := NotifyIssueChanged(s, issueId, previousStatusId, issue, admins, ids, texts);
      && (r.notice.Some? <==>
            StatusId(issue).Some? && issueId in s.issues && s.issues[issueId].ticketId in s.tickets
            && admins.Some? && |admins.value| > 0)
      && (r.notice.Some? ==>
            var tid := s.issues[issueId].ticketId;
            && r.notice.value.ticketId == tid
            && r.notice.value.issueId == issueId
            && Some(s.tickets[tid].owner) in r.notice.value.recipients
            && (forall x :: x in admins.value ==> x in r.notice.value.recipients)
            && r.notice.value.name == NotificationName(KindOf(StatusId(issue).value, previousStatusId.GetOr(-1), ids)))
      && (r.store == s || (
            r.notice.Some?
            && var tid := s.issues[issueId].ticketId;
            && |r.store.histo| == |s.histo| + 1
            && r.store.histo[|s.histo|].ticketId == tid
            && r.store.histo[|s.histo|].userId.None?
            && r.store.histo[|s.histo|].eventType == TrackerUpdateEvent
            && r.store == s.(histo := r.store.histo, tickets := r.store.tickets)
            && r.store.tickets == s.tickets[tid := s.tickets[tid].(eventCount := s.tickets[tid].eventCount + 1)]))
  {
    var r := NotifyIssueChanged(s, issueId, previousStatusId, issue, admins, ids, texts);
    if r.store != s {
      var tid := s.issues[issueId].ticketId;
      var t2 := s.tickets[tid := s.tickets[tid].(eventCount := s.tickets[tid].eventCount + 1)];
      assert r.store.tickets.Keys == t2.Keys;
      assert forall t :: t in t2 ==> r.store.tickets[t] == t2[t];
    }
  }

  // ---------------------------------------------------------------------
  // pullDataAndUpdateIssues: refreshing one existing issue

  /** What the tracker and the platform answered while refreshing one
      issue: the fetched issue (`None` when fetching failed), the school's
      administrators and, per attachment to download, its stored blob
      (`None` when the download never completed). */
  datatype RefreshInputs = RefreshInputs(fetched: Option<IssueDoc>, admins: Option<seq<Option<string>>>, blobs: seq<Option<Blob>>)

  datatype RefreshOutcome = RefreshOutcome(store: Store, notice: Option<Notice>, downloaded: seq<RemoteAttachment>)

  /** The attachments a refresh downloads. */
  function Downloads(fetched: Option<IssueDoc>, linked: Option<set<int>>): seq<RemoteAttachment> {
    if fetched.None? then [] else AttachmentsToDownload(ExtractAttachmentsFromIssue(fetched.value), linked)
  }

  /** Step 3b: store the fetched issue; when a stored row was updated,
      notify with the status it replaced. */
  function UpdateAndNotify(s: Store, issueId: int, doc: IssueDoc, inp: RefreshInputs, ids: StatusIds, texts: HistoTexts): NotifyResult {
    var u := UpdateIssue(s, issueId, doc);
    if issueId in s.issues
    then NotifyIssueChanged(u.store, issueId, u.previousStatusId, doc, inp.admins, ids, texts)
    else NotifyResult(u.store, None)
  }

  /** Steps 3a to 3c for one issue listed by `listExistingIssues`: store the
      fetched issue (returning the previous status), notify, and download
      the attachments not linked yet. */
  function RefreshIssue(s: Store, issueId: int, linked: Option<set<int>>, inp: RefreshInputs, ids: StatusIds, texts: HistoTexts): (r: RefreshOutcome)
    requires |inp.blobs| == |Downloads(inp.fetched, linked)|
    ensures r.downloaded == Downloads(inp.fetched, linked)
    ensures (inp.fetched.None? || !(ExtractAttachmentsFromIssue(inp.fetched.value).Got? && ExtractAttachmentsFromIssue(inp.fetched.value).member.Some?)) ==>
      r.downloaded == []
    ensures inp.fetched.Some? && ExtractAttachmentsFromIssue(inp.fetched.value).Got?
            && ExtractAttachmentsFromIssue(inp.fetched.value).member.Some? ==>
      r.downloaded == Unlinked(ExtractAttachmentsFromIssue(inp.fetched.value).member.value, linked)
  {
    if inp.fetched.None? then RefreshOutcome(s, None, [])
    else
      var n := UpdateAndNotify(s, issueId, inp.fetched.value, inp, ids, texts);
      var todo := Downloads(inp.fetched, linked);
      RefreshOutcome(StoreDownloads(n.store, issueId, todo, inp.blobs), n.notice, todo)
  }

  /** The escalation invariant reads neither links, history nor counters,
      and only the ticket of each issue. */
  lemma InvFrame(s: Store, r: Store)
    requires Inv(s)
    requires r.tickets.Keys == s.tickets.Keys
    requires forall t :: t in s.tickets ==> r.tickets[t].escalationStatus == s.tickets[t].escalationStatus
    requires r.issues.Keys == s.issues.Keys
    requires forall k :: k in s.issues ==> r.issues[k].ticketId == s.issues[k].ticketId
    ensures Inv(r)
  {
    forall t | t in r.tickets && r.tickets[t].escalationStatus == EscalationStatuses.Successful
      ensures HasIssue(r, t)
    {
      var k :| k in s.issues && s.issues[k].ticketId == t;
      assert r.issues[k].ticketId == t;
    }
  }

  /** A notification touches only the history and the event counters. */
  lemma NotifyFrame(
    s: Store, issueId: int, previousStatusId: Option<int>, issue: IssueDoc,
    admins: Option<seq<Option<string>>>, ids: StatusIds, texts: HistoTexts)
    ensures var r := NotifyIssueChanged(s, issueId, previousStatusId, issue, admins, ids, texts).store;
      && r == s.(histo := r.histo, tickets := r.tickets)
      && r.tickets.Keys == s.tickets.Keys
      && (forall t :: t in s.tickets ==> r.tickets[t] == s.tickets[t].(eventCount := r.tickets[t].eventCount))
  {
  }

  lemma UpdateAndNotifyFrame(s: Store, issueId: int, doc: IssueDoc, inp: RefreshInputs, ids: StatusIds, texts: HistoTexts)
    ensures var n := UpdateAndNotify(s, issueId, doc, inp, ids, texts).store;
      && n.issues == UpdateIssue(s, issueId, doc).store.issues
      && n.links == s.links && n.comments == s.comments && n.attachments == s.attachments
      && n.tickets.Keys == s.tickets.Keys
      && (forall t :: t in s.tickets ==> n.tickets[t] == s.tickets[t].(eventCount := n.tickets[t].eventCount))
  {
    var u := UpdateIssue(s, issueId, doc);
    if issueId in s.issues {
      NotifyFrame(u.store, issueId, u.previousStatusId, doc, inp.admins, ids, texts);
    }
  }

  /** A refresh keeps the escalation invariant, leaves tickets' states and
      every other issue alone, and stores the fetched content. */
  lemma RefreshKeepsInv(s: Store, issueId: int, linked: Option<set<int>>, inp: RefreshInputs, ids: StatusIds, texts: HistoTexts)
    requires Inv(s)
    requires |inp.blobs| == |Downloads(inp.fetched, linked)|
    ensures var r := RefreshIssue(s, issueId, linked, inp, ids, texts).store;
      && Inv(r)
      && r.tickets.Keys == s.tickets.Keys
      && (forall t :: t in s.tickets ==> r.tickets[t] == s.tickets[t].(eventCount := r.tickets[t].eventCount))
      && r.issues.Keys == s.issues.Keys
      && (forall k :: k in s.issues && k != issueId ==> r.issues[k] == s.issues[k])
      && (issueId in s.issues && inp.fetched.Some? ==>
            r.issues[issueId] == s.issues[issueId].(content := inp.fetched.value))
      && r.comments == s.comments && r.attachments == s.attachments
  {
    if inp.fetched.Some? {
      var doc := inp.fetched.value;
      UpdateAndNotifyFrame(s, issueId, doc, inp, ids, texts);
      var n := UpdateAndNotify(s, issueId, doc, inp, ids, texts).store;
      var r := StoreDownloads(n, issueId, Downloads(inp.fetched, linked), inp.blobs);
      assert RefreshIssue(s, issueId, linked, inp, ids, texts).store == r;
      assert r.tickets == n.tickets && r.issues == n.issues;
      assert r.comments == n.comments && r.attachments == n.attachments;
      InvFrame(s, r);
    }
  }

  /** Downloads catch up: once every download of a refresh completed and no
      attachment of the issue was linked to another issue, refreshing the
      same issue again with the links then stored downloads nothing. */
  lemma SecondRefreshDownloadsNothing(
    s: Store, issueId: int, inp: RefreshInputs, ids: StatusIds, texts: HistoTexts)
    requires |inp.blobs| == |Downloads(inp.fetched, Some(LinkedIds(s, issueId)))|
    requires forall i :: 0 <= i < |inp.blobs| ==> inp.blobs[i].Some?
    requires forall a :: a in Downloads(inp.fetched, Some(LinkedIds(s, issueId))) && a.id in s.links ==>
      s.links[a.id].issueId == issueId
    ensures var s2 := RefreshIssue(s, issueId, Some(LinkedIds(s, issueId)), inp, ids, texts).store;
      Downloads(inp.fetched, Some(LinkedIds(s2, issueId))) == []
  {
    var linked := Some(LinkedIds(s, issueId));
    var todo := Downloads(inp.fetched, linked);
    if inp.fetched.Some? {
      var doc := inp.fetched.value;
      UpdateAndNotifyFrame(s, issueId, doc, inp, ids, texts);
      var n := UpdateAndNotify(s, issueId, doc, inp, ids, texts).store;
      StoreDownloadsLinksAll(n, issueId, todo, inp.blobs);
      var s2 := StoreDownloads(n, issueId, todo, inp.blobs);
      var access := ExtractAttachmentsFromIssue(doc);
      if access.Got? && access.member.Some? {
        var remote := access.member;
        UnlinkedIffNotLinked(remote.value, linked);
        UnlinkedIffNotLinked(remote.value, Some(LinkedIds(s2, issueId)));
        assert forall a :: a in remote.value ==> a.id in LinkedIds(s2, issueId) by {
          forall a | a in remote.value
            ensures a.id in LinkedIds(s2, issueId)
          {
            if a.id !in LinkedIds(s, issueId) {
              assert a in todo;
            } else {
              assert s2.links[a.id] == s.links[a.id];
            }
          }
        }
        UnlinkedNoneWhenAllLinked(remote.value, LinkedIds(s2, issueId));
      }
    }
  }
}
