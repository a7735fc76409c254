/** The escalation half of `EscalationServiceRedmineImpl`: forwarding a
    claimed ticket to Redmine, and later pushing workspace attachments to
    the issue it became.

    Every asynchronous step is an input: what reading and uploading each
    document gave, what the directory returned, how the tracker answered.
    The atomic counters of the source only count completions, so each
    fan-in is a fold over the completions in the order they arrived. A
    callback that throws ends its chain silently; a reply that is never
    sent is `None`. */
module RedmineEscalation {
  import opened Results
  import opened Strings
  import opened Sequences
  import opened BugTracker
  import opened TicketServiceSql

  const UploadFailed: string := "support.escalation.error.upload.attachment.failed"
  const EscalationError: string := "support.escalation.error"
  const EscalationIncomplete: string := "support.error.escalation.incomplete"
  const CommentNotAdded: string := "support.error.comment.has.not.been.added.to.escalated.ticket"
  const InvalidValues: string := "invalid.values"
  const UploadAttachmentsError: string := "upload.attachments.error"

  // ---------------------------------------------------------------------
  // Upload tokens

  /** `token.substring(0, token.indexOf('.'))`; `None` where there is no
      '.' and the substring throws. */
  function TokenPrefix(token: string): (r: Option<string>)
    ensures r.Some? <==> '.' in token
    ensures r.Some? ==>
      |r.value| < |token| && token[..|r.value|] == r.value && token[|r.value|] == '.' && '.' !in r.value
  {
    if '.' in token then Some(token[..IndexOf(token, '.')]) else None
  }

  /** The tracker's attachment id inside an upload token, read with
      `Integer.valueOf`; `None` where that throws. */
  function ParseUploadToken(token: string): (r: Option<int>)
    ensures r.Some? ==> '.' in token && IntMin <= r.value <= IntMax
  {
    match TokenPrefix(token)
    case None => None
    case Some(p) => ParseJavaInt(p)
  }

  /** A token "781.6874..." yields 781: the id before the first '.', whatever follows. */
  lemma UploadTokenRoundTrip(id: int, rest: string)
    requires IntMin <= id <= IntMax
    ensures ParseUploadToken(IntToString(id) + "." + rest) == Some(id)
  {
    var p := IntToString(id);
    IntToStringChars(id, '.');
    IndexOfConcat(p, '.', rest);
    assert p + "." + rest == p + ['.'] + rest;
    assert (p + "." + rest)[..|p|] == p;
    IntRoundTrip(id);
  }

  // ---------------------------------------------------------------------
  // escalateTicket: the upload fan-in

  /** How the handling of one workspace document ended.
      `Uploaded`: the tracker answered 201 with a token; the document's
      name, content type and size are those its metadata gave.
      `Rejected`: it answered with another status.
      `Lost`: reading the document or its answer threw; nothing follows. */
  datatype UploadEvent =
    | Uploaded(token: string, documentId: string, filename: Option<string>, contentType: Option<string>, size: Option<int>)
    | Rejected
    | Lost

  /** One element of the issue's `uploads`. */
  datatype UploadJson = UploadJson(token: string, filename: Option<string>, contentType: Option<string>)

  /** The shared state of the fan-in: the two counters, the uploads and the
      attachment map collected so far, and what was sent: issue creations
      (with the uploads they carry) and error replies. */
  datatype FanIn = FanIn(
    successes: nat,
    failures: nat,
    uploads: seq<UploadJson>,
    attachmentMap: map<int, string>,
    creates: seq<seq<UploadJson>>,
    errors: seq<string>)

  const FanInStart: FanIn := FanIn(0, 0, [], map[], [], [])

  /** An upload whose token yields an id: the only event that counts as a success. */
  predicate Completes(e: UploadEvent) {
    e.Uploaded? && ParseUploadToken(e.token).Some?
  }

  /** One completion, with `size` the number of attachment ids. */
  function UploadStep(size: nat, st: FanIn, e: UploadEvent): FanIn {
    match e
    case Uploaded(token, doc, name, ctype, _) =>
      (match ParseUploadToken(token)
       case None => st
       case Some(id) =>
         var uploads := st.uploads + [UploadJson(token, name, ctype)];
         var n := st.successes + 1;
         st.(successes := n, uploads := uploads, attachmentMap := st.attachmentMap[id := doc],
             creates := if n == size then st.creates + [uploads] else st.creates))
    case Rejected =>
      var n := st.failures + 1;
      st.(failures := n, errors := if n == 1 then st.errors + [UploadFailed] else st.errors)
    case Lost => st
  }

  function UploadFold(size: nat, events: seq<UploadEvent>): FanIn {
    if |events| == 0 then FanInStart
    else UploadStep(size, UploadFold(size, events[..|events| - 1]), events[|events| - 1])
  }

  function CountCompleted(events: seq<UploadEvent>): (n: nat)
    ensures n <= |events|
  {
    if |events| == 0 then 0
    else CountCompleted(events[..|events| - 1]) + (if Completes(events[|events| - 1]) then 1 else 0)
  }

  function CountRejected(events: seq<UploadEvent>): nat {
    if |events| == 0 then 0
    else CountRejected(events[..|events| - 1]) + (if events[|events| - 1].Rejected? then 1 else 0)
  }

  /** All events complete exactly when every one of them is counted. */
  lemma {:induction false} CountCompletedAll(events: seq<UploadEvent>)
    ensures CountCompleted(events) == |events| <==> forall i :: 0 <= i < |events| ==> Completes(events[i])
  {
    if |events| > 0 {
      var p := events[..|events| - 1];
      CountCompletedAll(p);
      assert forall i :: 0 <= i < |p| ==> p[i] == events[i];
    }
  }

  /** Some event is a rejection exactly when the rejection count is positive. */
  lemma {:induction false} CountRejectedSome(events: seq<UploadEvent>)
    ensures CountRejected(events) > 0 <==> exists i :: 0 <= i < |events| && events[i].Rejected?
  {
    if |events| > 0 {
      var p := events[..|events| - 1];
      CountRejectedSome(p);
      assert forall i :: 0 <= i < |p| ==> p[i] == events[i];
    }
  }

  /** The fold's counters count the events; one error at most, sent on the
      first rejection; one creation at most, sent when the successes reach
      `size`, carrying the uploads collected up to then. */
  lemma {:induction false} UploadFoldCounts(size: nat, events: seq<UploadEvent>)
    ensures var st := UploadFold(size, events);
      && st.successes == CountCompleted(events)
      && st.failures == CountRejected(events)
      && |st.uploads| == st.successes
      && st.errors == (if st.failures > 0 then [UploadFailed] else [])
      && st.creates == (if 0 < size <= st.successes then [st.uploads[..size]] else [])
  {
    if |events| > 0 {
      var p := events[..|events| - 1];
      UploadFoldCounts(size, p);
      var st := UploadFold(size, p);
      var e := events[|events| - 1];
      if Completes(e) {
        var st' := UploadStep(size, st, e);
        assert |st'.uploads| == st'.successes;
        if st'.successes == size {
          assert st'.uploads[..size] == st'.uploads;
        }
        if 0 < size <= st.successes {
          assert st'.uploads[..size] == st.uploads[..size];
        }
      }
    }
  }

  /** The document of the last completed upload whose token yields `k`. */
  function MappedDocument(events: seq<UploadEvent>, k: int): Option<string> {
    if |events| == 0 then None
    else
      var e := events[|events| - 1];
      if Completes(e) && ParseUploadToken(e.token) == Some(k) then Some(e.documentId)
      else MappedDocument(events[..|events| - 1], k)
  }

  /** The attachment map sends each tracker id to the workspace document of
      the last completed upload with that id, and holds no other id. */
  lemma {:induction false} UploadFoldMap(size: nat, events: seq<UploadEvent>)
    ensures var m := UploadFold(size, events).attachmentMap;
      forall k :: (k in m <==> MappedDocument(events, k).Some?) && (k in m ==> m[k] == MappedDocument(events, k).value)
  {
    if |events| > 0 {
      UploadFoldMap(size, events[..|events| - 1]);
    }
  }

  /** Every completed upload's id is mapped. */
  lemma {:induction false} MappedDocumentCovers(events: seq<UploadEvent>)
    ensures forall i :: 0 <= i < |events| && Completes(events[i]) ==>
      MappedDocument(events, ParseUploadToken(events[i].token).value).Some?
  {
    if |events| > 0 {
      var p := events[..|events| - 1];
      MappedDocumentCovers(p);
      forall i | 0 <= i < |events| && Completes(events[i])
        ensures MappedDocument(events, ParseUploadToken(events[i].token).value).Some?
      {
        if i < |p| {
          assert events[i] == p[i];
        }
      }
    }
  }

  /** The fan-in of `escalateTicket` over `size` attachment ids, each of which
      completes at most once: the issue is created at most once, exactly
      when every upload succeeded, with all of their uploads; the handler
      gets one error exactly when some upload was rejected; never both. */
  lemma FanInOutcome(size: nat, events: seq<UploadEvent>)
    requires 0 < size && |events| <= size
    ensures var st := UploadFold(size, events);
      && |st.creates| <= 1
      && (|st.creates| == 1 <==> |events| == size && forall i :: 0 <= i < |events| ==> Completes(events[i]))
      && (|st.creates| == 1 ==> st.creates[0] == st.uploads && |st.uploads| == size)
      && |st.errors| <= 1
      && (|st.errors| == 1 <==> exists i :: 0 <= i < |events| && events[i].Rejected?)
      && (st.errors == [] || st.errors == [UploadFailed])
      && !(|st.creates| == 1 && |st.errors| == 1)
  {
    var st := UploadFold(size, events);
    UploadFoldCounts(size, events);
    CountCompletedAll(events);
    CountRejectedSome(events);
    if exists i :: 0 <= i < |events| && events[i].Rejected? {
      var i :| 0 <= i < |events| && events[i].Rejected?;
      assert !Completes(events[i]);
    }
  }

  // ---------------------------------------------------------------------
  // The issue the escalation creates

  /** One comment of the claimed ticket as `aggregateComments` reads it:
      author name, creation time (as rendered in the JSON) and content. */
  datatype EscalatedComment = EscalatedComment(ownerName: Option<string>, created: string, content: Option<string>)

  /** The block one comment contributes to the note. */
  function CommentBlock(onLabel: string, c: EscalatedComment): string {
    AppendText(c.ownerName) + ", " + onLabel + " " + c.created + "\n\n" + AppendText(c.content) + "\n\n"
  }

  function CommentsText(onLabel: string, cs: seq<EscalatedComment>): string {
    if |cs| == 0 then "" else CommentBlock(onLabel, cs[0]) + CommentsText(onLabel, cs[1..])
  }

  /** `aggregateComments`: the `content` of the note, absent without comments. */
  function AggregateComments(onLabel: string, cs: seq<EscalatedComment>): (r: Option<string>)
    ensures r.Some? <==> |cs| > 0
    ensures r.Some? ==> r.value == CommentBlock(onLabel, cs[0]) + CommentsText(onLabel, cs[1..])
  {
    if |cs| == 0 then None else Some(CommentsText(onLabel, cs))
  }

  /** The note is the comments' blocks one after the other: the text of a
      concatenation is the concatenation of the texts. */
  lemma {:induction false} CommentsTextConcat(onLabel: string, a: seq<EscalatedComment>, b: seq<EscalatedComment>)
    ensures CommentsText(onLabel, a + b) == CommentsText(onLabel, a) + CommentsText(onLabel, b)
  {
    if |a| > 0 {
      assert (a + b)[1..] == a[1..] + b;
      CommentsTextConcat(onLabel, a[1..], b);
    } else {
      assert a + b == b;
    }
  }

  /** The translated labels of the description. */
  datatype Labels = Labels(category: string, owner: string, ticketId: string, schoolName: string, manager: string)

  /** `appendDataToDescription`: one "label: value" line. */
  function DescriptionLine(caption: string, value: string): string {
    caption + ": " + value + "\n"
  }

  /** The escalated ticket as `createIssue` reads it. */
  datatype EscalationTicket = EscalationTicket(
    id: int, subject: string, description: string, category: string,
    schoolId: string, ownerName: string, comments: seq<EscalatedComment>)

  /** The description of the created issue: five labelled lines, a blank
      line, then the ticket's own description. */
  function BuildDescription(l: Labels, category: string, t: EscalationTicket, schoolName: string, manager: string): string {
    DescriptionLine(l.category, category) + (
    DescriptionLine(l.owner, t.ownerName) + (
    DescriptionLine(l.ticketId, IntToString(t.id)) + (
    DescriptionLine(l.schoolName, schoolName) + (
    DescriptionLine(l.manager, manager) + (
    "\n" + t.description)))))
  }

  /** A line without a break inside splits off as one piece. */
  lemma LineSplit(caption: string, value: string, rest: string)
    requires '\n' !in caption && '\n' !in value
    ensures Split(DescriptionLine(caption, value) + rest, '\n') == [caption + ": " + value] + Split(rest, '\n')
  {
    var a := caption + ": " + value;
    assert '\n' !in a;
    assert DescriptionLine(caption, value) + rest == a + ['\n'] + rest;
    SplitCons(a, '\n', rest);
  }

  /** The lines of the description, when no label or value holds a break. */
  lemma DescriptionSplit(l: Labels, category: string, t: EscalationTicket, schoolName: string, manager: string)
    requires '\n' !in l.category && '\n' !in l.owner && '\n' !in l.ticketId && '\n' !in l.schoolName && '\n' !in l.manager
    requires '\n' !in category && '\n' !in t.ownerName && '\n' !in schoolName && '\n' !in manager
    ensures Split(BuildDescription(l, category, t, schoolName, manager), '\n') ==
      [l.category + ": " + category, l.owner + ": " + t.ownerName,
       l.ticketId + ": " + IntToString(t.id), l.schoolName + ": " + schoolName,
       l.manager + ": " + manager, ""] + Split(t.description, '\n')
  {
    IntToStringChars(t.id, '\n');
    var r6 := "\n" + t.description;
    var r5 := DescriptionLine(l.manager, manager) + r6;
    var r4 := DescriptionLine(l.schoolName, schoolName) + r5;
    var r3 := DescriptionLine(l.ticketId, IntToString(t.id)) + r4;
    var r2 := DescriptionLine(l.owner, t.ownerName) + r3;
    var a1, a2, a3 := l.category + ": " + category, l.owner + ": " + t.ownerName, l.ticketId + ": " + IntToString(t.id);
    var a4, a5, d := l.schoolName + ": " + schoolName, l.manager + ": " + manager, Split(t.description, '\n');
    assert r6 == "" + ['\n'] + t.description;
    SplitCons("", '\n', t.description);
    assert Split(r6, '\n') == [""] + d;
    LineSplit(l.manager, manager, r6);
    assert Split(r5, '\n') == [a5] + Split(r6, '\n');
    LineSplit(l.schoolName, schoolName, r5);
    assert Split(r4, '\n') == [a4] + Split(r5, '\n');
    LineSplit(l.ticketId, IntToString(t.id), r4);
    assert Split(r3, '\n') == [a3] + Split(r4, '\n');
    LineSplit(l.owner, t.ownerName, r3);
    assert Split(r2, '\n') == [a2] + Split(r3, '\n');
    LineSplit(l.category, category, r2);
    assert BuildDescription(l, category, t, schoolName, manager) == DescriptionLine(l.category, category) + r2;
    assert Split(BuildDescription(l, category, t, schoolName, manager), '\n') == [a1] + Split(r2, '\n');
    ConsSix(a1, a2, a3, a4, a5, "", d);
  }

  /** Reading the description back: when no label or value holds a line
      break, its first six lines are the five "label: value" lines and an
      empty line, and the rest is exactly the ticket's description. */
  lemma DescriptionFields(l: Labels, category: string, t: EscalationTicket, schoolName: string, manager: string)
    requires '\n' !in l.category && '\n' !in l.owner && '\n' !in l.ticketId && '\n' !in l.schoolName && '\n' !in l.manager
    requires '\n' !in category && '\n' !in t.ownerName && '\n' !in schoolName && '\n' !in manager
    ensures var lines := Split(BuildDescription(l, category, t, schoolName, manager), '\n');
      && |lines| >= 6
      && lines[..6] == [l.category + ": " + category, l.owner + ": " + t.ownerName,
                        l.ticketId + ": " + IntToString(t.id), l.schoolName + ": " + schoolName,
                        l.manager + ": " + manager, ""]
      && Join(lines[6..], '\n') == t.description
  {
    DescriptionSplit(l, category, t, schoolName, manager);
    var head := [l.category + ": " + category, l.owner + ": " + t.ownerName,
                 l.ticketId + ": " + IntToString(t.id), l.schoolName + ": " + schoolName,
                 l.manager + ": " + manager, ""];
    var lines := head + Split(t.description, '\n');
    assert lines[..6] == head;
    assert lines[6..] == Split(t.description, '\n');
    JoinSplit(t.description, '\n');
  }

  /** What the directory lookup of `createIssue` returned, when its
      transaction succeeded with two result sets: the `name` of each row of
      the school query and of the application query. */
  datatype DirectoryNames = DirectoryNames(schools: seq<Option<string>>, applications: seq<Option<string>>)

  /** The single row's name, when there is exactly one row and it has one. */
  function SingleName(rows: seq<Option<string>>): Option<string> {
    if |rows| == 1 then rows[0] else None
  }

  /** The school name, or the school id when the directory does not give one. */
  function SchoolName(found: Option<DirectoryNames>, schoolId: string): (r: string)
    ensures found.Some? && SingleName(found.value.schools).Some? ==> r == SingleName(found.value.schools).value
    ensures found.None? || SingleName(found.value.schools).None? ==> r == schoolId
  {
    if found.Some? && SingleName(found.value.schools).Some? then SingleName(found.value.schools).value else schoolId
  }

  /** The category shown: the application's display name; failing that the
      translation of the stored category; when there is no translation
      (`translated == category`), the category without its first character.
      `None` where that substring throws (an empty category). */
  function CategoryName(found: Option<DirectoryNames>, category: string, translated: string): (r: Option<string>)
  {
    if found.Some? && SingleName(found.value.applications).Some? then SingleName(found.value.applications)
    else if translated != category then Some(translated)
    else if |category| == 0 then None
    else Some(category[1..])
  }

  /** The two kinds of stored category: an application address such as
      "/support" without translation shows as "support", and an i18n key
      shows as its translation, whenever the directory has no single
      application name. */
  lemma CategoryFallback(found: Option<DirectoryNames>, name: string, key: string, translation: string)
    requires found.None? || SingleName(found.value.applications).None?
    requires key != translation
    ensures CategoryName(found, "/" + name, "/" + name) == Some(name)
    ensures CategoryName(found, key, translation) == Some(translation)
  {
    assert ("/" + name)[1..] == name;
  }

  /** The body of the issue creation: subject, description, and `uploads`
      only when there is at least one. */
  datatype IssueRequest = IssueRequest(subject: string, description: string, uploads: Option<seq<UploadJson>>)

  function CreateIssueRequest(t: EscalationTicket, description: string, uploads: seq<UploadJson>): (r: IssueRequest)
    ensures r.subject == t.subject && r.description == description
    ensures r.uploads.Some? <==> |uploads| > 0
    ensures r.uploads.Some? ==> r.uploads.value == uploads
  {
    IssueRequest(t.subject, description, if |uploads| > 0 then Some(uploads) else None)
  }

  /** The tracker's answer: its status, and its body (`None` when the body
      is not a JSON object). */
  datatype TrackerReply = TrackerReply(status: int, body: Option<IssueDoc>)

  /** The create-issue handler and the update handler after it: 201 without
      comments answers the created issue; 201 with comments adds them as a
      note and answers the created issue only if that update gets 200. */
  function CreateIssueOutcome(created: TrackerReply, hasComments: bool, updateStatus: int): (r: Either<string, IssueDoc>)
    ensures r.Right? <==>
      created.status == 201 && created.body.Some? && (!hasComments || (ExtractIdFromIssue(created.body.value).Got? && updateStatus == 200))
    ensures r.Right? ==> r.right == created.body.value
    ensures r == Left(EscalationIncomplete) <==>
      created.status == 201 && created.body.Some? && hasComments && ExtractIdFromIssue(created.body.value).Got? && updateStatus != 200
    ensures r.Left? ==> r.left == EscalationError || r.left == EscalationIncomplete
  {
    if created.status != 201 || created.body.None? then Left(EscalationError)
    else if !hasComments then Right(created.body.value)
    else if ExtractIdFromIssue(created.body.value).Throws? then Left(EscalationError)
    else if updateStatus == 200 then Right(created.body.value)
    else Left(EscalationIncomplete)
  }

  /** Everything outside the service that one escalation depends on. */
  datatype EscalationInputs = EscalationInputs(
    events: seq<UploadEvent>,
    directory: Option<DirectoryNames>,
    translatedCategory: string,
    labels: Labels,
    onLabel: string,
    manager: string,
    created: TrackerReply,
    updateStatus: int)

  /** What one escalation did: the reply its handler got (`None`: never
      called), the attachment map it filled, and the issue creation it sent. */
  datatype EscalationRun = EscalationRun(
    reply: Option<Either<string, IssueDoc>>,
    attachmentMap: map<int, string>,
    request: Option<IssueRequest>)

  /** The creation step of `createIssue` and its handlers, for given uploads. */
  function CreateAndComment(t: EscalationTicket, uploads: seq<UploadJson>, attachmentMap: map<int, string>, inp: EscalationInputs): (r: EscalationRun)
    ensures r.attachmentMap == attachmentMap
    ensures r.request.Some? <==> CategoryName(inp.directory, t.category, inp.translatedCategory).Some?
    ensures r.request.Some? ==> (r.request.value.uploads.Some? <==> |uploads| > 0)
    ensures r.reply.Some? <==> r.request.Some?
  {
    match CategoryName(inp.directory, t.category, inp.translatedCategory)
    case None => EscalationRun(None, attachmentMap, None)
    case Some(category) =>
      var description := BuildDescription(inp.labels, category, t, SchoolName(inp.directory, t.schoolId), inp.manager);
      EscalationRun(
        Some(CreateIssueOutcome(inp.created, |t.comments| > 0, inp.updateStatus)),
        attachmentMap,
        Some(CreateIssueRequest(t, description, uploads)))
  }

  /** `escalateTicket`: upload every attachment, create the issue once all
      uploads succeeded (at once when there is none), then add the comments. */
  function EscalateTicket(t: EscalationTicket, attachmentIds: seq<string>, inp: EscalationInputs): (r: EscalationRun)
    requires |inp.events| <= |attachmentIds|
    ensures |attachmentIds| == 0 ==> r == CreateAndComment(t, [], map[], inp)
    ensures r.attachmentMap == UploadFold(|attachmentIds|, inp.events).attachmentMap
  {
    if |attachmentIds| == 0 then CreateAndComment(t, [], map[], inp)
    else
      var st := UploadFold(|attachmentIds|, inp.events);
      if |st.creates| > 0 then CreateAndComment(t, st.creates[0], st.attachmentMap, inp)
      else if |st.errors| > 0 then EscalationRun(Some(Left(st.errors[0])), st.attachmentMap, None)
      else EscalationRun(None, st.attachmentMap, None)
  }

  /** With attachments: the issue is requested only after every upload
      succeeded, and then carries one upload per attachment; a rejected
      upload makes the reply the upload error and no issue is requested;
      otherwise (an upload lost) the handler is never called. */
  lemma EscalationUploads(t: EscalationTicket, attachmentIds: seq<string>, inp: EscalationInputs)
    requires 0 < |attachmentIds| && |inp.events| <= |attachmentIds|
    ensures var r := EscalateTicket(t, attachmentIds, inp);
      && (r.request.Some? ==>
            && |inp.events| == |attachmentIds|
            && (forall i :: 0 <= i < |inp.events| ==> Completes(inp.events[i]))
            && r.request.value.uploads.Some? && |r.request.value.uploads.value| == |attachmentIds|)
      && ((exists i :: 0 <= i < |inp.events| && inp.events[i].Rejected?) ==>
            r.reply == Some(Left(UploadFailed)) && r.request.None?)
      && ((forall i :: 0 <= i < |inp.events| ==> !inp.events[i].Rejected?) &&
          (|inp.events| < |attachmentIds| || exists i :: 0 <= i < |inp.events| && !Completes(inp.events[i])) ==>
            r.reply.None? && r.request.None?)
  {
    FanInOutcome(|attachmentIds|, inp.events);
  }

  /** Reaching the tracker: once the issue is requested, the handler gets
      exactly the create outcome. */
  lemma EscalationReply(t: EscalationTicket, attachmentIds: seq<string>, inp: EscalationInputs)
    requires |inp.events| <= |attachmentIds|
    ensures var r := EscalateTicket(t, attachmentIds, inp);
      r.request.Some? ==> r.reply == Some(CreateIssueOutcome(inp.created, |t.comments| > 0, inp.updateStatus))
  {
    if |attachmentIds| > 0 {
      FanInOutcome(|attachmentIds|, inp.events);
    }
  }

  // ---------------------------------------------------------------------
  // commentIssue

  /** `commentIssue`: the tracker's status decides. */
  function CommentIssueOutcome(updateStatus: int): (r: Either<string, ()>)
    ensures r.Right? <==> updateStatus == 200
    ensures r.Left? ==> r.left == CommentNotAdded
  {
    if updateStatus == 200 then Right(()) else Left(CommentNotAdded)
  }

  // ---------------------------------------------------------------------
  // insertBugTrackerAttachment: the batched insert and its guard

  /** A value of a prepared statement. */
  datatype SqlValue = SqlNum(n: Option<int>) | SqlText(t: Option<string>)

  /** The five values of one `bug_tracker_attachments` row. */
  datatype LinkValues = LinkValues(id: SqlValue, issueId: SqlValue, documentId: SqlValue, name: SqlValue, size: SqlValue)

  function Flatten(rows: seq<LinkValues>): (r: seq<SqlValue>)
    ensures |r| == 5 * |rows|
  {
    if |rows| == 0 then []
    else [rows[0].id, rows[0].issueId, rows[0].documentId, rows[0].name, rows[0].size] + Flatten(rows[1..])
  }

  /** The rows of a flat value list, five values each. */
  function Chunk(values: seq<SqlValue>): (rows: seq<LinkValues>)
    requires |values| % 5 == 0
    ensures 5 * |rows| == |values|
  {
    if |values| == 0 then []
    else [LinkValues(values[0], values[1], values[2], values[3], values[4])] + Chunk(values[5..])
  }

  /** `insertBugTrackerAttachment`: refuse a missing, empty or ragged value
      list, otherwise insert one row per five values. */
  function InsertBugTrackerAttachment(values: Option<seq<SqlValue>>): (r: Either<string, seq<LinkValues>>)
    ensures r.Left? <==> values.None? || |values.value| == 0 || |values.value| % 5 != 0
    ensures r.Left? ==> r.left == InvalidValues
    ensures r.Right? ==> |r.right| >= 1 && Flatten(r.right) == values.value
  {
    if values.None? || |values.value| == 0 || |values.value| % 5 != 0 then Left(InvalidValues)
    else
      ChunkFlatten(values.value);
      Right(Chunk(values.value))
  }

  lemma {:induction false} ChunkFlatten(values: seq<SqlValue>)
    requires |values| % 5 == 0
    ensures Flatten(Chunk(values)) == values
    decreases |values|
  {
    if |values| > 0 {
      ChunkFlatten(values[5..]);
      assert values == values[..5] + values[5..];
    }
  }

  lemma {:induction false} FlattenChunk(rows: seq<LinkValues>)
    ensures Chunk(Flatten(rows)) == rows
  {
    if |rows| > 0 {
      FlattenChunk(rows[1..]);
      assert Flatten(rows)[5..] == Flatten(rows[1..]);
    }
  }

  /** Every non-empty batch of rows passes the guard and is inserted as is. */
  lemma BatchPassesGuard(rows: seq<LinkValues>)
    requires |rows| > 0
    ensures InsertBugTrackerAttachment(Some(Flatten(rows))) == Right(rows)
  {
    var v := Flatten(rows);
    assert |v| % 5 == 0 by {
      FlattenLengthMod(rows);
    }
    FlattenChunk(rows);
    assert InsertBugTrackerAttachment(Some(v)) == Right(Chunk(v));
  }

  /** A flattened batch always has a multiple of five values. */
  lemma {:induction false} FlattenLengthMod(rows: seq<LinkValues>)
    ensures |Flatten(rows)| % 5 == 0
  {
    if |rows| > 0 {
      FlattenLengthMod(rows[1..]);
      assert |Flatten(rows)| == 5 + |Flatten(rows[1..])|;
    }
  }

  // ---------------------------------------------------------------------
  // uploadDocuments, syncAttachments

  /** `Sql.parseId`: a decimal id becomes a number, anything else stays text. */
  function ParseId(s: string): (r: SqlValue)
    ensures r.SqlNum? <==> IsSqlIntegerId(s)
    ensures r.SqlNum? ==> r.n == Some(DigitsValue(s))
  {
    if IsSqlIntegerId(s) then SqlNum(Some(DigitsValue(s))) else SqlText(Some(s))
  }

  /** The documents `uploadDocuments` sends: the ids of the given documents
      (`None`: an entry without id) not already linked to the issue. */
  function DocumentsToUpload(linked: set<string>, documents: seq<Option<string>>): (d: set<string>)
    ensures forall x :: x in d <==> Some(x) in documents && x !in linked
  {
    set i | 0 <= i < |documents| && documents[i].Some? && documents[i].value !in linked :: documents[i].value
  }

  /** The shared state of the `uploadDocuments` fan-in. */
  datatype DocUploads = DocUploads(remaining: int, uploadError: bool, uploads: seq<UploadJson>, values: seq<LinkValues>)

  function DocStep(issueId: int, st: DocUploads, e: UploadEvent): DocUploads {
    match e
    case Uploaded(token, doc, name, ctype, size) =>
      (match TokenPrefix(token)
       case None => st
       case Some(prefix) =>
         st.(remaining := st.remaining - 1,
             uploads := st.uploads + [UploadJson(token, name, ctype)],
             values := st.values + [LinkValues(ParseId(prefix), SqlNum(Some(issueId)), SqlText(Some(doc)), SqlText(name), SqlNum(size))]))
    case Rejected => st.(remaining := st.remaining - 1, uploadError := true)
    case Lost => st
  }

  function DocFold(issueId: int, count: nat, events: seq<UploadEvent>): DocUploads {
    if |events| == 0 then DocUploads(count, false, [], [])
    else DocStep(issueId, DocFold(issueId, count, events[..|events| - 1]), events[|events| - 1])
  }

  /** An event that decrements the counter. */
  predicate Counted(e: UploadEvent) {
    e.Rejected? || (e.Uploaded? && TokenPrefix(e.token).Some?)
  }

  /** The last step of the fan-in, once the counter reaches zero: attach the
      uploads to the issue (a 200 answers the issue id, whatever the insert
      of the link rows gives), or report whether an upload failed. */
  function DocFinish(issueId: int, st: DocUploads, updateStatus: int, statusMessage: string): Either<string, Option<int>> {
    if |st.uploads| > 0 then
      if updateStatus == 200 then Right(Some(issueId))
      else Left(UploadAttachmentsError + " : " + statusMessage)
    else if st.uploadError then Left(UploadAttachmentsError)
    else Right(None)
  }

  function CountCounted(events: seq<UploadEvent>): (n: nat)
    ensures n <= |events|
  {
    if |events| == 0 then 0
    else CountCounted(events[..|events| - 1]) + (if Counted(events[|events| - 1]) then 1 else 0)
  }

  /** Every event is counted exactly when the count is the number of events. */
  lemma {:induction false} CountCountedAll(events: seq<UploadEvent>)
    ensures CountCounted(events) == |events| <==> forall i :: 0 <= i < |events| ==> Counted(events[i])
  {
    if |events| > 0 {
      var p := events[..|events| - 1];
      CountCountedAll(p);
      assert forall i :: 0 <= i < |p| ==> p[i] == events[i];
    }
  }

  /** The counter is decremented once per counted event; the uploads and
      the link rows grow together; the error flag records a rejection. */
  lemma {:induction false} DocFoldRemaining(issueId: int, count: nat, events: seq<UploadEvent>)
    ensures var st := DocFold(issueId, count, events);
      && st.remaining == count - CountCounted(events)
      && |st.uploads| == |st.values|
      && (st.uploadError <==> exists i :: 0 <= i < |events| && events[i].Rejected?)
  {
    if |events| > 0 {
      var p := events[..|events| - 1];
      DocFoldRemaining(issueId, count, p);
      assert forall i :: 0 <= i < |p| ==> p[i] == events[i];
    }
  }

  /** `uploadDocuments` as written: one read per document to send, and the
      reply when the counter, started at their number, drops to zero. With
      no document to send nothing is read, and nothing is ever replied. */
  function UploadDocumentsAsWritten(
    issueId: int, linked: set<string>, documents: seq<Option<string>>,
    events: seq<UploadEvent>, updateStatus: int, statusMessage: string): (r: Option<Either<string, Option<int>>>)
    requires |events| <= |DocumentsToUpload(linked, documents)|
    ensures r.Some? ==> DocumentsToUpload(linked, documents) != {}
  {
    var d := DocumentsToUpload(linked, documents);
    var st := DocFold(issueId, |d|, events);
    if d == {} then None
    else if st.remaining == 0 then Some(DocFinish(issueId, st, updateStatus, statusMessage))
    else None
  }

  /** The counterexample: updating an escalated ticket with a document that
      is already linked to its issue leaves the caller without any reply. */
  lemma UploadDocumentsNeverReplies(issueId: int, doc: string, updateStatus: int, statusMessage: string)
    ensures UploadDocumentsAsWritten(issueId, {doc}, [Some(doc)], [], updateStatus, statusMessage).None?
  {
  }

  /** `uploadDocuments` as intended: with nothing to send it answers at once
      (the empty object, as when no upload was needed); otherwise it answers
      when the last document was counted. */
  function UploadDocuments(
    issueId: int, linked: set<string>, documents: seq<Option<string>>,
    events: seq<UploadEvent>, updateStatus: int, statusMessage: string): (r: Option<Either<string, Option<int>>>)
    requires |events| <= |DocumentsToUpload(linked, documents)|
    ensures DocumentsToUpload(linked, documents) == {} ==> r == Some(Right(None))
    ensures DocumentsToUpload(linked, documents) != {} ==>
      (r.Some? <==> |events| == |DocumentsToUpload(linked, documents)| && forall i :: 0 <= i < |events| ==> Counted(events[i]))
    ensures r.Some? && r.value.Right? && r.value.right.Some? ==> r.value.right.value == issueId && updateStatus == 200
  {
    var d := DocumentsToUpload(linked, documents);
    var st := DocFold(issueId, |d|, events);
    DocFoldRemaining(issueId, |d|, events);
    CountCountedAll(events);
    if d == {} then Some(Right(None))
    else if st.remaining == 0 then Some(DocFinish(issueId, st, updateStatus, statusMessage))
    else None
  }

  /** The issue of a ticket, by `support.bug_tracker_issues.ticket_id`. */
  function IssuesOf(s: Store, ticketId: int): (r: set<int>)
    ensures forall k :: k in r <==> k in s.issues && s.issues[k].ticketId == ticketId
  {
    set k | k in s.issues && s.issues[k].ticketId == ticketId
  }

  /** `isEscaladed`: exactly one issue row for the ticket. */
  function IsEscaladed(s: Store, ticketId: int): bool {
    |IssuesOf(s, ticketId)| == 1
  }

  /** `getIssueId`: the ticket's issue id when there is a unique one. */
  function GetIssueId(s: Store, ticketId: int): (r: Option<int>)
    ensures r.Some? <==> |IssuesOf(s, ticketId)| == 1
    ensures r.Some? ==> r.value in s.issues && s.issues[r.value].ticketId == ticketId
  {
    if |IssuesOf(s, ticketId)| == 1 then Some(SetMin(IssuesOf(s, ticketId))) else None
  }

  /** With the escalation invariant, a ticket is escalated exactly when its
      escalation status is SUCCESSFUL. */
  lemma EscaladedIffSuccessful(s: Store, ticketId: int)
    requires Inv(s)
    ensures IsEscaladed(s, ticketId) <==>
      ticketId in s.tickets && s.tickets[ticketId].escalationStatus == EscalationStatuses.Successful
  {
    var ks := IssuesOf(s, ticketId);
    if ticketId in s.tickets && s.tickets[ticketId].escalationStatus == EscalationStatuses.Successful {
      var k :| k in s.issues && s.issues[k].ticketId == ticketId;
      assert forall k2 :: k2 in ks ==> k2 == k;
      assert ks == {k};
    }
    if |ks| == 1 {
      var k := SetMin(ks);
      assert s.issues[k].ticketId == ticketId;
    }
  }

  /** The document ids linked to an issue: what the query of
      `syncAttachments` selects. */
  function LinkedDocuments(s: Store, issueId: int): (r: set<string>)
    ensures forall d :: d in r <==> exists a :: a in s.links && s.links[a].issueId == issueId && s.links[a].documentId == Some(d)
  {
    set a | a in s.links && s.links[a].issueId == issueId && s.links[a].documentId.Some? :: s.links[a].documentId.value
  }

  /** What the `syncAttachments` loop collects, one entry per linked row.
      The alias `attachmentId` is not quoted, so the database names the
      column `attachmentid`, and `getString("attachmentId")` reads null on
      every row. */
  function LinkedDocumentsAsRead(s: Store, issueId: int): (r: set<Option<string>>)
    ensures forall o :: o in r ==> o.None?
    ensures r == {} <==> forall a :: a in s.links ==> s.links[a].issueId != issueId
  {
    var r := set a | a in s.links && s.links[a].issueId == issueId :: None;
    assert forall a :: a in s.links && s.links[a].issueId == issueId ==> None in r;
    r
  }

  /** The ids among the collected entries. */
  function PresentIds(entries: set<Option<string>>): (r: set<string>)
    ensures forall x :: x in r <==> Some(x) in entries
  {
    set o | o in entries && o.Some? :: o.value
  }

  /** `syncAttachments` as written: nothing to do for a ticket that was not
      escalated; a failed query answers its error; otherwise the documents
      are sent by `uploadDocuments` as written, against the ids the loop
      collected, which are none. */
  function SyncAttachmentsAsWritten(
    s: Store, ticketId: int, selectError: Option<string>, documents: seq<Option<string>>,
    events: seq<UploadEvent>, updateStatus: int, statusMessage: string): (r: Option<Either<string, Option<int>>>)
    requires |events| <= |DocumentsToUpload({}, documents)|
    ensures GetIssueId(s, ticketId).None? ==> r == Some(Right(None))
    ensures GetIssueId(s, ticketId).Some? && selectError.Some? ==> r == Some(Left(selectError.value))
    ensures GetIssueId(s, ticketId).Some? && selectError.None? && (forall i :: 0 <= i < |documents| ==> documents[i].None?) ==>
      r.None?
  {
    match GetIssueId(s, ticketId)
    case None => Some(Right(None))
    case Some(issueId) =>
      if selectError.Some? then Some(Left(selectError.value))
      else
        var linked := PresentIds(LinkedDocumentsAsRead(s, issueId));
        assert linked == {};
        UploadDocumentsAsWritten(issueId, linked, documents, events, updateStatus, statusMessage)
  }

  /** The counterexample: a document already linked to the ticket's issue
      is sent to the tracker again by the code as written, and not by the
      corrected one, which answers at once. */
  lemma LinkedDocumentSentAgain(s: Store, ticketId: int, doc: string)
    requires GetIssueId(s, ticketId).Some?
    requires doc in LinkedDocuments(s, GetIssueId(s, ticketId).value)
    ensures doc in DocumentsToUpload(PresentIds(LinkedDocumentsAsRead(s, GetIssueId(s, ticketId).value)), [Some(doc)])
    ensures doc !in DocumentsToUpload(LinkedDocuments(s, GetIssueId(s, ticketId).value), [Some(doc)])
    ensures SyncAttachments(s, ticketId, None, [Some(doc)], [], 200, "") == Some(Right(None))
    ensures SyncAttachmentsAsWritten(s, ticketId, None, [Some(doc)], [], 200, "").None?
  {
    var issueId := GetIssueId(s, ticketId).value;
    assert PresentIds(LinkedDocumentsAsRead(s, issueId)) == {};
    assert DocumentsToUpload(LinkedDocuments(s, issueId), [Some(doc)]) == {};
    assert DocumentsToUpload({}, [Some(doc)]) == {doc};
  }

  /** `syncAttachments` corrected: the query's linked documents are read
      under the column's real name, and `uploadDocuments` answers when there
      is nothing to send. A ticket whose every document is already linked
      gets the empty answer at once. */
  function SyncAttachments(
    s: Store, ticketId: int, selectError: Option<string>, documents: seq<Option<string>>,
    events: seq<UploadEvent>, updateStatus: int, statusMessage: string): (r: Option<Either<string, Option<int>>>)
    requires GetIssueId(s, ticketId).Some? ==>
      |events| <= |DocumentsToUpload(LinkedDocuments(s, GetIssueId(s, ticketId).value), documents)|
    ensures GetIssueId(s, ticketId).None? ==> r == Some(Right(None))
    ensures GetIssueId(s, ticketId).Some? && selectError.Some? ==> r == Some(Left(selectError.value))
    ensures GetIssueId(s, ticketId).Some? && selectError.None? ==>
      var linked := LinkedDocuments(s, GetIssueId(s, ticketId).value);
      (forall i :: 0 <= i < |documents| ==> documents[i].None? || documents[i].value in linked) ==>
        r == Some(Right(None))
  {
    match GetIssueId(s, ticketId)
    case None => Some(Right(None))
    case Some(issueId) =>
      if selectError.Some? then Some(Left(selectError.value))
      else UploadDocuments(issueId, LinkedDocuments(s, issueId), documents, events, updateStatus, statusMessage)
  }
}
