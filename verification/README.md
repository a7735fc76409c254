# Support tickets: escalation, reconciliation and formatting rules

The support module lets users of a school platform open tickets, which
local administrators answer and may escalate to a Redmine bug tracker.
Most of the module is asynchronous HTTP, SQL and Neo4j plumbing. This
project lifts the decisions made inside those callbacks into pure Dafny
functions over immutable data and proves what they guarantee:

- **Escalation state machine** (`TicketServiceSql`, `TicketController`).
  - The ticket store is a set of maps and row sequences: tickets, users,
    bug-tracker issues, attachment links, comments, attachments, history.
  - The atomic claim moves a ticket to IN_PROGRESS only when it may be
    escalated.
  - Finalisation records FAILED, or records SUCCESSFUL as one transaction
    with one issue row and one link per issue attachment.
  - The controller sequences claim, history row, escalation, fetch of the
    whole issue and finalisation.
  - The invariant "a SUCCESSFUL ticket has its issue row" is kept by every
    step.
- **Escalation orchestration** (`RedmineEscalation`).
  - The upload fan-in is a fold over upload outcomes.
  - The tracker id is read from the upload token.
  - The comment aggregation and the issue description are built and read
    back.
  - The category fallback and the create/update handlers are modelled.
  - The batched link insert guard, `uploadDocuments`, `syncAttachments`,
    `isEscaladed` and `getIssueId` are modelled.
- **Reconciliation** (`RedmineReconciliation`).
  - The list query string and the two-page pagination.
  - The attachment diff and the download links.
  - The notification kind, the recipients and the deduplicated history
    summary.
  - One issue refresh as a whole.
- **Validators and formatters.**
  - The two authorisation filters (`Filters`).
  - The search fragment, parameters and result formatting
    (`SupportSearchingEvents`).
  - Subject shortening, new-ticket defaults, ticket notifications and the
    issue comment format (`TicketController`).
  - The two status enums (`TicketStatuses`, `EscalationStatuses`) and the
    bug-tracker JSON projections (`BugTracker`).

`Results`, `Strings` and `Sequences` hold shared helpers:
- option and either types;
- split and join with their inverse laws;
- decimal rendering and Java's `Integer.parseInt`;
- `String.trim`;
- de-duplication in order.

Modelling conventions:
- A handler that is never called, because an exception escaped inside an
  asynchronous callback or a counter never reached its target, is `None`.
- Answers of the tracker, the directory, the workspace and I18n are
  parameters.
- Java `int` arithmetic wraps explicitly (`Strings.Wrap32`).
- `Sql.parseId` is not part of this model. It is taken to return an
  `Integer` for a non-empty string of ASCII digits whose value fits an
  `int`, and the string itself otherwise (`Strings.IsSqlIntegerId`).
- The escalation code imports `EscalationStatus` from the `enums` package,
  which is not part of this model. It is taken to have the same codes as
  `src/main/java/net/atos/entng/support/EscalationStatus.java`.
- The database schema is not part of this model. Issue ids,
  attachment-link ids and comment ids are taken as primary keys (so the
  comment order never falls through to content or author), and an issue's ticket as
  unique (a second issue for one ticket refuses the transaction).

Three behaviours of the code, modelled as written:
- An unclaimable ticket is refused with the message
  "support.error.escalation.conflict"
  (`controllers/TicketController.java:538`).
- When the issue was created but adding the comments as a note fails, the
  service answers "incomplete" (`services/impl/EscalationServiceRedmineImpl.java:362-370`).
  The controller then records FAILED (`controllers/TicketController.java:614-623`),
  although the issue exists in the tracker.
- The search fragment deletes only the last three characters, "OR", of
  the final " OR ", so it keeps a trailing space
  (`events/SupportSearchingEvents.java:154-157`).

Source paths below are relative to the repository root.

## Model

| member | source | states |
|---|---|---|
| TicketStatuses.Code | src/main/java/net/atos/entng/support/enums/TicketStatus.java:4-13 | every ticket status has a code between 1 and 4 |
| TicketStatuses.FromCode | src/main/java/net/atos/entng/support/enums/TicketStatus.java:4-13 | exactly the codes 1 to 4 name a status, and the one they name has that code |
| TicketStatuses.CodeInjective | src/main/java/net/atos/entng/support/enums/TicketStatus.java:4-13 | two ticket statuses with the same code are the same status |
| EscalationStatuses.Code | src/main/java/net/atos/entng/support/EscalationStatus.java:4-14 | every escalation status has a code between 1 and 4 |
| EscalationStatuses.FromCode | src/main/java/net/atos/entng/support/EscalationStatus.java:4-14 | exactly the codes 1 to 4 name an escalation status, and the one they name has that code |
| EscalationStatuses.CodeInjective | src/main/java/net/atos/entng/support/EscalationStatus.java:4-14 | two escalation statuses with the same code are the same status |
| BugTracker.LastIssueUpdateIsPathLookup | src/main/java/net/atos/entng/support/enums/BugTracker.java:29-31 | the last update read from an issue is what the JSON path issue → updated_on finds, present exactly when that path is |
| BugTracker.StatusIdIsPathLookup | src/main/java/net/atos/entng/support/enums/BugTracker.java:34-36 | the status id is what the JSON path issue → status → id finds, present exactly when that path is |
| BugTracker.NonEmptyIffMembers | src/main/java/net/atos/entng/support/services/impl/TicketServiceSqlImpl.java:309 | an issue document counts as non-empty exactly when its JSON object has some member |
| BugTracker.ExtractIdFollowsJava | src/main/java/net/atos/entng/support/enums/BugTracker.java:39-41 | the id read from an issue is what `getObject("issue").getNumber("id")` gives on its JSON: a thrown exception when there is no `issue` object, otherwise the id or null |
| BugTracker.ExtractAttachmentsFollowsJava | src/main/java/net/atos/entng/support/enums/BugTracker.java:44-46 | the attachments read from an issue throw exactly when `getObject("issue")` is null, are null exactly when the array is absent, and are otherwise that JSON array, element by element |
| TicketServiceSql.GetTicketIdAndSchoolId | src/main/java/net/atos/entng/support/services/impl/TicketServiceSqlImpl.java:214-221 | an answer exists exactly when the issue exists and its ticket does, and it names that ticket |
| TicketServiceSql.TicketDocuments | src/main/java/net/atos/entng/support/services/impl/TicketServiceSqlImpl.java:255-264 | a document is listed exactly when some attachment row of the ticket holds it |
| TicketServiceSql.InsertComment | src/main/java/net/atos/entng/support/services/impl/TicketServiceSqlImpl.java:257-259 | inserting into ordered comments keeps them ordered and adds exactly that comment |
| TicketServiceSql.SortComments | src/main/java/net/atos/entng/support/services/impl/TicketServiceSqlImpl.java:257-259 | the claim's comments are ordered by (creation truncated to seconds, id, content, author) and are a permutation of the ticket's comments |
| TicketServiceSql.GetTicketForEscalation | src/main/java/net/atos/entng/support/services/impl/TicketServiceSqlImpl.java:223-270 | a ticket whose escalation is neither IN_PROGRESS nor SUCCESSFUL and whose status is neither RESOLVED nor CLOSED moves to IN_PROGRESS with the claim date, and nothing else changes; any other ticket is untouched and no snapshot is returned; the snapshot carries the owner's name, the distinct document ids and the ordered comments |
| TicketServiceSql.ClaimIsExclusive | src/main/java/net/atos/entng/support/services/impl/TicketServiceSqlImpl.java:243-249 | after a successful claim a second claim of the same ticket returns nothing and changes nothing |
| TicketServiceSql.ClaimKeepsInv | src/main/java/net/atos/entng/support/services/impl/TicketServiceSqlImpl.java:236-249 | the claim keeps "every SUCCESSFUL ticket has an issue row" |
| TicketServiceSql.EscalationLinks | src/main/java/net/atos/entng/support/services/impl/TicketServiceSqlImpl.java:309-348 | one link per issue attachment, carrying its tracker id, file name, size and the workspace document the map gives; no link for an empty issue, an issue without attachments or an empty map |
| TicketServiceSql.UpdateTicketAfterEscalation | src/main/java/net/atos/entng/support/services/impl/TicketServiceSqlImpl.java:273-355 | a non-SUCCESSFUL target only sets the ticket's escalation status and date; SUCCESSFUL on a non-empty issue without an `issue` object throws at line 310: nothing is sent and no reply comes; otherwise, when the transaction commits, it also upserts the user, adds the issue row and the links while keeping every older row; when it is refused, nothing changes |
| TicketServiceSql.EndFailedKeepsInv | src/main/java/net/atos/entng/support/services/impl/TicketServiceSqlImpl.java:368-371 | recording FAILED on a ticket in progress keeps the escalation invariant |
| TicketServiceSql.EndSuccessfulKeepsInv | src/main/java/net/atos/entng/support/services/impl/TicketServiceSqlImpl.java:360-366 | recording SUCCESSFUL keeps the escalation invariant, whether the transaction commits or not |
| TicketServiceSql.UpdateIssue | src/main/java/net/atos/entng/support/services/impl/TicketServiceSqlImpl.java:374-394 | the stored content is replaced and the status id of the replaced content is returned; an unknown issue changes nothing |
| TicketServiceSql.UpdateIssueReturnsPrevious | src/main/java/net/atos/entng/support/services/impl/TicketServiceSqlImpl.java:378-393 | a second update returns the status id the first one stored |
| TicketServiceSql.ListExistingIssues | src/main/java/net/atos/entng/support/services/impl/TicketServiceSqlImpl.java:409-438 | the stored issues, restricted to the given ids when there are any, each with exactly the links that point to it (none for an issue without links) |
| TicketServiceSql.InsertIssueAttachment | src/main/java/net/atos/entng/support/services/impl/TicketServiceSqlImpl.java:468-484 | a new downloaded attachment is linked to the issue with its gridfs id, name and size; a duplicate id fails and changes nothing |
| TicketServiceSql.EventCountCounts | src/main/java/net/atos/entng/support/services/impl/TicketServiceSqlImpl.java:491-500 | after any sequence of increments every ticket's event count has grown by the number of times it was named, and nothing else has changed |
| TicketServiceSql.EventsOf | src/main/java/net/atos/entng/support/services/impl/TicketServiceSqlImpl.java:532-538 | a row is in the ticket's history list exactly when it is in the history table with that ticket |
| TicketServiceSql.ListEvents | src/main/java/net/atos/entng/support/services/impl/TicketServiceSqlImpl.java:532-538 | the events listed for a ticket are every history row of that ticket and no other |
| TicketServiceSql.HistoryGrowsByOne | src/main/java/net/atos/entng/support/services/impl/TicketServiceSqlImpl.java:569-583 | after one history insert, the ticket's event list (lines 532-538) is the old one followed by exactly the new row, and every other ticket's list is unchanged |
| TicketServiceSql.Descriptors | src/main/java/net/atos/entng/support/services/impl/TicketServiceSqlImpl.java:142-144 | the attachment descriptors are exactly the object elements of the array; other elements are skipped |
| TicketServiceSql.InsertAttachments | src/main/java/net/atos/entng/support/services/impl/TicketServiceSqlImpl.java:133-165 | no statement is sent exactly for a null or empty array |
| TicketServiceSql.InsertedAttachmentsListed | src/main/java/net/atos/entng/support/services/impl/TicketServiceSqlImpl.java:133-165 | the insert fails exactly for a non-empty array without any object (the statement ends in "VALUE"); otherwise only the attachment table changes, the ticket's documents grow by the descriptors' ids in order, and every other ticket's documents are unchanged |
| TicketServiceSql.SetClauses | src/main/java/net/atos/entng/support/services/impl/TicketServiceSqlImpl.java:94-99 | the SET clauses are exactly the body fields other than newComment and attachments |
| TicketServiceSql.NewComment | src/main/java/net/atos/entng/support/services/impl/TicketServiceSqlImpl.java:107-117 | reading newComment throws exactly when it is present with a non-string value; a comment is inserted exactly when it is a non-blank string |
| TicketServiceSql.BodyAttachments | src/main/java/net/atos/entng/support/services/impl/TicketServiceSqlImpl.java:120 | reading attachments throws exactly when it is present and not an array; otherwise the array is found exactly when the body holds one |
| TicketServiceSql.UpdateTicket | src/main/java/net/atos/entng/support/services/impl/TicketServiceSqlImpl.java:82-125 | the update is never sent exactly when reading newComment or attachments throws; otherwise it ends with modified = NOW(), sets exactly the other fields, targets the ticket, upserts the user, adds a comment only for a non-blank newComment and inserts a non-empty attachment array |
| TicketServiceSql.AssignReadsBack | src/main/java/net/atos/entng/support/services/impl/TicketServiceSqlImpl.java:94-106 | after one SET clause the column reads back the value set, and every other column is unchanged |
| TicketServiceSql.AssignmentsReadBack | src/main/java/net/atos/entng/support/services/impl/TicketServiceSqlImpl.java:94-106 | after SET clauses with distinct columns each column reads back its value, and every column not named is unchanged |
| TicketServiceSql.SetClausesRun | src/main/java/net/atos/entng/support/services/impl/TicketServiceSqlImpl.java:94-106 | the SET list is accepted exactly when every body field it sends names a modelled column other than `modified` and has that column's type |
| TicketServiceSql.SetClausesReadBack | src/main/java/net/atos/entng/support/services/impl/TicketServiceSqlImpl.java:94-106 | after an accepted update the ticket reads back every field the body set, and keeps every column the body did not name |
| TicketServiceSql.UpdateTicketEffect | src/main/java/net/atos/entng/support/services/impl/TicketServiceSqlImpl.java:82-125 | the update commits exactly when the SET list is accepted and the attachment insert is well formed; then the user is upserted, the ticket reads back the body's fields and keeps the others, other tickets are unchanged, the comment is appended exactly for a non-blank newComment, the ticket's documents grow by the inserted ones, and issues, links and history are unchanged |
| RedmineEscalation.TokenPrefix | src/main/java/net/atos/entng/support/services/impl/EscalationServiceRedmineImpl.java:268-269 | a token has a prefix exactly when it contains '.', and the prefix is what precedes the first '.' |
| RedmineEscalation.ParseUploadToken | src/main/java/net/atos/entng/support/services/impl/EscalationServiceRedmineImpl.java:268-271 | a parsed tracker id comes from a token with a '.' and fits a Java int |
| RedmineEscalation.UploadTokenRoundTrip | src/main/java/net/atos/entng/support/services/impl/EscalationServiceRedmineImpl.java:268-271 | the token "id.rest" yields id back, for every int id |
| RedmineEscalation.CountCompletedAll | src/main/java/net/atos/entng/support/services/impl/EscalationServiceRedmineImpl.java:279 | the success counter reaches the number of events exactly when every upload completed |
| RedmineEscalation.CountRejectedSome | src/main/java/net/atos/entng/support/services/impl/EscalationServiceRedmineImpl.java:290 | the failure counter is positive exactly when some upload was rejected |
| RedmineEscalation.UploadFoldCounts | src/main/java/net/atos/entng/support/services/impl/EscalationServiceRedmineImpl.java:242-306 | the counters count the outcomes; one error at most, on the first rejection; one creation at most, when the successes reach the number of ids, with the uploads gathered by then |
| RedmineEscalation.UploadFoldMap | src/main/java/net/atos/entng/support/services/impl/EscalationServiceRedmineImpl.java:270-271 | the attachment map sends each tracker id to the document of the last completed upload with that id, and holds nothing else |
| RedmineEscalation.MappedDocumentCovers | src/main/java/net/atos/entng/support/services/impl/EscalationServiceRedmineImpl.java:270-271 | every completed upload's tracker id is in the map |
| RedmineEscalation.FanInOutcome | src/main/java/net/atos/entng/support/services/impl/EscalationServiceRedmineImpl.java:279-292 | the issue is created at most once, exactly when every upload completed, with all uploads; one error exactly when some upload was rejected, always the upload-failed message; never both |
| RedmineEscalation.AggregateComments | src/main/java/net/atos/entng/support/services/impl/EscalationServiceRedmineImpl.java:381-401 | a note exists exactly when there are comments, and it is the comments' blocks in order |
| RedmineEscalation.CommentsTextConcat | src/main/java/net/atos/entng/support/services/impl/EscalationServiceRedmineImpl.java:381-401 | the aggregated text of two runs of comments is the concatenation of their texts |
| RedmineEscalation.LineSplit | src/main/java/net/atos/entng/support/services/impl/EscalationServiceRedmineImpl.java:506-509 | a description line reads back as "label: value" followed by the rest |
| RedmineEscalation.DescriptionSplit | src/main/java/net/atos/entng/support/services/impl/EscalationServiceRedmineImpl.java:474-481 | the description's lines are category, owner, ticket id, school, manager, an empty line, then the ticket description's lines |
| RedmineEscalation.DescriptionFields | src/main/java/net/atos/entng/support/services/impl/EscalationServiceRedmineImpl.java:474-481 | the first six lines carry the five fields, and the remaining lines joined are exactly the ticket's description |
| RedmineEscalation.SchoolName | src/main/java/net/atos/entng/support/services/impl/EscalationServiceRedmineImpl.java:448-466 | the school's directory name when there is a single named row, the school id otherwise |
| RedmineEscalation.CategoryFallback | src/main/java/net/atos/entng/support/services/impl/EscalationServiceRedmineImpl.java:455-472 | without an application name, an untranslated address "/name" shows as "name" and a translated key shows as its translation |
| RedmineEscalation.CreateIssueRequest | src/main/java/net/atos/entng/support/services/impl/EscalationServiceRedmineImpl.java:420-490 | the issue carries the ticket's subject and the description, and uploads exactly when there is at least one |
| RedmineEscalation.CreateIssueOutcome | src/main/java/net/atos/entng/support/services/impl/EscalationServiceRedmineImpl.java:314-375 | the created issue is answered exactly on 201 with an object and, with comments, a readable id (line 332) and a 200 on the note; a failed note gives "incomplete", any other failure the escalation error |
| RedmineEscalation.CreateAndComment | src/main/java/net/atos/entng/support/services/impl/EscalationServiceRedmineImpl.java:416-504 | an issue is requested and answered exactly when a category name could be computed, with uploads exactly when there are some |
| RedmineEscalation.EscalateTicket | src/main/java/net/atos/entng/support/services/impl/EscalationServiceRedmineImpl.java:229-312 | without attachments the issue is created at once; the attachment map is the one the uploads fill |
| RedmineEscalation.EscalationUploads | src/main/java/net/atos/entng/support/services/impl/EscalationServiceRedmineImpl.java:242-306 | the issue is requested only after every upload completed and carries one upload per id; a rejection replies the upload error with no issue; otherwise no reply |
| RedmineEscalation.EscalationReply | src/main/java/net/atos/entng/support/services/impl/EscalationServiceRedmineImpl.java:279-282 | once requested, the reply is the create outcome |
| RedmineEscalation.CommentIssueOutcome | src/main/java/net/atos/entng/support/services/impl/EscalationServiceRedmineImpl.java:975-997 | success exactly on status 200, otherwise the comment-not-added error |
| RedmineEscalation.Flatten | src/main/java/net/atos/entng/support/services/impl/EscalationServiceRedmineImpl.java:1039-1040 | five values per link row |
| RedmineEscalation.Chunk | src/main/java/net/atos/entng/support/services/impl/EscalationServiceRedmineImpl.java:1089-1096 | a value list of a multiple of five reads as that many fifths of rows |
| RedmineEscalation.InsertBugTrackerAttachment | src/main/java/net/atos/entng/support/services/impl/EscalationServiceRedmineImpl.java:1088-1100 | the insert is refused with "invalid.values" exactly for a null, empty or non-multiple-of-five list; otherwise it inserts the rows the values flatten from |
| RedmineEscalation.ChunkFlatten | src/main/java/net/atos/entng/support/services/impl/EscalationServiceRedmineImpl.java:1094-1096 | flattening the chunks gives the values back |
| RedmineEscalation.FlattenChunk | src/main/java/net/atos/entng/support/services/impl/EscalationServiceRedmineImpl.java:1094-1096 | chunking the flattened rows gives the rows back |
| RedmineEscalation.BatchPassesGuard | src/main/java/net/atos/entng/support/services/impl/EscalationServiceRedmineImpl.java:1088-1100 | a non-empty batch of rows always passes the guard and inserts exactly those rows |
| RedmineEscalation.ParseId | src/main/java/net/atos/entng/support/services/impl/EscalationServiceRedmineImpl.java:1039 | the tracker id is stored as an integer exactly when it is a digit string that fits an int, with its decimal value |
| RedmineEscalation.DocumentsToUpload | src/main/java/net/atos/entng/support/services/impl/EscalationServiceRedmineImpl.java:1001-1009 | exactly the non-null document ids not already linked are sent, each once |
| RedmineEscalation.CountCountedAll | src/main/java/net/atos/entng/support/services/impl/EscalationServiceRedmineImpl.java:1043 | the counter drops once per answered upload, so it reaches zero exactly when every upload answered |
| RedmineEscalation.DocFoldRemaining | src/main/java/net/atos/entng/support/services/impl/EscalationServiceRedmineImpl.java:1010-1043 | the counter left is the starting count minus the answered uploads |
| RedmineEscalation.UploadDocumentsAsWritten | src/main/java/net/atos/entng/support/services/impl/EscalationServiceRedmineImpl.java:999-1080 | as written, a reply can only come when some document is sent |
| RedmineEscalation.UploadDocumentsNeverReplies | src/main/java/net/atos/entng/support/services/impl/EscalationServiceRedmineImpl.java:1010-1014 | with the only document already linked, the caller never gets a reply |
| RedmineEscalation.UploadDocuments | src/main/java/net/atos/entng/support/services/impl/EscalationServiceRedmineImpl.java:999-1080 | nothing to send answers the empty object at once; otherwise it answers exactly when every upload answered; an issue id is answered only after a 200 |
| RedmineEscalation.IssuesOf | src/main/java/net/atos/entng/support/services/impl/EscalationServiceRedmineImpl.java:1138 | exactly the issues whose ticket is the given one |
| RedmineEscalation.GetIssueId | src/main/java/net/atos/entng/support/services/impl/EscalationServiceRedmineImpl.java:1149-1162 | an id is found exactly when the ticket has one issue row, and it is that row's |
| RedmineEscalation.EscaladedIffSuccessful | src/main/java/net/atos/entng/support/services/impl/EscalationServiceRedmineImpl.java:1137-1146 | under the escalation invariant, a ticket counts as escalated exactly when it is SUCCESSFUL |
| RedmineEscalation.LinkedDocuments | src/main/java/net/atos/entng/support/services/impl/EscalationServiceRedmineImpl.java:1108-1122 | with the column read under its real name: exactly the documents linked to the issue |
| RedmineEscalation.LinkedDocumentsAsRead | src/main/java/net/atos/entng/support/services/impl/EscalationServiceRedmineImpl.java:1108-1122 | as written, one null entry per link row of the issue and nothing else: no linked id is ever read |
| RedmineEscalation.PresentIds | src/main/java/net/atos/entng/support/services/impl/EscalationServiceRedmineImpl.java:1119-1122 | the ids collected are exactly the non-null entries |
| RedmineEscalation.SyncAttachmentsAsWritten | src/main/java/net/atos/entng/support/services/impl/EscalationServiceRedmineImpl.java:1103-1134 | as written: a ticket with no issue answers the empty object; a failed query answers its error; with no document id to send no reply ever comes |
| RedmineEscalation.LinkedDocumentSentAgain | src/main/java/net/atos/entng/support/services/impl/EscalationServiceRedmineImpl.java:1110-1121 | a document already linked to the ticket's issue is sent again as written, and, with no upload answered yet, the caller gets no reply; the corrected code does not send it and answers the empty object at once |
| RedmineEscalation.SyncAttachments | src/main/java/net/atos/entng/support/services/impl/EscalationServiceRedmineImpl.java:1103-1134 | corrected: a ticket with no issue answers the empty object; a failed query answers its error; when every document is absent or already linked it answers the empty object |
| RedmineReconciliation.AddParam | src/main/java/net/atos/entng/support/services/impl/EscalationServiceRedmineImpl.java:685-703 | an optional parameter adds exactly one '&'-separated field, "key=value", when present |
| RedmineReconciliation.ListIssuesQueryParams | src/main/java/net/atos/entng/support/services/impl/EscalationServiceRedmineImpl.java:685-703 | the query's fields are the status filter, updated_on when a date is given, offset when it is not negative, and limit when it is positive |
| RedmineReconciliation.NextPage | src/main/java/net/atos/entng/support/services/impl/EscalationServiceRedmineImpl.java:578-586 | a next page never recurses and starts at the reply's limit |
| RedmineReconciliation.PaginationRule | src/main/java/net/atos/entng/support/services/impl/EscalationServiceRedmineImpl.java:572-586 | a second page is asked for exactly when issues were listed, recursion is allowed, all counters are present and the total exceeds the limit; it ends at the total and asks for nothing more |
| RedmineReconciliation.SecondPageQuery | src/main/java/net/atos/entng/support/services/impl/EscalationServiceRedmineImpl.java:578-586 | the second page's query carries offset = limit and limit = total − limit |
| RedmineReconciliation.Unlinked | src/main/java/net/atos/entng/support/services/impl/EscalationServiceRedmineImpl.java:650-663 | the downloads are drawn from the remote attachments |
| RedmineReconciliation.UnlinkedIffNotLinked | src/main/java/net/atos/entng/support/services/impl/EscalationServiceRedmineImpl.java:650-663 | an attachment is downloaded exactly when its id is not linked (null linked list read as empty), in remote order |
| RedmineReconciliation.UnlinkedAllWhenNoneLinked | src/main/java/net/atos/entng/support/services/impl/EscalationServiceRedmineImpl.java:650-663 | with a null or empty linked list every attachment is downloaded |
| RedmineReconciliation.UnlinkedNoneWhenAllLinked | src/main/java/net/atos/entng/support/services/impl/EscalationServiceRedmineImpl.java:650-663 | when every id is linked nothing is downloaded |
| RedmineReconciliation.StoreDownloads | src/main/java/net/atos/entng/support/services/impl/EscalationServiceRedmineImpl.java:732-764 | completed downloads only add links; existing links and every other table are kept |
| RedmineReconciliation.StoreDownloadsLinksAll | src/main/java/net/atos/entng/support/services/impl/EscalationServiceRedmineImpl.java:732-764 | once every download completed, every downloaded id is linked to the issue |
| RedmineReconciliation.IssueRecipients | src/main/java/net/atos/entng/support/services/impl/EscalationServiceRedmineImpl.java:814-829 | nothing is sent for a null or empty administrator list; otherwise the recipients are exactly the administrators and the owner |
| RedmineReconciliation.RecipientsCount | src/main/java/net/atos/entng/support/services/impl/EscalationServiceRedmineImpl.java:814-829 | each recipient appears once; the owner adds one only when not already an administrator |
| RedmineReconciliation.KindRule | src/main/java/net/atos/entng/support/services/impl/EscalationServiceRedmineImpl.java:832-840 | "resolved" exactly for a change to the resolved id, "closed" exactly for a change to the closed id that is not the resolved one, "updated" otherwise |
| RedmineReconciliation.NotificationName | src/main/java/net/atos/entng/support/services/impl/EscalationServiceRedmineImpl.java:832-840 | every notification type is a "support.bugtracker-issue-" name |
| RedmineReconciliation.Kinds | src/main/java/net/atos/entng/support/services/impl/EscalationServiceRedmineImpl.java:856-883 | one category per journal detail |
| RedmineReconciliation.HistoFoldIsDedup | src/main/java/net/atos/entng/support/services/impl/EscalationServiceRedmineImpl.java:856-883 | the summary loop with its three flags computes the categories without repeats, in order of first occurrence |
| RedmineReconciliation.HistoSummaryIsDedup | src/main/java/net/atos/entng/support/services/impl/EscalationServiceRedmineImpl.java:853-884 | the summary is each category once, in order of first occurrence, and no summary when a detail lacks its property |
| RedmineReconciliation.NotifyIssueChangedEffect | src/main/java/net/atos/entng/support/services/impl/EscalationServiceRedmineImpl.java:769-917 | a notice is sent exactly when the issue has a status, its ticket is known and administrators were listed, on every refresh; it reaches the owner and all administrators under the kind the status change selects; at most one history row (no user, event 6) and one event are added on that ticket |
| RedmineReconciliation.NotifyFrame | src/main/java/net/atos/entng/support/services/impl/EscalationServiceRedmineImpl.java:853-902 | a notification touches only the history and the event counters |
| RedmineReconciliation.UpdateAndNotifyFrame | src/main/java/net/atos/entng/support/services/impl/EscalationServiceRedmineImpl.java:620-646 | storing a fetched issue and notifying changes only that issue's content, the history and the event counters |
| RedmineReconciliation.RefreshIssue | src/main/java/net/atos/entng/support/services/impl/EscalationServiceRedmineImpl.java:609-663 | a refresh downloads exactly the unlinked attachments of the fetched issue, and nothing when fetching failed, when the issue has no attachments array, or when it has no `issue` object (reading it throws at line 650 after the update and the notice were sent) |
| RedmineReconciliation.InvFrame | src/main/java/net/atos/entng/support/services/impl/EscalationServiceRedmineImpl.java:609-663 | the escalation invariant survives any change that keeps tickets' escalation states and issues' tickets |
| RedmineReconciliation.RefreshKeepsInv | src/main/java/net/atos/entng/support/services/impl/EscalationServiceRedmineImpl.java:609-663 | a refresh keeps the escalation invariant, changes no ticket but its event count, stores the fetched content and leaves every other issue alone |
| RedmineReconciliation.SecondRefreshDownloadsNothing | src/main/java/net/atos/entng/support/services/impl/EscalationServiceRedmineImpl.java:650-663 | after a refresh whose downloads all completed, refreshing again downloads nothing |
| TicketController.ShortenSubject | src/main/java/net/atos/entng/support/controllers/TicketController.java:266-272 | a shortened subject is at most 56 characters long |
| TicketController.ShortenSubjectSpec | src/main/java/net/atos/entng/support/controllers/TicketController.java:69 | a subject of at most 50 characters is kept; a longer one becomes its first 50 characters and " [...]"; shortening is idempotent |
| TicketController.NewTicketDefaults | src/main/java/net/atos/entng/support/controllers/TicketController.java:91-110 | a new ticket gets status NEW and event count 1, loses its attachments member and keeps every other member; a non-array attachments member creates nothing |
| TicketController.CreatedRecipients | src/main/java/net/atos/entng/support/controllers/TicketController.java:232-244 | a "ticket created" notice never has an empty recipient set |
| TicketController.UpdatedRecipients | src/main/java/net/atos/entng/support/controllers/TicketController.java:359-379 | a "ticket updated" notice never has an empty recipient set |
| TicketController.RecipientRules | src/main/java/net/atos/entng/support/controllers/TicketController.java:232-244 | creation notifies exactly the administrators but the actor; update (lines 359-379) notifies exactly the owner and the administrators, but the actor; nothing is sent when nobody is left |
| TicketController.NotifyTicketCreated | src/main/java/net/atos/entng/support/controllers/TicketController.java:211-264 | a creation notice names the created ticket |
| TicketController.NotifyTicketUpdated | src/main/java/net/atos/entng/support/controllers/TicketController.java:341-392 | an update notice names the updated ticket |
| TicketController.TicketNoticeRules | src/main/java/net/atos/entng/support/controllers/TicketController.java:218-252 | a creation notice is sent exactly when the row has its id, subject and school and someone is left to tell; an update notice (lines 348-357) exactly when the row has its subject, owner and school and someone is left; both carry the shortened subject |
| TicketController.SendIssueComment | src/main/java/net/atos/entng/support/controllers/TicketController.java:755-765 | the comment is sent exactly when the issue id parses as a Java int |
| TicketController.IssueCommentReadBack | src/main/java/net/atos/entng/support/controllers/TicketController.java:755-765 | the first line of the comment names the author, and the other lines are exactly its content |
| TicketController.SendIssueCommentTarget | src/main/java/net/atos/entng/support/controllers/TicketController.java:755-765 | the comment goes to the issue whose id was rendered |
| TicketController.ClaimErrorStops | src/main/java/net/atos/entng/support/controllers/TicketController.java:559-563 | a claim whose statement fails renders the database error and leaves the store untouched |
| TicketController.ConflictStops | src/main/java/net/atos/entng/support/controllers/TicketController.java:534-540 | a ticket that cannot be claimed gets a conflict and the store is untouched |
| TicketController.ErrorRecordsFailed | src/main/java/net/atos/entng/support/controllers/TicketController.java:614-623 | an escalation error records FAILED, renders the error and writes no issue or link |
| TicketController.MissingIssueObjectStaysInProgress | src/main/java/net/atos/entng/support/controllers/TicketController.java:574-577 | a created issue without an `issue` object throws when its id is read: no response, the ticket stays IN_PROGRESS, and no issue or link is written |
| TicketController.FetchedRecordsSuccess | src/main/java/net/atos/entng/support/controllers/TicketController.java:574-596 | no response exactly when reading the created id or the fetched issue's attachments throws, and then the ticket stays IN_PROGRESS; the fetched issue is rendered only when SUCCESSFUL was recorded with it; otherwise the refused transaction is rendered and the ticket stays IN_PROGRESS |
| TicketController.UnfetchedRecordsSuccess | src/main/java/net/atos/entng/support/controllers/TicketController.java:574-610 | a created issue that could not be fetched renders the fetch error, unless reading its id throws (no response); it records SUCCESSFUL exactly when the id is present and the ticket and the id have no issue row yet, with an empty issue and no link |
| TicketController.UnfetchedAfterEscalation | src/main/java/net/atos/entng/support/controllers/TicketController.java:597-610 | the same step, from any store where the ticket is in progress |
| TicketController.FlowKeepsInv | src/main/java/net/atos/entng/support/controllers/TicketController.java:528-625 | the whole escalation request keeps the escalation invariant, whatever the database, the service and the tracker answer, including a failed claim and an exception that leaves the request unanswered |
| Filters.LocalScope | src/main/java/net/atos/entng/support/filters/OwnerOrLocalAdmin.java:66-79 | a scope is used only when it is non-empty |
| Filters.OwnerOrLocalAdminRule | src/main/java/net/atos/entng/support/filters/OwnerOrLocalAdmin.java:46-99 | a malformed id is refused; a super administrator passes; anyone else exactly when the ticket exists and they own it or it is in their local-admin scope |
| Filters.EmptyScopeFallsBackToOwner | src/main/java/net/atos/entng/support/filters/OwnerOrLocalAdmin.java:71-79 | without a usable scope only ownership counts |
| Filters.LocalAdminRule | src/main/java/net/atos/entng/support/filters/LocalAdmin.java:27-68 | a malformed id, a user without a usable ADMIN_LOCAL scope (a super administrator included) and a failed count query are refused; otherwise access exactly when the ticket exists in a school of the scope |
| Filters.LocalAdminIgnoresOwner | src/main/java/net/atos/entng/support/filters/LocalAdmin.java:48-66 | the ticket's owner plays no part |
| Filters.LocalAdminImpliesOwnerOrLocalAdmin | src/main/java/net/atos/entng/support/filters/LocalAdmin.java:27-68 | whoever passes the local-admin filter passes the owner-or-local-admin filter |
| Filters.NullFunctionsGetNoAnswer | src/main/java/net/atos/entng/support/filters/OwnerOrLocalAdmin.java:66-83 | a user with a null functions map gets no answer from the filter as written, and access to their own ticket from the corrected one |
| Filters.NullFunctionsOwnerOnly | src/main/java/net/atos/entng/support/filters/OwnerOrLocalAdmin.java:66-83 | for every well-formed id, a null functions map gets no answer as written, and the corrected filter grants exactly to the ticket's owner |
| SupportSearchingEvents.Appended | src/main/java/net/atos/entng/support/events/SupportSearchingEvents.java:154-156 | the loop's text ends with " OR " once there is a field |
| SupportSearchingEvents.SearchWhereIsJoin | src/main/java/net/atos/entng/support/events/SupportSearchingEvents.java:151-160 | the fragment is the field conditions joined by " OR ", followed by one space |
| SupportSearchingEvents.Conditions | src/main/java/net/atos/entng/support/events/SupportSearchingEvents.java:155 | one "unaccent(field) template" condition per field |
| SupportSearchingEvents.AppendedIsJoin | src/main/java/net/atos/entng/support/events/SupportSearchingEvents.java:154-156 | the loop's text is the joined conditions followed by " OR " |
| SupportSearchingEvents.SearchWhereForSearchFields | src/main/java/net/atos/entng/support/events/SupportSearchingEvents.java:57-62 | for subject and description the fragment is "unaccent(t.subject) T OR unaccent(t.description) T " |
| SupportSearchingEvents.SearchValuesWildcard | src/main/java/net/atos/entng/support/events/SupportSearchingEvents.java:162-168 | one "%w%" per word, in order |
| SupportSearchingEvents.WildcardUnwraps | src/main/java/net/atos/entng/support/events/SupportSearchingEvents.java:162-168 | stripping the two '%' gives each word back |
| SupportSearchingEvents.SearchParams | src/main/java/net/atos/entng/support/events/SupportSearchingEvents.java:54-81 | nothing is searched unless the filters name the class; otherwise the parameters are the user id, the wildcards once per field, the limit and the wrapped int page × limit |
| SupportSearchingEvents.StatusKeyFollowsStatus | src/main/java/net/atos/entng/support/events/SupportSearchingEvents.java:125-139 | codes 1, 2, 3 give the new, opened and resolved keys, and exactly CLOSED or a code that is no status gives the closed key |
| SupportSearchingEvents.FormatCategoryRule | src/main/java/net/atos/entng/support/events/SupportSearchingEvents.java:141-144 | the key looked up never contains '/', and a category without '/' is looked up as it is; the answer is the key's translation or that of "other", the key's whenever it is non-empty; a null or empty answer only comes from "other" |
| SupportSearchingEvents.FormatSearchResultRule | src/main/java/net/atos/entng/support/events/SupportSearchingEvents.java:103-123 | with six headers, one formatted entry per non-null row, in order; with fewer, an answer only when every row is null |

## Left out

- HTTP requests, the proxy and host handling, headers, and the status lines
  of the tracker: their outcomes are parameters (`TrackerReply`,
  `UploadEvent`, `RefreshInputs`).
- The periodic timer, the watermark date and its format: clocks are the
  `now` parameters, and the last update date is an opaque string.
- Neo4j lookups of school names, application names and administrators:
  their results are parameters (`DirectoryNames`, administrator lists).
- I18n: translations are parameters or a `string -> Option<string>`
  function.
- SQL text: each statement is its effect on the store. Two things are
  left out: the modification times (`modified = NOW()` is a marker), and
  the JSON columns' text.
- Concurrency (`AtomicInteger`, `AtomicBoolean`, `ConcurrentMap`): the
  callbacks run one after another, in the order of the outcome list.
- The stale copies under `services/` and the root `TicketStatus.java`:
  they describe behaviour the module no longer runs.
- The JavaScript front end, the other controllers and services, and the
  wiring classes: they hold routing and single queries, not decisions.
- `TicketServiceSqlImpl.createTicket`: `createTicket` is modelled up to
  the body it hands to that service.
- `notifyIssueChanged`'s try/catch: a malformed issue is modelled as no
  status id, and so as no notice.
- Date parsing in `formatSearchResult`: the modification date is taken as
  already a number of milliseconds.
- Two column headers with the same name: these would collapse two
  members of a search entry, and this is not modelled.
- Java strings count UTF-16 units: the model counts characters.
- `Sql.arrayPrepared`: it is a parameter of the search, not modelled.
- The `uri`, `host` and ticket-link arguments of the notifications are
  not modelled.
- The values of the `DefaultFunctions` constants are taken to be
  "ADMIN_LOCAL" and "SUPER_ADMIN".
- TicketController.ShortenSubjectSpec: states only that a short subject is
  unchanged, not the converse. A 56-character subject that already ends
  in " [...]" is also unchanged.
- RedmineEscalation.SyncAttachments: states the cases that answer at
  once. The rest is `UploadDocuments`'s contract.
- TicketServiceSql.ApplyUpdate: refuses a SET clause on a column the
  ticket does not model (`created`, `escalation_date`, `modified` sent by
  the body, or an unknown name) and a value of another JSON type, where
  the database may convert the value or fail on its own terms.
- TicketServiceSql.ListEvents: lists the history in table order. The query
  has no ORDER BY, so the database's order is unspecified; the join with
  the users table (the user name) is not modelled.
- The elements of a tracker issue's `attachments` array are modelled as
  attachment objects. The loops that skip other elements
  (`services/impl/TicketServiceSqlImpl.java:334`,
  `services/impl/EscalationServiceRedmineImpl.java:655`) and type errors
  inside an element are not modelled.
- `getIssue` with a null id: only its outcome, the whole issue or an
  error, is a parameter of the controller flow.
- TicketController.FetchedRecordsSuccess: describes the two possible
  responses without naming the commit condition.
  `TicketServiceSql.UpdateTicketAfterEscalation` states that condition.

## Findings

| source | as written | input that shows it | evidently intended | confidence | as-written member | corrected member |
|---|---|---|---|---|---|---|
| src/main/java/net/atos/entng/support/services/impl/EscalationServiceRedmineImpl.java:1010-1014 | the reply is sent from inside the loop over the documents to send, when the counter started at their number drops to zero; with no document to send the loop never runs and the handler is never called | `syncAttachments` on an escalated ticket whose attachment entries carry no document id; once the query below reads linked ids, also one whose only document is already linked | answer at once, with the empty object the no-upload branch already uses | not executed | RedmineEscalation.UploadDocumentsAsWritten (shown by RedmineEscalation.UploadDocumentsNeverReplies) | RedmineEscalation.UploadDocuments |
| src/main/java/net/atos/entng/support/filters/OwnerOrLocalAdmin.java:83 | the functions map is null-checked when the scope is read (lines 66-67), then dereferenced without a check to look up SUPER_ADMIN | the owner of ticket 7 whose functions map is null asks for id "7" | read a null map as no functions: the owner is let through | not executed; assumes the platform can hand a null functions map | Filters.OwnerOrLocalAdminAsWritten (shown by Filters.NullFunctionsGetNoAnswer) | Filters.OwnerOrLocalAdmin |
| src/main/java/net/atos/entng/support/services/impl/EscalationServiceRedmineImpl.java:1110 | the alias `attachmentId` is not quoted, so the database names the column `attachmentid` and `getString("attachmentId")` (line 1121) reads null on every row: no linked document id is ever collected | `syncAttachments` on an escalated ticket whose document is already linked to its issue: the document is uploaded to the tracker again | quote the alias, so that linked documents are not sent again | not executed; assumes PostgreSQL's folding of unquoted identifiers | RedmineEscalation.SyncAttachmentsAsWritten (shown by RedmineEscalation.LinkedDocumentSentAgain) | RedmineEscalation.SyncAttachments |
