/** The tracker-specific knowledge of `BugTracker.REDMINE`: where an issue
    document keeps its id, status, last update and attachments.

    An issue document is what the tracker returns and what the ticket store
    keeps in `support.bug_tracker_issues.content`. It is modelled as a typed
    record holding only the members the core reads; `ToJson` gives its JSON
    form so that the SQL path expressions can be stated over it. */
module BugTracker {
  import opened Results

  /** One element of `issue.attachments`. */
  datatype RemoteAttachment = RemoteAttachment(
    id: int,
    filename: string,
    filesize: int,
    contentType: string,
    contentUrl: string)

  /** One element of `issue.journals`: the `property` of each of its
      `details`, `None` where a detail has no `property`. */
  datatype Journal = Journal(details: Option<seq<Option<string>>>)

  /** The object under the document's `issue` key. */
  datatype IssueBody = IssueBody(
    id: Option<int>,
    statusId: Option<int>,
    updatedOn: Option<string>,
    attachments: Option<seq<RemoteAttachment>>,
    journals: Option<seq<Journal>>)

  /** An issue document: its `issue` object, if any, and whether it has
      other members (an error body, say), whose content the core never reads. */
  datatype IssueDoc = IssueDoc(issue: Option<IssueBody>, otherMembers: bool)

  /** The empty JSON object `{}`. */
  const EmptyIssue: IssueDoc := IssueDoc(None, false)

  /** `JsonObject.size() > 0`. */
  predicate NonEmpty(d: IssueDoc) {
    d.issue.Some? || d.otherMembers
  }

  /** What a Java accessor chain gives: `Throws` for the exception it raises
      (a null receiver dereferenced, a member of the wrong type), otherwise
      the member, `None` when it is absent or null. */
  datatype Access<+T> = Throws | Got(member: Option<T>)

  /** `extractIdFromIssue`: `issue.getObject("issue").getNumber("id")`, which
      throws when the document has no `issue` object. */
  function ExtractIdFromIssue(d: IssueDoc): Access<int> {
    if d.issue.Some? then Got(d.issue.value.id) else Throws
  }

  /** `extractAttachmentsFromIssue`: `issue.getObject("issue").getArray("attachments", null)`,
      which throws when the document has no `issue` object. */
  function ExtractAttachmentsFromIssue(d: IssueDoc): Access<seq<RemoteAttachment>> {
    if d.issue.Some? then Got(d.issue.value.attachments) else Throws
  }

  /** The value the SQL expression of `getStatusIdFromPostgresqlJson` reads. */
  function StatusId(d: IssueDoc): Option<int> {
    if d.issue.Some? then d.issue.value.statusId else None
  }

  /** The value the SQL expression of `getLastIssueUpdateFromPostgresqlJson` reads. */
  function LastIssueUpdate(d: IssueDoc): Option<string> {
    if d.issue.Some? then d.issue.value.updatedOn else None
  }

  // ---------------------------------------------------------------------
  // JSON form and path lookup

  datatype Json =
    | JNull
    | JNum(n: int)
    | JStr(s: string)
    | JArr(items: seq<Json>)
    | JObj(fields: map<string, Json>)

  /** `content->'issue'->>'updated_on'` */
  const LastIssueUpdatePath: seq<string> := ["issue", "updated_on"]
  /** `content#>'{issue,status,id}'` */
  const StatusIdPath: seq<string> := ["issue", "status", "id"]
  const IdPath: seq<string> := ["issue", "id"]
  const AttachmentsPath: seq<string> := ["issue", "attachments"]

  /** The member reached by following `path` from `j`, if every step exists. */
  function At(j: Json, path: seq<string>): Option<Json>
    decreases |path|
  {
    if |path| == 0 then Some(j)
    else if j.JObj? && path[0] in j.fields then At(j.fields[path[0]], path[1..])
    else None
  }

  function Put(m: map<string, Json>, key: string, v: Option<Json>): map<string, Json> {
    if v.Some? then m[key := v.value] else m
  }

  function NumJson(o: Option<int>): Option<Json> {
    if o.Some? then Some(JNum(o.value)) else None
  }

  function AttachmentJson(a: RemoteAttachment): Json {
    JObj(map[
      "id" := JNum(a.id),
      "filename" := JStr(a.filename),
      "filesize" := JNum(a.filesize),
      "content_type" := JStr(a.contentType),
      "content_url" := JStr(a.contentUrl)])
  }

  function AttachmentsJson(atts: seq<RemoteAttachment>): Json {
    JArr(seq(|atts|, i requires 0 <= i < |atts| => AttachmentJson(atts[i])))
  }

  function DetailJson(p: Option<string>): Json {
    JObj(Put(map[], "property", if p.Some? then Some(JStr(p.value)) else None))
  }

  function JournalJson(jn: Journal): Json {
    var details := if jn.details.Some?
      then Some(JArr(seq(|jn.details.value|, i requires 0 <= i < |jn.details.value| => DetailJson(jn.details.value[i]))))
      else None;
    JObj(Put(map[], "details", details))
  }

  function BodyJson(b: IssueBody): Json {
    var m0: map<string, Json> := map[];
    var m1 := Put(m0, "id", NumJson(b.id));
    var m2 := Put(m1, "status", if b.statusId.Some? then Some(JObj(map["id" := JNum(b.statusId.value)])) else None);
    var m3 := Put(m2, "updated_on", if b.updatedOn.Some? then Some(JStr(b.updatedOn.value)) else None);
    var m4 := Put(m3, "attachments", if b.attachments.Some? then Some(AttachmentsJson(b.attachments.value)) else None);
    var journals := if b.journals.Some?
      then Some(JArr(seq(|b.journals.value|, i requires 0 <= i < |b.journals.value| => JournalJson(b.journals.value[i]))))
      else None;
    JObj(Put(m4, "journals", journals))
  }

  /** The JSON text the tracker sends and the store keeps. One `errors`
      member stands for the members other than `issue`. */
  function ToJson(d: IssueDoc): Json {
    var others: map<string, Json> := if d.otherMembers then map["errors" := JArr([])] else map[];
    if d.issue.Some? then JObj(others["issue" := BodyJson(d.issue.value)]) else JObj(others)
  }

  /** A document is non-empty exactly when its JSON object has a member. */
  lemma NonEmptyIffMembers(d: IssueDoc)
    ensures ToJson(d).JObj?
    ensures NonEmpty(d) <==> ToJson(d).fields != map[]
  {
    if d.issue.Some? {
      assert "issue" in ToJson(d).fields;
    } else if d.otherMembers {
      assert "errors" in ToJson(d).fields;
    }
  }

  // ---------------------------------------------------------------------
  // The vert.x `JsonObject` accessors, on the JSON form

  /** `getObject(key)`: absent or null gives null; a non-object member throws. */
  function GetObject(o: map<string, Json>, key: string): Access<map<string, Json>> {
    if key !in o || o[key].JNull? then Got(None)
    else if o[key].JObj? then Got(Some(o[key].fields))
    else Throws
  }

  /** `getNumber(key)`: absent or null gives null; a non-number member throws. */
  function GetNumber(o: map<string, Json>, key: string): Access<int> {
    if key !in o || o[key].JNull? then Got(None)
    else if o[key].JNum? then Got(Some(o[key].n))
    else Throws
  }

  /** `getArray(key, null)`: absent or null gives null; a non-array member throws. */
  function GetArray(o: map<string, Json>, key: string): Access<seq<Json>> {
    if key !in o || o[key].JNull? then Got(None)
    else if o[key].JArr? then Got(Some(o[key].items))
    else Throws
  }

  /** `extractIdFromIssue` read off the JSON object: a null `issue` object
      is dereferenced, and throws. */
  function JavaExtractId(doc: map<string, Json>): Access<int> {
    match GetObject(doc, "issue")
    case Got(Some(body)) => GetNumber(body, "id")
    case _ => Throws
  }

  /** `extractAttachmentsFromIssue` read off the JSON object. */
  function JavaExtractAttachments(doc: map<string, Json>): Access<seq<Json>> {
    match GetObject(doc, "issue")
    case Got(Some(body)) => GetArray(body, "attachments")
    case _ => Throws
  }

  /** The stored status id is the number found at `{issue,status,id}`. */
  lemma StatusIdIsPathLookup(d: IssueDoc)
    ensures StatusId(d).Some? <==> At(ToJson(d), StatusIdPath).Some?
    ensures StatusId(d).Some? ==> At(ToJson(d), StatusIdPath) == Some(JNum(StatusId(d).value))
  {
    if d.issue.Some? {
      var b := d.issue.value;
      assert At(ToJson(d), StatusIdPath) == At(BodyJson(b), ["status", "id"]);
    }
  }

  /** The last update is the string found at `issue -> updated_on`. */
  lemma LastIssueUpdateIsPathLookup(d: IssueDoc)
    ensures LastIssueUpdate(d).Some? <==> At(ToJson(d), LastIssueUpdatePath).Some?
    ensures LastIssueUpdate(d).Some? ==> At(ToJson(d), LastIssueUpdatePath) == Some(JStr(LastIssueUpdate(d).value))
  {
    if d.issue.Some? {
      var b := d.issue.value;
      assert At(ToJson(d), LastIssueUpdatePath) == At(BodyJson(b), ["updated_on"]);
    }
  }

  /** The typed projection throws, finds nothing or finds the id exactly
      as the Java accessors do on the document's JSON form. */
  lemma ExtractIdFollowsJava(d: IssueDoc)
    ensures ToJson(d).JObj?
    ensures ExtractIdFromIssue(d) == JavaExtractId(ToJson(d).fields)
  {
    if d.issue.Some? {
      var b := d.issue.value;
      assert ToJson(d).fields["issue"] == BodyJson(b);
    } else {
      assert "issue" !in ToJson(d).fields;
    }
  }

  /** The same for the attachments: the typed list is the JSON array, element
      by element. */
  lemma ExtractAttachmentsFollowsJava(d: IssueDoc)
    ensures ToJson(d).JObj?
    ensures ExtractAttachmentsFromIssue(d).Throws? <==> JavaExtractAttachments(ToJson(d).fields).Throws?
    ensures ExtractAttachmentsFromIssue(d) == Got(None) <==> JavaExtractAttachments(ToJson(d).fields) == Got(None)
    ensures ExtractAttachmentsFromIssue(d).Got? && ExtractAttachmentsFromIssue(d).member.Some? ==>
      JavaExtractAttachments(ToJson(d).fields) == Got(Some(AttachmentsJson(ExtractAttachmentsFromIssue(d).member.value).items))
  {
    if d.issue.Some? {
      var b := d.issue.value;
      assert ToJson(d).fields["issue"] == BodyJson(b);
    } else {
      assert "issue" !in ToJson(d).fields;
    }
  }
}
