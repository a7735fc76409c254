/** The support module's answer to the platform-wide search: which query it
    prepares for a user's search words, and how it presents the rows found.
    Translation (`I18n.translate`) is a parameter: a function from a key to
    its text, `None` for a null translation. */
module SupportSearchingEvents {
  import opened Results
  import opened Strings
  import TicketStatuses

  /** The simple class name the app filters must name. */
  const ClassName := "SupportSearchingEvents"

  /** The fields searched, in order. */
  const SearchFields: seq<string> := ["t.subject", "t.description"]

  // ---------------------------------------------------------------------
  // searchWherePrepared

  /** The parts joined by a separator string. */
  function JoinWith(parts: seq<string>, sep: string): string {
    if |parts| == 0 then ""
    else if |parts| == 1 then parts[0]
    else parts[0] + sep + JoinWith(parts[1..], sep)
  }

  /** The condition on one field. */
  function FieldCondition(field: string, templateLike: string): string {
    "unaccent(" + field + ") " + templateLike
  }

  /** What the builder holds after appending every field's condition
      followed by " OR ". */
  function Appended(fields: seq<string>, templateLike: string): (r: string)
    ensures |fields| > 0 ==> |r| >= 4 && r[|r| - 4..] == " OR "
  {
    if |fields| == 0 then ""
    else
      var prev := Appended(fields[..|fields| - 1], templateLike);
      prev + FieldCondition(fields[|fields| - 1], templateLike) + " OR "
  }

  /** `searchWherePrepared`: the builder above, with its last three
      characters deleted; "" for a null or empty field list. */
  function SearchWherePrepared(fields: Option<seq<string>>, templateLike: string): (r: string)
  {
    if fields.None? || |fields.value| == 0 then ""
    else
      var b := Appended(fields.value, templateLike);
      b[..|b| - 3]
  }

  /** The conditions joined by " OR ", and one trailing space left from the
      separator: no trailing "OR". */
  lemma {:induction false} SearchWhereIsJoin(fields: seq<string>, templateLike: string)
    requires |fields| > 0
    ensures SearchWherePrepared(Some(fields), templateLike) ==
      JoinWith(seq(|fields|, i requires 0 <= i < |fields| => FieldCondition(fields[i], templateLike)), " OR ") + " "
  {
    AppendedIsJoin(fields, templateLike);
    var b := Appended(fields, templateLike);
    var j := JoinWith(Conditions(fields, templateLike), " OR ");
    assert b == j + " OR ";
    assert b[..|b| - 3] == j + " ";
  }

  /** The condition of every field, in order. */
  function Conditions(fields: seq<string>, templateLike: string): (r: seq<string>)
    ensures |r| == |fields|
    ensures forall i :: 0 <= i < |fields| ==> r[i] == FieldCondition(fields[i], templateLike)
  {
    seq(|fields|, i requires 0 <= i < |fields| => FieldCondition(fields[i], templateLike))
  }

  lemma JoinWithSnoc(parts: seq<string>, x: string, sep: string)
    requires |parts| > 0
    ensures JoinWith(parts + [x], sep) == JoinWith(parts, sep) + sep + x
    decreases |parts|
  {
    if |parts| > 1 {
      assert (parts + [x])[1..] == parts[1..] + [x];
      JoinWithSnoc(parts[1..], x, sep);
    }
  }

  lemma {:induction false} AppendedIsJoin(fields: seq<string>, templateLike: string)
    requires |fields| > 0
    ensures Appended(fields, templateLike) == JoinWith(Conditions(fields, templateLike), " OR ") + " OR "
    decreases |fields|
  {
    var n := |fields| - 1;
    var cs := Conditions(fields, templateLike);
    if n > 0 {
      AppendedIsJoin(fields[..n], templateLike);
      assert cs[..n] == Conditions(fields[..n], templateLike);
      assert cs == cs[..n] + [cs[n]];
      JoinWithSnoc(cs[..n], cs[n], " OR ");
    } else {
      assert Appended(fields[..0], templateLike) == "";
    }
  }

  /** The WHERE fragment for the two searched fields. */
  lemma SearchWhereForSearchFields(templateLike: string)
    ensures SearchWherePrepared(Some(SearchFields), templateLike) ==
      FieldCondition("t.subject", templateLike) + " OR " + FieldCondition("t.description", templateLike) + " "
  {
    SearchWhereIsJoin(SearchFields, templateLike);
    var cs := seq(|SearchFields|, i requires 0 <= i < |SearchFields| => FieldCondition(SearchFields[i], templateLike));
    assert cs == [FieldCondition("t.subject", templateLike), FieldCondition("t.description", templateLike)];
  }

  // ---------------------------------------------------------------------
  // searchValuesWildcard

  function Wildcard(w: string): string {
    "%" + w + "%"
  }

  /** `searchValuesWildcard`: every word wrapped in '%'. */
  function SearchValuesWildcard(words: seq<string>): (r: seq<string>)
    ensures |r| == |words|
    ensures forall i :: 0 <= i < |words| ==> r[i] == Wildcard(words[i])
  {
    if |words| == 0 then []
    else SearchValuesWildcard(words[..|words| - 1]) + [Wildcard(words[|words| - 1])]
  }

  /** Stripping the '%' on both ends gives the words back, in order. */
  lemma WildcardUnwraps(words: seq<string>)
    ensures forall i :: 0 <= i < |words| ==>
      var v := SearchValuesWildcard(words)[i];
      |v| >= 2 && v[0] == '%' && v[|v| - 1] == '%' && v[1..|v| - 1] == words[i]
  {
  }

  // ---------------------------------------------------------------------
  // searchResource: the prepared query's parameters

  /** A parameter of the prepared statement. */
  datatype Param = PText(text: string) | PInt(n: int)

  /** The prepared search; `NotSearched` is the empty answer given when the
      app filters do not name this class. */
  datatype SearchPlan = NotSearched | Search(where: string, values: seq<Param>)

  /** The words as text parameters. */
  function Texts(ws: seq<string>): (r: seq<Param>)
    ensures |r| == |ws|
    ensures forall i :: 0 <= i < |ws| ==> r[i] == PText(ws[i])
  {
    seq(|ws|, i requires 0 <= i < |ws| => PText(ws[i]))
  }

  /** The wildcard list repeated once per searched field. */
  function Repeat(ws: seq<string>, times: nat): (r: seq<Param>)
    ensures |r| == |ws| * times
  {
    if times == 0 then [] else Texts(ws) + Repeat(ws, times - 1)
  }

  /** `searchResource` up to the statement it sends: the user id, the
      wildcards per field, the limit and `page * limit` (a Java int
      product). `arrayPrepared` is the placeholder array `Sql.arrayPrepared`
      renders for the words. */
  function SearchResource(appFilters: seq<string>, userId: string, words: seq<string>,
                          page: int, limit: int, arrayPrepared: string): (r: SearchPlan)
  {
    if ClassName !in appFilters then NotSearched
    else
      var templateLike := "ILIKE ALL " + arrayPrepared;
      var where := " AND (" + SearchWherePrepared(Some(SearchFields), templateLike) + ")";
      var ws := SearchValuesWildcard(words);
      Search(where, [PText(userId)] + Repeat(ws, |SearchFields|) + [PInt(limit), PInt(Wrap32(page * limit))])
  }

  /** The parameters line up with the placeholders: the user id first, then
      each field's wildcards, then the limit and the offset. */
  lemma SearchParams(appFilters: seq<string>, userId: string, words: seq<string>, page: int, limit: int, arrayPrepared: string)
    ensures SearchResource(appFilters, userId, words, page, limit, arrayPrepared).NotSearched? <==> ClassName !in appFilters
    ensures ClassName in appFilters ==>
      var vs := SearchResource(appFilters, userId, words, page, limit, arrayPrepared).values;
      && |vs| == 3 + 2 * |words|
      && vs[0] == PText(userId)
      && (forall i :: 0 <= i < |words| ==> vs[1 + i] == PText(Wildcard(words[i])) && vs[1 + |words| + i] == PText(Wildcard(words[i])))
      && vs[|vs| - 2] == PInt(limit)
      && vs[|vs| - 1] == PInt(Wrap32(page * limit))
      && (IntMin <= page * limit <= IntMax ==> vs[|vs| - 1] == PInt(page * limit))
  {
    if ClassName in appFilters {
      var ws := SearchValuesWildcard(words);
      var rep := Repeat(ws, 2);
      assert Repeat(ws, 1) == Texts(ws) + [];
      assert Texts(ws) + [] == Texts(ws);
      assert rep == Texts(ws) + Texts(ws);
      var vs := [PText(userId)] + rep + [PInt(limit), PInt(Wrap32(page * limit))];
      forall i | 0 <= i < |words|
        ensures vs[1 + i] == PText(Wildcard(words[i])) && vs[1 + |words| + i] == PText(Wildcard(words[i]))
      {
        assert vs[1 + i] == rep[i];
        assert vs[1 + |words| + i] == rep[|ws| + i];
      }
    }
  }

  // ---------------------------------------------------------------------
  // formatStatus, formatCategory, formatSearchResult

  const StatusNew := "support.ticket.status.new"
  const StatusOpened := "support.ticket.status.opened"
  const StatusResolved := "support.ticket.status.resolved"
  const StatusClosed := "support.ticket.status.closed"

  /** The key `formatStatus` translates. */
  function StatusKey(status: int): string {
    match status
    case 1 => StatusNew
    case 2 => StatusOpened
    case 3 => StatusResolved
    case _ => StatusClosed
  }

  /** The key names the ticket status of the code; every code that is no
      status, and CLOSED, read as closed. */
  lemma StatusKeyFollowsStatus(status: int)
    ensures TicketStatuses.FromCode(status) == Some(TicketStatuses.New) <==> StatusKey(status) == StatusNew
    ensures TicketStatuses.FromCode(status) == Some(TicketStatuses.Opened) <==> StatusKey(status) == StatusOpened
    ensures TicketStatuses.FromCode(status) == Some(TicketStatuses.Resolved) <==> StatusKey(status) == StatusResolved
    ensures TicketStatuses.FromCode(status) in {None, Some(TicketStatuses.Closed)} <==> StatusKey(status) == StatusClosed
  {
    assert StatusNew[22] != StatusOpened[22] && StatusNew[22] != StatusResolved[22] && StatusNew[22] != StatusClosed[22];
    assert StatusOpened[22] != StatusResolved[22] && StatusOpened[22] != StatusClosed[22];
    assert StatusResolved[22] != StatusClosed[22];
  }

  const Other := "other"

  /** `formatCategory`: the category with every '/' removed is translated;
      a null or empty translation falls back to the translation of "other". */
  function FormatCategory(category: string, translate: string -> Option<string>): (r: Option<string>)
  {
    var res := translate(RemoveChar(category, '/'));
    if res.Some? && res.value != "" then res else translate(Other)
  }

  /** What a caller gets: the key looked up never contains '/', and a
      category without one is looked up as it is; the answer is the key's
      translation or that of "other", the key's whenever it is non-empty;
      a null or empty answer only comes from the translation of "other". */
  lemma FormatCategoryRule(category: string, translate: string -> Option<string>)
    ensures '/' !in RemoveChar(category, '/')
    ensures '/' !in category ==> RemoveChar(category, '/') == category
    ensures FormatCategory(category, translate) == translate(RemoveChar(category, '/'))
         || FormatCategory(category, translate) == translate(Other)
    ensures (translate(RemoveChar(category, '/')).Some? && translate(RemoveChar(category, '/')).value != "") ==>
      FormatCategory(category, translate) == translate(RemoveChar(category, '/'))
    ensures FormatCategory(category, translate).None? ==> translate(Other).None?
    ensures FormatCategory(category, translate) == translate(RemoveChar(category, '/')) <==>
      (translate(RemoveChar(category, '/')).Some? && translate(RemoveChar(category, '/')).value != "")
      || translate(RemoveChar(category, '/')) == translate(Other)
    ensures FormatCategory(category, translate).Some? && FormatCategory(category, translate).value == "" ==>
      translate(Other) == Some("")
  {
  }

  /** A row of the search query; absent columns are `None`. */
  datatype SearchRow = SearchRow(
    id: Option<int>, owner: Option<string>, subject: Option<string>, description: Option<string>,
    modified: int, category: Option<string>, status: Option<int>, ownerName: Option<string>)

  /** The arguments of the "support.search.title" translation. */
  datatype Title = Title(subject: string, category: Option<string>, status: Option<string>)

  /** One result in the order of the column headers: title, description,
      modification date, owner's name, owner, link. */
  datatype SearchEntry = SearchEntry(
    title: Title, description: string, modified: int, ownerName: Option<string>, owner: Option<string>, link: string)

  /** The link to a ticket in the application. */
  function TicketLink(id: Option<int>): string {
    "/support#/ticket/" + IntToString(id.GetOr(0))
  }

  function FormatRow(j: SearchRow, translate: string -> Option<string>): SearchEntry {
    SearchEntry(
      Title(j.subject.GetOr(""), FormatCategory(j.category.GetOr(""), translate), translate(StatusKey(j.status.GetOr(0)))),
      j.description.GetOr(""), j.modified, j.ownerName, j.owner, TicketLink(j.id))
  }

  /** `formatSearchResult`: one entry per non-null row, in order. Reading the
      six header names throws when there are fewer, and no answer is given. */
  function FormatSearchResult(rows: seq<Option<SearchRow>>, headerCount: nat, translate: string -> Option<string>): (r: Option<seq<SearchEntry>>)
  {
    if |rows| == 0 then Some([])
    else
      match FormatSearchResult(rows[..|rows| - 1], headerCount, translate)
      case None => None
      case Some(prev) =>
        match rows[|rows| - 1]
        case None => Some(prev)
        case Some(j) => if headerCount < 6 then None else Some(prev + [FormatRow(j, translate)])
  }

  /** The rows that are not null. */
  function Present(rows: seq<Option<SearchRow>>): (r: seq<SearchRow>)
  {
    if |rows| == 0 then []
    else Present(rows[..|rows| - 1]) + (if rows[|rows| - 1].Some? then [rows[|rows| - 1].value] else [])
  }

  /** With the six headers, the result is the formatted non-null rows in
      their order; without them, it is an answer only when every row is null. */
  lemma {:induction false} FormatSearchResultRule(rows: seq<Option<SearchRow>>, headerCount: nat, translate: string -> Option<string>)
    ensures headerCount >= 6 ==>
      && FormatSearchResult(rows, headerCount, translate).Some?
      && |FormatSearchResult(rows, headerCount, translate).value| == |Present(rows)|
      && forall i :: 0 <= i < |Present(rows)| ==>
           FormatSearchResult(rows, headerCount, translate).value[i] == FormatRow(Present(rows)[i], translate)
    ensures headerCount < 6 ==> (FormatSearchResult(rows, headerCount, translate).Some? <==> |Present(rows)| == 0)
    decreases |rows|
  {
    if |rows| > 0 {
      FormatSearchResultRule(rows[..|rows| - 1], headerCount, translate);
    }
  }
}
