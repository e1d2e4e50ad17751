/** The stateless tracker client (src/lib/jira.ts). Every call to `fetch`
    is replaced by its outcome, passed in as a `Reply`; `btoa` is passed in
    as a function. What remains is how requests are built and how replies
    are read. */
module Jira {
  import opened Wrappers
  import opened Strings
  import opened Types

  // ----- Transport -----

  /** What one `fetch` produced: a response (status line, body text and the
      decoded JSON body), or a rejected promise (network failure). */
  datatype Reply<T> =
    | Response(status: int, statusText: string, bodyText: string, json: T)
    | Rejected

  /** `response.ok`: a response whose status lies in 200-299. */
  predicate IsOk<T>(reply: Reply<T>) {
    reply.Response? && 200 <= reply.status <= 299
  }

  /** What a failed search or worklog call throws. */
  datatype ApiError = HttpError(message: string) | NetworkError

  /** The message thrown for a non-OK response. */
  function HttpErrorMessage(prefix: string, status: int, statusText: string, bodyText: string): string {
    prefix + IntToString(status) + " " + statusText + " - " + bodyText
  }

  /** How a call that throws on any failure turns its reply into an outcome. */
  function Checked<T>(reply: Reply<T>, prefix: string): (r: Result<T, ApiError>)
    ensures r.Success? <==> IsOk(reply)
    ensures r.Success? ==> r.value == reply.json
    ensures reply.Rejected? ==> r == Failure(NetworkError)
    ensures reply.Response? && !IsOk(reply) ==>
              r.Failure? && r.error.HttpError? && StartsWith(r.error.message, prefix)
  {
    match reply
    case Rejected => Failure(NetworkError)
    case Response(status, statusText, bodyText, json) =>
      if IsOk(reply) then Success(json)
      else Failure(HttpError(HttpErrorMessage(prefix, status, statusText, bodyText)))
  }

  // ----- Authentication -----

  datatype Headers = Headers(contentType: string, accept: string, authorization: string)

  /** `createHeaders`: JSON content negotiation plus an Authorization value,
      Basic over base64 of `email:pat` when an email is configured and
      Bearer with the PAT otherwise. `base64` stands for `btoa`. */
  function CreateHeaders(settings: AppSettings, base64: string -> string): (h: Headers)
    ensures h.contentType == "application/json" && h.accept == "application/json"
  {
    var auth := if settings.jiraEmail != ""
      then "Basic " + base64(settings.jiraEmail + ":" + settings.jiraPat)
      else "Bearer " + settings.jiraPat;
    Headers("application/json", "application/json", auth)
  }

  datatype Credentials = BasicCredentials(encoded: string) | BearerToken(token: string)

  /** Reads an Authorization value as a server would: scheme, one space,
      credential. */
  function ParseAuthorization(value: string): Option<Credentials> {
    if StartsWith(value, "Basic ") then Some(BasicCredentials(value[6..]))
    else if StartsWith(value, "Bearer ") then Some(BearerToken(value[7..]))
    else None
  }

  /** The scheme follows the email alone: Basic with the encoded `email:pat`
      when an email is set, Bearer with the bare PAT when it is empty. */
  lemma AuthorizationScheme(settings: AppSettings, base64: string -> string)
    ensures var auth := ParseAuthorization(CreateHeaders(settings, base64).authorization);
            && (settings.jiraEmail != "" ==>
                  auth == Some(BasicCredentials(base64(settings.jiraEmail + ":" + settings.jiraPat))))
            && (settings.jiraEmail == "" ==> auth == Some(BearerToken(settings.jiraPat)))
  {
    var h := CreateHeaders(settings, base64);
    if settings.jiraEmail != "" {
      assert h.authorization[..6] == "Basic ";
    } else {
      assert h.authorization[..7] == "Bearer ";
      assert !StartsWith(h.authorization, "Basic ") by {
        assert h.authorization[1] == 'e';
      }
    }
  }

  // ----- Query language -----

  const InProgressBase := "assignee = currentUser()"
  const OrderByUpdated := " ORDER BY updated DESC"
  const DefaultStatusClause :=
    " AND status not in ('Done', 'Canceled', 'Cancelled', 'Closed', 'To Do', 'New', 'Open')"
  /** `fetchDoneTickets`: a fixed seven-day look-back. */
  const DoneWindow := "status = 'Done' AND assignee = currentUser() AND updated >= -7d"
  const DoneJql := DoneWindow + OrderByUpdated

  /** A filter applies when it is present and not blank after trimming. */
  predicate IsCustomFilter(filter: Option<string>) {
    Truthy(filter) && |Trim(filter.value)| > 0
  }

  function Quote(s: string): string {
    "\"" + s + "\""
  }

  /** The comma-separated pieces of a filter, each trimmed; empty pieces
      are kept. */
  function TrimmedPieces(filter: string): seq<string> {
    var pieces := Split(filter, ',');
    seq(|pieces|, i requires 0 <= i < |pieces| => Trim(pieces[i]))
  }

  function QuoteAll(names: seq<string>): seq<string> {
    seq(|names|, i requires 0 <= i < |names| => Quote(names[i]))
  }

  /** Each trimmed piece in double quotes, joined by ", ". */
  function QuotedList(filter: string): string {
    Join(QuoteAll(TrimmedPieces(filter)), ", ")
  }

  function StatusClause(filter: Option<string>): string {
    if IsCustomFilter(filter) then " AND status in (" + QuotedList(filter.value) + ")"
    else DefaultStatusClause
  }

  function IssueTypeClause(filter: Option<string>): string {
    if IsCustomFilter(filter) then " AND issuetype in (" + QuotedList(filter.value) + ")"
    else ""
  }

  /** `fetchInProgressTickets`: the query is always scoped to the current
      user and always ordered by last update. */
  function InProgressJql(settings: AppSettings): (jql: string)
    ensures StartsWith(jql, InProgressBase)
    ensures EndsWith(jql, OrderByUpdated)
  {
    var withStatus := InProgressBase + StatusClause(settings.filterStatuses);
    var front := withStatus + IssueTypeClause(settings.filterIssueTypes);
    Affixes(InProgressBase, StatusClause(settings.filterStatuses));
    PrefixGrows(withStatus, InProgressBase, IssueTypeClause(settings.filterIssueTypes));
    PrefixGrows(front, InProgressBase, OrderByUpdated);
    Affixes(front, OrderByUpdated);
    front + OrderByUpdated
  }

  /** Reads a quoted list back: split at commas, drop the one space after
      each comma, strip the quotes. */
  function ReadQuotedList(list: string): seq<string> {
    var parts := Split(list, ',');
    seq(|parts|, i requires 0 <= i < |parts| => Unquote(if i == 0 then parts[i] else DropSpace(parts[i])))
  }

  function DropSpace(s: string): string {
    if |s| > 0 && s[0] == ' ' then s[1..] else s
  }

  function Unquote(s: string): string {
    if |s| >= 2 && s[0] == '"' && s[|s| - 1] == '"' then s[1..|s| - 1] else s
  }

  lemma TrimKeepsOut(s: string, c: char)
    requires c !in s
    ensures c !in Trim(s)
  {
    var r := Trim(s);
    var l := LeadingSpace(s);
    assert forall k :: 0 <= k < |r| ==> r[k] == s[l + k];
  }

  /** Splitting a ", "-joined list at commas: the first piece keeps the
      prefix, every later piece carries the space after its comma. */
  lemma {:induction false} SplitCommaJoin(p: string, xs: seq<string>)
    requires |xs| >= 1 && ',' !in p
    requires forall i :: 0 <= i < |xs| ==> ',' !in xs[i]
    ensures var parts := Split(p + Join(xs, ", "), ',');
            && |parts| == |xs|
            && parts[0] == p + xs[0]
            && forall i :: 1 <= i < |xs| ==> parts[i] == " " + xs[i]
    decreases |xs|
  {
    if |xs| == 1 {
      assert ',' !in p + xs[0];
    } else {
      var rest := Join(xs[1..], ", ");
      SplitCommaJoin(" ", xs[1..]);
      var tail := Split(" " + rest, ',');
      CommaStep(p, xs[0], rest);
      assert ',' !in p + xs[0];
      SplitAtFirst(p + xs[0], ',', " " + rest);
      var parts := Split(p + Join(xs, ", "), ',');
      assert parts == [p + xs[0]] + tail;
      forall i | 1 <= i < |xs| ensures parts[i] == " " + xs[i] {
        assert parts[i] == tail[i - 1];
        assert xs[1..][i - 1] == xs[i];
      }
    }
  }

  lemma CommaStep(p: string, x: string, rest: string)
    ensures p + (x + ", " + rest) == (p + x) + [','] + (" " + rest)
  {
  }

  lemma QuoteKeepsOut(name: string)
    requires ',' !in name
    ensures ',' !in Quote(name)
    ensures Unquote(Quote(name)) == name
  {
    var q := Quote(name);
    assert forall k :: 1 <= k < |q| - 1 ==> q[k] == name[k - 1];
  }

  /** Quoting comma-free names and joining them reads back as the names. */
  lemma ReadQuotedNames(names: seq<string>)
    requires |names| >= 1
    requires forall i :: 0 <= i < |names| ==> ',' !in names[i]
    ensures ReadQuotedList(Join(QuoteAll(names), ", ")) == names
  {
    var quoted := QuoteAll(names);
    forall i | 0 <= i < |quoted| ensures ',' !in quoted[i] && Unquote(quoted[i]) == names[i] {
      QuoteKeepsOut(names[i]);
    }
    var list := Join(quoted, ", ");
    SplitCommaJoin("", quoted);
    assert "" + list == list;
    ReadQuotedPieces(list, quoted, names);
  }

  /** Reading a list whose comma-separated pieces are the quoted names, each
      after the first preceded by one space. */
  lemma ReadQuotedPieces(list: string, quoted: seq<string>, names: seq<string>)
    requires |quoted| == |names|
    requires forall i :: 0 <= i < |names| ==> Unquote(quoted[i]) == names[i]
    requires var parts := Split(list, ',');
             && |parts| == |quoted|
             && parts[0] == quoted[0]
             && forall i :: 1 <= i < |quoted| ==> parts[i] == " " + quoted[i]
    ensures ReadQuotedList(list) == names
  {
    var read := ReadQuotedList(list);
    forall i | 0 <= i < |names| ensures read[i] == names[i] {
      if i > 0 {
        DropSpaceAfterComma(quoted[i]);
      }
    }
  }

  lemma DropSpaceAfterComma(q: string)
    ensures DropSpace(" " + q) == q
  {
    assert (" " + q)[1..] == q;
  }

  /** The quoted list holds exactly the trimmed comma-separated pieces of
      the filter, in order, empty pieces included. */
  lemma QuotedListReadsBack(filter: string)
    ensures ReadQuotedList(QuotedList(filter)) == TrimmedPieces(filter)
  {
    var pieces := Split(filter, ',');
    var names := TrimmedPieces(filter);
    forall i | 0 <= i < |names| ensures ',' !in names[i] {
      TrimKeepsOut(pieces[i], ',');
    }
    ReadQuotedNames(names);
  }

  /** The status clause is the user's quoted list exactly when the status
      filter is set, and the fixed exclusion list otherwise; the issue-type
      clause appears only when its filter is set. */
  lemma InProgressClauses(settings: AppSettings)
    ensures var jql := InProgressJql(settings);
            var sc := StatusClause(settings.filterStatuses);
            var tc := IssueTypeClause(settings.filterIssueTypes);
            && jql == InProgressBase + sc + tc + OrderByUpdated
            && (IsCustomFilter(settings.filterStatuses) ==>
                  && StartsWith(sc, " AND status in (") && EndsWith(sc, ")")
                  && ReadQuotedList(sc[16..|sc| - 1]) == TrimmedPieces(settings.filterStatuses.value))
            && (!IsCustomFilter(settings.filterStatuses) ==> sc == DefaultStatusClause)
            && (IsCustomFilter(settings.filterIssueTypes) ==>
                  && StartsWith(tc, " AND issuetype in (") && EndsWith(tc, ")")
                  && ReadQuotedList(tc[19..|tc| - 1]) == TrimmedPieces(settings.filterIssueTypes.value))
            && (!IsCustomFilter(settings.filterIssueTypes) <==> tc == "")
  {
    StatusClauseReadsBack(settings.filterStatuses);
    IssueTypeClauseReadsBack(settings.filterIssueTypes);
  }

  /** A custom status filter becomes `status in (...)` around its quoted
      list; otherwise the fixed exclusion list applies. */
  lemma StatusClauseReadsBack(filter: Option<string>)
    ensures var sc := StatusClause(filter);
            && (IsCustomFilter(filter) ==>
                  && StartsWith(sc, " AND status in (") && EndsWith(sc, ")")
                  && ReadQuotedList(sc[16..|sc| - 1]) == TrimmedPieces(filter.value))
            && (!IsCustomFilter(filter) ==> sc == DefaultStatusClause)
  {
    if IsCustomFilter(filter) {
      InClause(" AND status in (", filter.value);
    }
  }

  /** A custom issue-type filter becomes `issuetype in (...)` around its
      quoted list; otherwise there is no issue-type clause at all. */
  lemma IssueTypeClauseReadsBack(filter: Option<string>)
    ensures var tc := IssueTypeClause(filter);
            && (IsCustomFilter(filter) ==>
                  && StartsWith(tc, " AND issuetype in (") && EndsWith(tc, ")")
                  && ReadQuotedList(tc[19..|tc| - 1]) == TrimmedPieces(filter.value))
            && (!IsCustomFilter(filter) <==> tc == "")
  {
    if IsCustomFilter(filter) {
      InClause(" AND issuetype in (", filter.value);
    }
  }

  lemma InClause(opening: string, filter: string)
    ensures var clause := opening + QuotedList(filter) + ")";
            && StartsWith(clause, opening) && EndsWith(clause, ")")
            && clause[|opening|..|clause| - 1] == QuotedList(filter)
            && ReadQuotedList(clause[|opening|..|clause| - 1]) == TrimmedPieces(filter)
  {
    var l := QuotedList(filter);
    var clause := opening + l + ")";
    Affixes(opening, l);
    PrefixGrows(opening + l, opening, ")");
    Affixes(opening + l, ")");
    assert clause[|opening|..|clause| - 1] == l;
    QuotedListReadsBack(filter);
  }

  /** `fetchTicketsByKeys`: no search at all for an empty key list,
      otherwise `key in (` + the keys joined by "," + `)`, unquoted. */
  function KeysJql(keys: seq<string>): (jql: Option<string>)
    ensures jql.None? <==> |keys| == 0
    ensures jql.Some? ==> StartsWith(jql.value, "key in (") && EndsWith(jql.value, ")")
  {
    if |keys| == 0 then None
    else
      var q := "key in (" + Join(keys, ",") + ")";
      assert q[..8] == "key in (";
      Some(q)
  }

  /** The keys can be read back from the query when none contains a comma. */
  lemma KeysJqlReadsBack(keys: seq<string>)
    requires |keys| >= 1
    requires forall i :: 0 <= i < |keys| ==> ',' !in keys[i]
    ensures var q := KeysJql(keys).value; Split(q[8..|q| - 1], ',') == keys
  {
    var q := KeysJql(keys).value;
    assert q[8..|q| - 1] == Join(keys, [',']);
    SplitJoin(keys, ',');
  }

  // ----- Search -----

  /** The body of `POST /rest/api/3/search/jql`. */
  datatype SearchRequest = SearchRequest(
    url: string, headers: Headers, jql: string, fields: seq<string>, maxResults: nat)

  function SearchRequestFor(settings: AppSettings, base64: string -> string, jql: string): SearchRequest {
    SearchRequest(settings.jiraHost + "/rest/api/3/search/jql", CreateHeaders(settings, base64), jql,
                  ["summary", "timespent", "issuetype", "status"], 50)
  }

  /** One issue of the search response, every optional field optional. */
  datatype RawCategory = RawCategory(key: Option<string>)
  datatype RawStatus = RawStatus(name: Option<string>, statusCategory: Option<RawCategory>)
  datatype RawIssueType = RawIssueType(name: Option<string>, iconUrl: Option<string>)
  datatype RawFields = RawFields(
    summary: string, timespent: Option<int>, issuetype: Option<RawIssueType>, status: Option<RawStatus>)
  datatype RawIssue = RawIssue(id: string, key: string, fields: RawFields)

  const Slate := "bg-slate-400"
  const Amber := "bg-amber-500"
  const Green := "bg-green-500"

  /** `getStatusColor`: total over all keys; only `indeterminate` and `done`
      leave the default slate. */
  function GetStatusColor(categoryKey: string): (color: string)
    ensures color == Amber <==> categoryKey == "indeterminate"
    ensures color == Green <==> categoryKey == "done"
    ensures color == Slate <==> categoryKey != "indeterminate" && categoryKey != "done"
  {
    match categoryKey
    case "new" => Slate
    case "indeterminate" => Amber
    case "done" => Green
    case _ => Slate
  }

  /** One issue in the shape the UI uses, with the defaults for absent
      fields: no time spent reads as 0, a missing type or status name as
      "Unknown", a missing icon as "". The category key is never filled. */
  function ToTicket(issue: RawIssue): (t: Ticket)
    ensures t.id == issue.id && t.key == issue.key && t.summary == issue.fields.summary
    ensures t.timeSpentSeconds == issue.fields.timespent.GetOr(0)
    ensures issue.fields.issuetype.None? ==> t.issueType == IssueType("Unknown", "")
    ensures issue.fields.issuetype.Some? ==>
              t.issueType == IssueType(OrElse(issue.fields.issuetype.value.name, "Unknown"),
                                       OrElse(issue.fields.issuetype.value.iconUrl, ""))
    ensures issue.fields.status.None? ==> t.status.name == "Unknown" && t.status.categoryColor == Slate
    ensures issue.fields.status.Some? ==> t.status.name == OrElse(issue.fields.status.value.name, "Unknown")
    ensures issue.fields.status.Some? ==>
              var category := issue.fields.status.value.statusCategory;
              t.status.categoryColor == GetStatusColor(if category.Some? then OrElse(category.value.key, "") else "")
    ensures t.status.categoryKey.None?
  {
    var f := issue.fields;
    var typeName := if f.issuetype.Some? then f.issuetype.value.name else None;
    var icon := if f.issuetype.Some? then f.issuetype.value.iconUrl else None;
    var statusName := if f.status.Some? then f.status.value.name else None;
    var category := if f.status.Some? && f.status.value.statusCategory.Some?
                    then f.status.value.statusCategory.value.key else None;
    Ticket(issue.id, issue.key, f.summary, if f.timespent.Some? then f.timespent.value else 0,
           IssueType(OrElse(typeName, "Unknown"), OrElse(icon, "")),
           TicketStatus(OrElse(statusName, "Unknown"), GetStatusColor(OrElse(category, "")), None))
  }

  /** `data.issues.map(...)`: one ticket per issue, in order. */
  function ToTickets(issues: seq<RawIssue>): (ts: seq<Ticket>)
    ensures |ts| == |issues|
    ensures forall i :: 0 <= i < |issues| ==> ts[i] == ToTicket(issues[i])
  {
    seq(|issues|, i requires 0 <= i < |issues| => ToTicket(issues[i]))
  }

  /** `searchTickets`: a non-OK reply throws "Jira API Error: ..."; an OK
      one yields one ticket per issue, order preserved. */
  function SearchTickets(reply: Reply<seq<RawIssue>>): (r: Result<seq<Ticket>, ApiError>)
    ensures r.Success? <==> IsOk(reply)
    ensures r.Success? ==> (|r.value| == |reply.json|
                            && forall i :: 0 <= i < |reply.json| ==> r.value[i] == ToTicket(reply.json[i]))
    ensures reply.Response? && !IsOk(reply) ==>
              r.Failure? && r.error.HttpError? && StartsWith(r.error.message, "Jira API Error: ")
  {
    match Checked(reply, "Jira API Error: ")
    case Success(issues) => Success(ToTickets(issues))
    case Failure(e) => Failure(e)
  }

  /** What one ticket fetch does: answer without calling the network, or
      issue one search. */
  datatype TicketFetch = Answer(tickets: seq<Ticket>) | Search(request: SearchRequest)

  /** `fetchTicketsByKeys` up to the network call. */
  function FetchTicketsByKeys(settings: AppSettings, base64: string -> string, keys: seq<string>): (f: TicketFetch)
    ensures |keys| == 0 <==> f == Answer([])
    ensures f.Search? ==> f.request.jql == KeysJql(keys).value && f.request.maxResults == 50
  {
    match KeysJql(keys)
    case None => Answer([])
    case Some(jql) => Search(SearchRequestFor(settings, base64, jql))
  }

  /** `fetchDoneTickets`: one search with the fixed seven-day query, which
      is ordered like the in-progress query. */
  function FetchDoneTickets(settings: AppSettings, base64: string -> string): (request: SearchRequest)
    ensures request.jql == DoneJql && EndsWith(request.jql, OrderByUpdated)
    ensures request.maxResults == 50
    ensures request.headers == CreateHeaders(settings, base64)
  {
    Affixes(DoneWindow, OrderByUpdated);
    SearchRequestFor(settings, base64, DoneJql)
  }

  /** The done list ignores the user's status and issue-type filters (and
      everything else but the connection fields). */
  lemma DoneIgnoresFilters(s1: AppSettings, s2: AppSettings, base64: string -> string)
    requires s1.jiraHost == s2.jiraHost && s1.jiraEmail == s2.jiraEmail && s1.jiraPat == s2.jiraPat
    ensures FetchDoneTickets(s1, base64) == FetchDoneTickets(s2, base64)
  {
  }

  // ----- Worklogs -----

  /** A duration as `addWorklog` accepts it: a number of seconds, or text in
      the tracker's own duration grammar. */
  datatype TimeSpent = Seconds(seconds: int) | Text(text: string)

  /** The tracker's rich-text envelope: a document of paragraphs of text
      nodes; `kind` holds the JSON `type` field. */
  datatype TextNode = TextNode(kind: string, text: string)
  datatype Paragraph = Paragraph(kind: string, content: seq<TextNode>)
  datatype Document = Document(kind: string, version: int, content: seq<Paragraph>)

  datatype WorklogBody = WorklogBody(
    comment: Option<Document>, timeSpentSeconds: Option<int>, timeSpent: Option<string>)

  function CommentDocument(text: string): Document {
    Document("doc", 1, [Paragraph("paragraph", [TextNode("text", text)])])
  }

  /** The body of `addWorklog`: exactly one duration field, chosen by the
      duration's type, and a comment only for a non-empty comment. */
  function WorklogBodyFor(timeSpent: TimeSpent, comment: Option<string>): (body: WorklogBody)
    ensures body.timeSpentSeconds.Some? <==> timeSpent.Seconds?
    ensures body.timeSpent.Some? <==> timeSpent.Text?
    ensures body.comment.Some? <==> comment.Some? && comment.value != ""
  {
    var doc := if comment.Some? && comment.value != "" then Some(CommentDocument(comment.value)) else None;
    match timeSpent
    case Seconds(n) => WorklogBody(doc, Some(n), None)
    case Text(t) => WorklogBody(doc, None, Some(t))
  }

  /** Reads a body's duration back; a body with both or neither field is
      malformed. */
  function BodyDuration(body: WorklogBody): Option<TimeSpent> {
    match (body.timeSpentSeconds, body.timeSpent)
    case (Some(n), None) => Some(Seconds(n))
    case (None, Some(t)) => Some(Text(t))
    case _ => None
  }

  /** Reads the text out of a one-paragraph, one-text-node document. */
  function CommentText(doc: Document): Option<string> {
    if doc.kind == "doc" && doc.version == 1 && |doc.content| == 1
       && doc.content[0].kind == "paragraph" && |doc.content[0].content| == 1
       && doc.content[0].content[0].kind == "text"
    then Some(doc.content[0].content[0].text)
    else None
  }

  /** The body carries the given duration unchanged and the given comment
      text unchanged; an empty comment is dropped. */
  lemma WorklogBodyReadsBack(timeSpent: TimeSpent, comment: Option<string>)
    ensures var body := WorklogBodyFor(timeSpent, comment);
            && BodyDuration(body) == Some(timeSpent)
            && (body.comment.Some? ==> Some(CommentText(body.comment.value).value) == comment)
            && (body.comment.None? <==> comment == None || comment == Some(""))
  {
  }

  /** `addWorklog` resolves exactly on an OK reply and otherwise throws,
      with "Failed to log time: ..." for a non-OK status. */
  function AddWorklogOutcome(reply: Reply<()>): (r: Result<(), ApiError>)
    ensures r.Success? <==> IsOk(reply)
    ensures reply.Response? && !IsOk(reply) ==>
              r.Failure? && r.error.HttpError? && StartsWith(r.error.message, "Failed to log time: ")
  {
    Checked(reply, "Failed to log time: ")
  }

  // ----- Permission -----

  datatype JsonValue = JsonBool(b: bool) | JsonNumber(n: int) | JsonString(s: string) | JsonNull
  datatype PermissionEntry = PermissionEntry(havePermission: Option<JsonValue>)
  datatype PermissionsBody = PermissionsBody(permissions: Option<map<string, PermissionEntry>>)

  /** The `WORK_ON_ISSUES` entry's flag, if the body has one. */
  function WorkOnIssuesFlag(body: PermissionsBody): Option<JsonValue> {
    if body.permissions.Some? && "WORK_ON_ISSUES" in body.permissions.value
    then body.permissions.value["WORK_ON_ISSUES"].havePermission
    else None
  }

  /** `checkWorklogPermission`: true only for an OK reply whose
      `WORK_ON_ISSUES.havePermission` is the boolean `true` (strict
      equality: "true" or 1 do not count). A non-OK status and a rejected
      call both read as false, indistinguishable from a denial. */
  function CheckWorklogPermission(reply: Reply<PermissionsBody>): (allowed: bool)
    ensures allowed ==> IsOk(reply)
    ensures reply.Rejected? ==> !allowed
    ensures IsOk(reply) ==> (allowed <==> WorkOnIssuesFlag(reply.json) == Some(JsonBool(true)))
  {
    match reply
    case Rejected => false
    case Response(_, _, _, body) => IsOk(reply) && WorkOnIssuesFlag(body) == Some(JsonBool(true))
  }

  // ----- Today's logged time -----

  datatype Worklog = Worklog(authorAccountId: string, started: string, timeSpentSeconds: int)

  /** A worklog page; `worklogs` may be missing from the JSON. */
  datatype WorklogPage = WorklogPage(worklogs: Option<seq<Worklog>>)

  /** `started.split('T')[0]`: the date part of a timestamp. */
  function StartedDate(started: string): string {
    Split(started, 'T')[0]
  }

  predicate IsMineToday(w: Worklog, accountId: string, today: string) {
    w.authorAccountId == accountId && StartedDate(w.started) == today
  }

  /** Reference sum: the seconds of the entries by `accountId` dated
      `today`. */
  function SumToday(ws: seq<Worklog>, accountId: string, today: string): int {
    if |ws| == 0 then 0
    else SumToday(ws[..|ws| - 1], accountId, today)
         + (if IsMineToday(ws[|ws| - 1], accountId, today) then ws[|ws| - 1].timeSpentSeconds else 0)
  }

  function Flatten(groups: seq<seq<Worklog>>): seq<Worklog> {
    if |groups| == 0 then [] else Flatten(groups[..|groups| - 1]) + groups[|groups| - 1]
  }

  lemma {:induction false} SumTodayAppend(xs: seq<Worklog>, ys: seq<Worklog>, accountId: string, today: string)
    ensures SumToday(xs + ys, accountId, today) == SumToday(xs, accountId, today) + SumToday(ys, accountId, today)
    decreases |ys|
  {
    if |ys| == 0 {
      assert xs + ys == xs;
    } else {
      var init := ys[..|ys| - 1];
      SumTodayAppend(xs, init, accountId, today);
      assert (xs + ys)[..|xs + ys| - 1] == xs + init;
      assert (xs + ys)[|xs + ys| - 1] == ys[|ys| - 1];
    }
  }

  /** Only entries that are both mine and dated today contribute: a list
      with none of them sums to zero, whatever their durations. */
  lemma {:induction false} SumTodayIgnoresOthers(ws: seq<Worklog>, accountId: string, today: string)
    requires forall i :: 0 <= i < |ws| ==> !IsMineToday(ws[i], accountId, today)
    ensures SumToday(ws, accountId, today) == 0
    decreases |ws|
  {
    if |ws| > 0 {
      SumTodayIgnoresOthers(ws[..|ws| - 1], accountId, today);
    }
  }

  /** The nested loop of `fetchTodaysTime` over the fetched worklog lists. */
  method SumTodaysWorklogs(groups: seq<seq<Worklog>>, accountId: string, today: string) returns (total: int)
    ensures total == SumToday(Flatten(groups), accountId, today)
  {
    total := 0;
    var i := 0;
    while i < |groups|
      invariant 0 <= i <= |groups|
      invariant total == SumToday(Flatten(groups[..i]), accountId, today)
    {
      var ws := groups[i];
      var j := 0;
      while j < |ws|
        invariant 0 <= j <= |ws|
        invariant total == SumToday(Flatten(groups[..i]), accountId, today) + SumToday(ws[..j], accountId, today)
      {
        if IsMineToday(ws[j], accountId, today) {
          total := total + ws[j].timeSpentSeconds;
        }
        assert ws[..j + 1][..j] == ws[..j];
        j := j + 1;
      }
      assert ws[..j] == ws;
      assert groups[..i + 1][..i] == groups[..i];
      SumTodayAppend(Flatten(groups[..i]), ws, accountId, today);
      i := i + 1;
    }
    assert groups[..i] == groups;
  }

  /** The worklogs one per-issue reply contributes: none for a non-OK reply
      or a body without `worklogs`. */
  function PageWorklogs(reply: Reply<WorklogPage>): seq<Worklog> {
    if IsOk(reply) then reply.json.worklogs.GetOr([]) else []
  }

  /** `fetchTodaysTime` with every network reply as a parameter and today's
      local date as text. Any failure before the per-issue fetches yields 0,
      as does a rejected per-issue fetch (it rejects the whole batch); a
      non-OK per-issue reply only contributes nothing. */
  method FetchTodaysTime(myself: Reply<string>, search: Reply<seq<string>>,
                         worklogsOf: string -> Reply<WorklogPage>, today: string)
    returns (total: int)
    ensures !IsOk(myself) || !IsOk(search) ==> total == 0
    ensures IsOk(myself) && IsOk(search) ==>
              var keys := search.json;
              var replies := seq(|keys|, i requires 0 <= i < |keys| => worklogsOf(keys[i]));
              && ((exists i :: 0 <= i < |keys| && replies[i].Rejected?) ==> total == 0)
              && ((forall i :: 0 <= i < |keys| ==> !replies[i].Rejected?) ==>
                    total == SumToday(Flatten(seq(|keys|, i requires 0 <= i < |keys| => PageWorklogs(replies[i]))),
                                      myself.json, today))
  {
    if !IsOk(myself) || !IsOk(search) {
      return 0;
    }
    var keys := search.json;
    var replies := seq(|keys|, i requires 0 <= i < |keys| => worklogsOf(keys[i]));
    if exists i :: 0 <= i < |keys| && replies[i].Rejected? {
      return 0;
    }
    var groups := seq(|keys|, i requires 0 <= i < |keys| => PageWorklogs(replies[i]));
    total := SumTodaysWorklogs(groups, myself.json, today);
  }
}
