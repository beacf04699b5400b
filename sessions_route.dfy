/** `GET /api/sessions` and `POST /api/sessions`: listing upcoming sessions with their response
    counts, and creating a session. The database query is a parameter: the rows it returns are an
    input, and an insert appends to the sessions table. */
module SessionsRoute {
  import opened Wrappers
  import opened Text
  import opened Schema
  import opened Courts
  import ResponsesRoute

  /** The caller as the auth service and the profiles table report them. */
  datatype Caller = Caller(user: Option<Id>, approved: Option<bool>)

  /** The query-string parameters; `None` when absent. */
  datatype ListParams = ListParams(filter: Option<string>, limit: Option<string>, sort: Option<string>)

  /** `x || fallback` on a query-string parameter. */
  function OrDefault(v: Option<string>, fallback: string): string {
    if v.Some? && v.value != "" then v.value else fallback
  }

  /** The query the handler builds: sessions starting at `startFrom` or later, with the embedded
      responses restricted to those of `responsesOf`; `limit` is `None` when `parseInt` gives NaN;
      `createdBy` and `respondedOnly` are the extra conditions of the 'created' and 'responded'
      filters. */
  datatype SessionQuery = SessionQuery(
    startFrom: int, responsesOf: Id, filter: string, limit: Option<int>, sort: string, ascending: bool,
    createdBy: Option<Id>, respondedOnly: bool)

  function BuildQuery(user: Id, p: ListParams, now: int): (q: SessionQuery)
    ensures q.startFrom == now && q.responsesOf == user
    ensures q.ascending <==> q.sort == "start_time"
    ensures q.respondedOnly <==> q.filter == "responded"
    ensures q.createdBy.Some? <==> q.filter == "created"
    ensures q.createdBy.Some? ==> q.createdBy.value == user
  {
    var filter := OrDefault(p.filter, "all");
    var sort := OrDefault(p.sort, "start_time");
    SessionQuery(now, user, filter, ParseInt(OrDefault(p.limit, "20")), sort, sort == "start_time",
                 if filter == "created" then Some(user) else None, filter == "responded")
  }

  /** Without parameters, or with empty ones, the list shows all sessions, 20 at most, by start time
      ascending. */
  lemma QueryDefaults(user: Id, p: ListParams, now: int)
    requires p.filter.GetOr("") == "" && p.limit.GetOr("") == "" && p.sort.GetOr("") == ""
    ensures BuildQuery(user, p, now) == SessionQuery(now, user, "all", Some(20), "start_time", true, None, false)
  {
    assert NatToString(20) == "20";
    ParseIntNatToString(20);
  }

  /** A session as the query embeds it: its row, the creator's name, its responses' statuses and the
      caller's own responses (`None` where the embedding is null). */
  datatype EmbeddedSession = EmbeddedSession(
    row: SessionRow, creatorName: Option<string>,
    responses: Option<seq<ResponseStatus>>, userResponses: Option<seq<ResponseStatus>>)

  /** One processed entry of the listing. */
  datatype SessionSummary = SessionSummary(
    id: Id, title: Option<string>, description: Option<string>, location: string,
    startTime: int, endTime: int, createdBy: Id, creatorName: Option<string>,
    counts: Counts, recommendedCourts: int, userResponse: Option<ResponseStatus>, createdAt: int)

  function Summarize(e: EmbeddedSession): (s: SessionSummary)
    ensures var statuses := e.responses.GetOr([]);
      && s.counts.coming == CountStatus(statuses, Coming)
      && s.counts.tentative == CountStatus(statuses, Tentative)
      && s.counts.notComing == CountStatus(statuses, NotComing)
      && s.counts.coming + s.counts.tentative + s.counts.notComing == |statuses|
      && 4 * (s.recommendedCourts - 1) < s.counts.coming <= 4 * s.recommendedCourts
      && (s.userResponse.Some? <==> e.userResponses.Some? && e.userResponses.value != [])
      && (s.userResponse.Some? ==> s.userResponse.value == e.userResponses.value[0])
    ensures s.id == e.row.id && s.createdBy == e.row.createdBy && s.startTime == e.row.startTime
  {
    var counts := CountsOf(e.responses.GetOr([]));
    var userResponse := if e.userResponses.Some? && e.userResponses.value != [] then Some(e.userResponses.value[0]) else None;
    SessionSummary(e.row.id, e.row.title, e.row.description, e.row.location, e.row.startTime, e.row.endTime,
                   e.row.createdBy, e.creatorName, counts, CeilQuarter(counts.coming), userResponse, e.row.createdAt)
  }

  /** The server's recommendation agrees with the client's `calculateCourts` for every count. */
  lemma RecommendedCourtsAgree(e: EmbeddedSession)
    ensures Summarize(e).recommendedCourts == CalculateCourts(Summarize(e).counts.coming)
  {
  }

  function SummarizeAll(fetched: seq<EmbeddedSession>): (r: seq<SessionSummary>)
    ensures |r| == |fetched| && forall i :: 0 <= i < |fetched| ==> r[i] == Summarize(fetched[i])
  {
    if fetched == [] then [] else [Summarize(fetched[0])] + SummarizeAll(fetched[1..])
  }

  datatype ListReply = ListFailure(code: int, message: string) | Listed(query: SessionQuery, sessions: seq<SessionSummary>)

  /** GET at time `now`. `run` gives what the database returns for a query: `None` for an error, otherwise the
      rows (a null result reads as no rows). */
  function HandleList(caller: Caller, p: ListParams, now: int, run: SessionQuery -> Option<Option<seq<EmbeddedSession>>>): ListReply {
    if caller.user.None? then ListFailure(401, "Unauthorized")
    else if caller.approved != Some(true) then ListFailure(403, "User not approved")
    else
      var q := BuildQuery(caller.user.value, p, now);
      var result := run(q);
      if result.None? then ListFailure(500, "Failed to fetch sessions")
      else Listed(q, SummarizeAll(result.value.GetOr([])))
  }

  /** The listing is one summary per returned row, in the database's order. */
  lemma ListedIsSummaries(caller: Caller, p: ListParams, now: int, run: SessionQuery -> Option<Option<seq<EmbeddedSession>>>)
    ensures caller.user.None? ==> HandleList(caller, p, now, run) == ListFailure(401, "Unauthorized")
    ensures caller.user.Some? && caller.approved != Some(true) ==> HandleList(caller, p, now, run) == ListFailure(403, "User not approved")
    ensures HandleList(caller, p, now, run).Listed? <==>
      caller.user.Some? && caller.approved == Some(true) && run(BuildQuery(caller.user.value, p, now)).Some?
    ensures HandleList(caller, p, now, run).Listed? ==>
      var rows := run(BuildQuery(caller.user.value, p, now)).value.GetOr([]);
      var r := HandleList(caller, p, now, run).sessions;
      |r| == |rows| && forall i :: 0 <= i < |rows| ==> r[i] == Summarize(rows[i])
  {
  }

  // ---- POST ----

  datatype CreateBody = CreateBody(
    title: Option<string>, description: Option<string>, location: Option<string>,
    startTime: Option<string>, endTime: Option<string>)

  /** The row the handler inserts: the body's fields and the caller as creator. */
  datatype SessionInsert = SessionInsert(
    title: Option<string>, description: Option<string>, location: string,
    startTime: string, endTime: string, createdBy: Id)

  datatype CreateReply = CreateFailure(code: int, message: string) | Created(session: SessionInsert)

  /** POST, over the list of inserted rows. `body` is `None` when `request.json()` throws or yields
      null; any other JSON value gives the fields it has, none for a number, string or boolean. `dbFails` is
      the insert returning an error. */
  function HandleCreate(inserted: seq<SessionInsert>, caller: Caller, body: Option<CreateBody>, dbFails: bool)
    : (CreateReply, seq<SessionInsert>)
  {
    if caller.user.None? then (CreateFailure(401, "Unauthorized"), inserted)
    else if caller.approved != Some(true) then (CreateFailure(403, "User not approved"), inserted)
    else if body.None? then (CreateFailure(500, "Internal server error"), inserted)
    else if !ResponsesRoute.Truthy(body.value.location) || !ResponsesRoute.Truthy(body.value.startTime)
            || !ResponsesRoute.Truthy(body.value.endTime) then
      (CreateFailure(400, "Location, start time, and end time are required"), inserted)
    else if dbFails then (CreateFailure(500, "Failed to create session"), inserted)
    else
      var b := body.value;
      var row := SessionInsert(b.title, b.description, b.location.value, b.startTime.value, b.endTime.value,
                               caller.user.value);
      (Created(row), inserted + [row])
  }

  /** A session is created exactly for an approved caller whose body names a location, a start and an
      end; it is the one appended row, its creator is the caller, and its fields are the body's. Any
      refusal inserts nothing. */
  lemma CreateByCaller(inserted: seq<SessionInsert>, caller: Caller, body: Option<CreateBody>, dbFails: bool)
    ensures var (reply, after) := HandleCreate(inserted, caller, body, dbFails);
      && (reply.Created? <==>
            caller.user.Some? && caller.approved == Some(true) && body.Some?
            && ResponsesRoute.Truthy(body.value.location) && ResponsesRoute.Truthy(body.value.startTime)
            && ResponsesRoute.Truthy(body.value.endTime) && !dbFails)
      && (reply.Created? ==>
            && after == inserted + [reply.session]
            && reply.session.createdBy == caller.user.value
            && Some(reply.session.location) == body.value.location
            && Some(reply.session.startTime) == body.value.startTime
            && Some(reply.session.endTime) == body.value.endTime
            && reply.session.title == body.value.title)
      && (reply.CreateFailure? ==> after == inserted)
  {
  }

  /** The guards come in order: 401, then 403, then 400 for a missing field, all before any write. */
  lemma CreateGuardOrder(inserted: seq<SessionInsert>, caller: Caller, body: Option<CreateBody>, dbFails: bool)
    ensures caller.user.None? ==> HandleCreate(inserted, caller, body, dbFails).0 == CreateFailure(401, "Unauthorized")
    ensures caller.user.Some? && caller.approved != Some(true) ==>
      HandleCreate(inserted, caller, body, dbFails).0 == CreateFailure(403, "User not approved")
    ensures caller.user.Some? && caller.approved == Some(true) && body.Some? && body.value.location.GetOr("") == "" ==>
      HandleCreate(inserted, caller, body, dbFails)
        == (CreateFailure(400, "Location, start time, and end time are required"), inserted)
  {
  }
}
