/** `POST /api/responses` and `GET /api/responses`: a member records COMING, NOT_COMING or TENTATIVE
    for a session until the response cutoff, 00:00 host-local time on the day before the session.
    The responses table is keyed by (user, session): the upsert conflicts on that pair. */
module ResponsesRoute {
  import opened Wrappers
  import opened Time
  import opened Schema

  /** The conflict key of the responses table: (user_id, session_id). */
  type Key = (Id, Id)

  /** JavaScript truthiness of an optional text field: present and not the empty string. */
  predicate Truthy(v: Option<string>) {
    v.Some? && v.value != ""
  }

  /** The fields of the POST body. */
  datatype PostBody = PostBody(sessionId: Option<string>, status: Option<string>)

  /** What the handler learns from the auth service, the caller's profile and the request:
      `user` is `None` when `getUser` fails or returns no user, `approved` is the profile's flag
      (`None` without a profile), `body` is `None` when `request.json()` throws or yields null. Any
      other JSON value gives the fields it has; a number, string or boolean has none. */
  datatype PostRequest = PostRequest(user: Option<Id>, approved: Option<bool>, body: Option<PostBody>)

  datatype Reply = Error(code: int, message: string) | Saved(row: ResponseRow)

  /** The response cutoff: local midnight at the start of the calendar day before the session starts
      (`setDate(getDate() - 1)` then `setHours(0, 0, 0, 0)`). */
  function Cutoff(start: int, hostOffset: int): int {
    LocalMidnight(LocalDay(start, hostOffset) - 1, hostOffset)
  }

  /** The cutoff lies at least one day and less than two days before the session start. */
  lemma CutoffWindow(start: int, hostOffset: int)
    ensures MsPerDay <= start - Cutoff(start, hostOffset) < 2 * MsPerDay
  {
    LocalMidnightAtOrBefore(start, hostOffset);
  }

  /** Moving a timestamp back by one day in local time moves it to the previous day number. */
  lemma PreviousDay(t: int, hostOffset: int)
    ensures LocalDay(t - MsPerDay, hostOffset) == LocalDay(t, hostOffset) - 1
  {
    var d := LocalDay(t, hostOffset);
    assert (d - 1) * MsPerDay <= t - MsPerDay + hostOffset < d * MsPerDay;
  }

  /** `upsert({user_id, session_id, status}, {onConflict: 'user_id,session_id'})`: an existing row for
      the pair gets the new status and keeps its other columns; otherwise a row is inserted with the
      database defaults (`freshId`, created and updated at `now`). */
  function Upsert(rows: map<Key, ResponseRow>, user: Id, session: Id, status: ResponseStatus,
                  freshId: Id, now: int): map<Key, ResponseRow>
  {
    var key := (user, session);
    if key in rows then rows[key := rows[key].(status := status)]
    else rows[key := ResponseRow(freshId, user, session, status, now, now)]
  }

  /** Every row sits under the key made of its own user and session. */
  ghost predicate KeyedByPair(rows: map<Key, ResponseRow>) {
    forall k :: k in rows ==> rows[k].userId == k.0 && rows[k].sessionId == k.1
  }

  /** After the upsert the pair has exactly one row, carrying the new status; an existing row keeps
      its id and creation time; every other row is unchanged and no other row appears. */
  lemma UpsertPostcondition(rows: map<Key, ResponseRow>, user: Id, session: Id, status: ResponseStatus,
                            freshId: Id, now: int)
    requires KeyedByPair(rows)
    ensures var r := Upsert(rows, user, session, status, freshId, now);
      && KeyedByPair(r)
      && r.Keys == rows.Keys + {(user, session)}
      && r[(user, session)].status == status
      && ((user, session) in rows ==>
            r[(user, session)].id == rows[(user, session)].id
            && r[(user, session)].createdAt == rows[(user, session)].createdAt)
      && (forall k :: k in rows && k != (user, session) ==> r[k] == rows[k])
  {
  }

  /** Upserting the same status twice is the same as upserting it once. */
  lemma UpsertIdempotent(rows: map<Key, ResponseRow>, user: Id, session: Id, status: ResponseStatus,
                         freshId: Id, now: int, freshId2: Id, now2: int)
    ensures var once := Upsert(rows, user, session, status, freshId, now);
      Upsert(once, user, session, status, freshId2, now2) == once
  {
    var key := (user, session);
    var once := Upsert(rows, user, session, status, freshId, now);
    assert once[key].status == status;
    assert once[key].(status := status) == once[key];
  }

  /** The POST handler as a function of the old table: the reply and the new table. The checks run in
      the source's order; `dbFails` is the upsert returning an error. */
  function HandlePost(rows: map<Key, ResponseRow>, req: PostRequest, sessions: map<Id, SessionRow>,
                      now: int, hostOffset: int, freshId: Id, dbFails: bool): (Reply, map<Key, ResponseRow>)
  {
    if req.user.None? then (Error(401, "Unauthorized"), rows)
    else if req.approved != Some(true) then (Error(403, "User not approved"), rows)
    else if req.body.None? then (Error(500, "Internal server error"), rows)
    else if !Truthy(req.body.value.sessionId) || !Truthy(req.body.value.status) then
      (Error(400, "Session ID and status are required"), rows)
    else if ParseStatus(req.body.value.status.value).None? then
      (Error(400, "Invalid status. Must be COMING, NOT_COMING, or TENTATIVE"), rows)
    else if req.body.value.sessionId.value !in sessions then (Error(404, "Session not found"), rows)
    else if now >= Cutoff(sessions[req.body.value.sessionId.value].startTime, hostOffset) then
      (Error(400, "Response cutoff has passed. Cannot update response."), rows)
    else if dbFails then (Error(500, "Failed to update response"), rows)
    else
      var user, session := req.user.value, req.body.value.sessionId.value;
      var r := Upsert(rows, user, session, ParseStatus(req.body.value.status.value).value, freshId, now);
      (Saved(r[(user, session)]), r)
  }

  /** The request passes every check before the write. */
  predicate Admissible(req: PostRequest, sessions: map<Id, SessionRow>, now: int, hostOffset: int) {
    && req.user.Some? && req.approved == Some(true) && req.body.Some?
    && Truthy(req.body.value.sessionId) && Truthy(req.body.value.status)
    && ParseStatus(req.body.value.status.value).Some?
    && req.body.value.sessionId.value in sessions
    && now < Cutoff(sessions[req.body.value.sessionId.value].startTime, hostOffset)
  }

  /** A rejected request leaves the table as it was. */
  lemma RejectedChangesNothing(rows: map<Key, ResponseRow>, req: PostRequest, sessions: map<Id, SessionRow>,
                               now: int, hostOffset: int, freshId: Id, dbFails: bool)
    ensures HandlePost(rows, req, sessions, now, hostOffset, freshId, dbFails).0.Error? ==>
      HandlePost(rows, req, sessions, now, hostOffset, freshId, dbFails).1 == rows
  {
  }

  /** Authentication comes before everything else, then approval. */
  lemma GuardOrder(rows: map<Key, ResponseRow>, req: PostRequest, sessions: map<Id, SessionRow>,
                   now: int, hostOffset: int, freshId: Id, dbFails: bool)
    ensures req.user.None? ==> HandlePost(rows, req, sessions, now, hostOffset, freshId, dbFails).0.code == 401
    ensures req.user.Some? && req.approved != Some(true) ==>
      HandlePost(rows, req, sessions, now, hostOffset, freshId, dbFails).0.code == 403
  {
  }

  /** After authentication and approval, a body lacking a field, a status outside the three values or
      an unknown session is refused with 400, 400 and 404 respectively. */
  lemma BadRequests(rows: map<Key, ResponseRow>, req: PostRequest, sessions: map<Id, SessionRow>,
                    now: int, hostOffset: int, freshId: Id, dbFails: bool)
    requires req.user.Some? && req.approved == Some(true) && req.body.Some?
    ensures var reply := HandlePost(rows, req, sessions, now, hostOffset, freshId, dbFails).0;
      && (!Truthy(req.body.value.sessionId) || !Truthy(req.body.value.status) ==>
            reply == Error(400, "Session ID and status are required"))
      && (Truthy(req.body.value.sessionId) && Truthy(req.body.value.status)
          && (forall s :: StatusName(s) != req.body.value.status.value) ==>
            reply == Error(400, "Invalid status. Must be COMING, NOT_COMING, or TENTATIVE"))
      && (Truthy(req.body.value.sessionId) && ParseStatus(req.body.value.status.GetOr("")).Some?
          && req.body.value.sessionId.value !in sessions ==>
            reply == Error(404, "Session not found"))
  {
  }

  /** For a request that is well formed and names a known session, the write is refused exactly when
      the moment of the request is at or past the cutoff. */
  lemma CutoffRule(rows: map<Key, ResponseRow>, req: PostRequest, sessions: map<Id, SessionRow>,
                   now: int, hostOffset: int, freshId: Id, dbFails: bool)
    requires req.user.Some? && req.approved == Some(true) && req.body.Some?
    requires Truthy(req.body.value.sessionId) && Truthy(req.body.value.status)
    requires ParseStatus(req.body.value.status.value).Some? && req.body.value.sessionId.value in sessions
    ensures HandlePost(rows, req, sessions, now, hostOffset, freshId, dbFails).0
              == Error(400, "Response cutoff has passed. Cannot update response.")
        <==> now >= Cutoff(sessions[req.body.value.sessionId.value].startTime, hostOffset)
  {
  }

  /** A response is saved exactly when every check passes and the database does not fail; the table
      then holds one row for (caller, session) with the requested status, which is the row returned,
      and every other row is unchanged. */
  lemma SavedIff(rows: map<Key, ResponseRow>, req: PostRequest, sessions: map<Id, SessionRow>,
                 now: int, hostOffset: int, freshId: Id, dbFails: bool)
    requires KeyedByPair(rows)
    ensures var (reply, r) := HandlePost(rows, req, sessions, now, hostOffset, freshId, dbFails);
      && (reply.Saved? <==> Admissible(req, sessions, now, hostOffset) && !dbFails)
      && KeyedByPair(r)
      && (reply.Saved? ==>
            var key := (req.user.value, req.body.value.sessionId.value);
            && key in r && reply.row == r[key]
            && StatusName(reply.row.status) == req.body.value.status.value
            && r.Keys == rows.Keys + {key}
            && (forall k :: k in rows && k != key ==> r[k] == rows[k]))
  {
    if Admissible(req, sessions, now, hostOffset) && !dbFails {
      var status := ParseStatus(req.body.value.status.value).value;
      UpsertPostcondition(rows, req.user.value, req.body.value.sessionId.value, status, freshId, now);
    }
  }

  /** Sending the same accepted request again, even later and with another default id, leaves the
      table as the first request left it. */
  lemma PostIdempotent(rows: map<Key, ResponseRow>, req: PostRequest, sessions: map<Id, SessionRow>,
                       now: int, hostOffset: int, freshId: Id, now2: int, freshId2: Id)
    requires Admissible(req, sessions, now, hostOffset) && Admissible(req, sessions, now2, hostOffset)
    ensures var once := HandlePost(rows, req, sessions, now, hostOffset, freshId, false).1;
      HandlePost(once, req, sessions, now2, hostOffset, freshId2, false).1 == once
  {
    var status := ParseStatus(req.body.value.status.value).value;
    UpsertIdempotent(rows, req.user.value, req.body.value.sessionId.value, status, freshId, now, freshId2, now2);
  }

  /** The responses table. */
  class ResponseTable {
    var rows: map<Key, ResponseRow>

    ghost predicate Valid()
      reads this
    {
      KeyedByPair(rows)
    }

    constructor ()
      ensures Valid() && rows == map[]
    {
      rows := map[];
    }

    /** The POST handler: each guard returns early; the cutoff is computed by stepping a copy of the
        start time back one day and then to local midnight. */
    method Post(req: PostRequest, sessions: map<Id, SessionRow>, now: int, hostOffset: int,
                freshId: Id, dbFails: bool) returns (reply: Reply)
      requires Valid()
      modifies this
      ensures Valid()
      ensures (reply, rows) == HandlePost(old(rows), req, sessions, now, hostOffset, freshId, dbFails)
    {
      if req.user.None? {
        return Error(401, "Unauthorized");
      }
      var user := req.user.value;
      if req.approved != Some(true) {
        return Error(403, "User not approved");
      }
      if req.body.None? {
        return Error(500, "Internal server error");
      }
      var body := req.body.value;
      if !Truthy(body.sessionId) || !Truthy(body.status) {
        return Error(400, "Session ID and status are required");
      }
      var status := ParseStatus(body.status.value);
      if status.None? {
        return Error(400, "Invalid status. Must be COMING, NOT_COMING, or TENTATIVE");
      }
      var session := body.sessionId.value;
      if session !in sessions {
        return Error(404, "Session not found");
      }
      var start := sessions[session].startTime;
      var cutoff := start;
      cutoff := cutoff - MsPerDay;
      cutoff := LocalMidnight(LocalDay(cutoff, hostOffset), hostOffset);
      PreviousDay(start, hostOffset);
      if now >= cutoff {
        return Error(400, "Response cutoff has passed. Cannot update response.");
      }
      if dbFails {
        return Error(500, "Failed to update response");
      }
      UpsertPostcondition(rows, user, session, status.value, freshId, now);
      rows := Upsert(rows, user, session, status.value, freshId, now);
      reply := Saved(rows[(user, session)]);
    }
  }

  // ---- GET ----

  datatype GetReply = GetError(code: int, message: string) | Listed(responses: set<ResponseRow>)

  /** `GET /api/responses?session_id=…`: every stored response of that session. */
  function HandleGet(rows: map<Key, ResponseRow>, user: Option<Id>, sessionId: Option<string>, dbFails: bool): GetReply {
    if user.None? then GetError(401, "Unauthorized")
    else if !Truthy(sessionId) then GetError(400, "Session ID is required")
    else if dbFails then GetError(500, "Failed to fetch responses")
    else Listed(set k | k in rows && k.1 == sessionId.value :: rows[k])
  }

  /** A listing holds exactly the rows of the requested session. */
  lemma GetListsSession(rows: map<Key, ResponseRow>, user: Option<Id>, sessionId: Option<string>, dbFails: bool)
    requires KeyedByPair(rows)
    ensures HandleGet(rows, user, sessionId, dbFails).Listed? <==> user.Some? && Truthy(sessionId) && !dbFails
    ensures HandleGet(rows, user, sessionId, dbFails).Listed? ==>
      forall row :: row in HandleGet(rows, user, sessionId, dbFails).responses
        <==> row in rows.Values && row.sessionId == sessionId.value
  {
    if HandleGet(rows, user, sessionId, dbFails).Listed? {
      forall row | row in rows.Values && row.sessionId == sessionId.value
        ensures row in HandleGet(rows, user, sessionId, dbFails).responses
      {
        var k :| k in rows && rows[k] == row;
      }
    }
  }
}
