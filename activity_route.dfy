/** `GET /api/users/activity`: the caller's sessions created and sessions responded to, as one feed
    with pagination metadata. The two queries and the two counts are inputs. */
module ActivityRoute {
  import opened Wrappers
  import opened Text
  import opened Schema
  import opened Sorting
  import ErrorHandling

  /** The `created_by` embedding: the creator's profile id and name. */
  datatype Creator = Creator(id: Id, name: Option<string>)

  /** A session as both queries embed it. */
  datatype SessionInfo = SessionInfo(
    id: Id, title: Option<string>, description: Option<string>, location: string,
    startTime: int, endTime: int, createdAt: int, createdBy: Option<Creator>)

  /** A row of the created-sessions query with the statuses of its responses. */
  datatype CreatedRow = CreatedRow(session: SessionInfo, responses: Option<seq<ResponseStatus>>)

  /** A row of the responded-sessions query: the response and its session (`None` once the session
      is deleted). */
  datatype RespondedRow = RespondedRow(id: Id, status: ResponseStatus, createdAt: int, session: Option<SessionInfo>)

  /** A feed entry. `activityDate` is the session's creation time for a created entry and the
      response's creation time for a responded one. */
  datatype Activity =
    | CreatedActivity(session: SessionInfo, counts: Counts, activityDate: int)
    | RespondedActivity(session: SessionInfo, userResponse: ResponseStatus, activityDate: int, responseId: Id)

  function CreatedEntry(row: CreatedRow): (a: Activity)
    ensures a.CreatedActivity? && a.session == row.session && a.activityDate == row.session.createdAt
    ensures a.counts.coming == CountStatus(row.responses.GetOr([]), Coming)
    ensures a.counts.tentative == CountStatus(row.responses.GetOr([]), Tentative)
    ensures a.counts.notComing == CountStatus(row.responses.GetOr([]), NotComing)
  {
    CreatedActivity(row.session, CountsOf(row.responses.GetOr([])), row.session.createdAt)
  }

  function CreatedEntries(rows: seq<CreatedRow>): (r: seq<Activity>)
    ensures |r| == |rows| && forall i :: 0 <= i < |rows| ==> r[i] == CreatedEntry(rows[i])
  {
    if rows == [] then [] else [CreatedEntry(rows[0])] + CreatedEntries(rows[1..])
  }

  function RespondedEntry(row: RespondedRow): Activity
    requires row.session.Some?
  {
    RespondedActivity(row.session.value, row.status, row.createdAt, row.id)
  }

  /** `.filter(response => response.session).map(...)`. */
  function RespondedEntries(rows: seq<RespondedRow>): (r: seq<Activity>)
    ensures |r| <= |rows|
    ensures forall a :: a in r ==> a.RespondedActivity?
  {
    if rows == [] then []
    else (if rows[0].session.Some? then [RespondedEntry(rows[0])] else []) + RespondedEntries(rows[1..])
  }

  /** A responded entry stands for exactly one returned response whose session still exists: its
      session, its status and its id. */
  lemma {:induction false} RespondedEntriesMembers(rows: seq<RespondedRow>)
    ensures forall a :: a in RespondedEntries(rows) <==>
      exists i :: 0 <= i < |rows| && rows[i].session.Some? && a == RespondedEntry(rows[i])
  {
    if rows != [] {
      RespondedEntriesMembers(rows[1..]);
      var head := if rows[0].session.Some? then [RespondedEntry(rows[0])] else [];
      assert RespondedEntries(rows) == head + RespondedEntries(rows[1..]);
      forall a ensures a in RespondedEntries(rows) <==>
        exists i :: 0 <= i < |rows| && rows[i].session.Some? && a == RespondedEntry(rows[i])
      {
        if a in RespondedEntries(rows[1..]) {
          var j :| 0 <= j < |rows[1..]| && rows[1..][j].session.Some? && a == RespondedEntry(rows[1..][j]);
          assert rows[j + 1] == rows[1..][j];
        }
        if exists i :: 0 <= i < |rows| && rows[i].session.Some? && a == RespondedEntry(rows[i]) {
          var i :| 0 <= i < |rows| && rows[i].session.Some? && a == RespondedEntry(rows[i]);
          if i > 0 {
            assert rows[1..][i - 1] == rows[i];
          }
        }
      }
    }
  }

  /** The number of returned responses whose session still exists. */
  function WithSession(rows: seq<RespondedRow>): nat {
    if rows == [] then 0 else (if rows[0].session.Some? then 1 else 0) + WithSession(rows[1..])
  }

  /** Responses with a deleted session are dropped and no other is. */
  lemma {:induction false} RespondedEntriesCount(rows: seq<RespondedRow>)
    ensures |RespondedEntries(rows)| == WithSession(rows)
  {
    if rows != [] {
      RespondedEntriesCount(rows[1..]);
    }
  }

  /** Newest first: the comparator `b.activity_date - a.activity_date` sorts ascending by the negated
      date. */
  function Newer(a: Activity): int {
    -a.activityDate
  }

  /** `.slice(0, limit > 0 ? limit : undefined)`; a NaN limit keeps everything. */
  function Truncate(s: seq<Activity>, limit: Option<int>): (r: seq<Activity>)
    ensures r <= s
    ensures limit.Some? && limit.value > 0 ==> |r| == if limit.value < |s| then limit.value else |s|
    ensures !(limit.Some? && limit.value > 0) ==> r == s
  {
    if limit.Some? && limit.value > 0 && limit.value < |s| then s[..limit.value] else s
  }

  /** The feed the handler assembles, as a value. A failed query (`None`) or a null result reads as no
      rows. */
  function ActivityList(filter: string, limit: Option<int>,
                        created: Option<Option<seq<CreatedRow>>>,
                        responded: Option<Option<seq<RespondedRow>>>): seq<Activity>
  {
    var c := if (filter == "all" || filter == "created") && created.Some? then CreatedEntries(created.value.GetOr([])) else [];
    var r := if (filter == "all" || filter == "responded") && responded.Some? then RespondedEntries(responded.value.GetOr([])) else [];
    if filter == "all" then Truncate(SortBy(c + r, Newer), limit)
    else if filter == "created" then c
    else if filter == "responded" then r
    else []
  }

  /** The assembly as the handler performs it: the two lists start empty, are filled by the queries the filter asks for, and are
      combined by the filter. */
  method CollectActivities(filter: string, limit: Option<int>,
                           created: Option<Option<seq<CreatedRow>>>,
                           responded: Option<Option<seq<RespondedRow>>>) returns (activities: seq<Activity>)
    ensures activities == ActivityList(filter, limit, created, responded)
  {
    var createdSessions: seq<Activity> := [];
    var respondedSessions: seq<Activity> := [];
    if filter == "all" || filter == "created" {
      if created.Some? {
        createdSessions := CreatedEntries(created.value.GetOr([]));
      }
    }
    if filter == "all" || filter == "responded" {
      if responded.Some? {
        respondedSessions := RespondedEntries(responded.value.GetOr([]));
      }
    }
    activities := [];
    if filter == "all" {
      activities := Truncate(SortBy(createdSessions + respondedSessions, Newer), limit);
    } else if filter == "created" {
      activities := createdSessions;
    } else if filter == "responded" {
      activities := respondedSessions;
    }
  }

  /** Sorting newest first and truncating: a prefix of a permutation, with dates never increasing and
      the relative order of entries of the same date kept. */
  lemma NewestFirst(whole: seq<Activity>, limit: Option<int>)
    ensures var sorted := SortBy(whole, Newer);
      var feed := Truncate(sorted, limit);
      && feed <= sorted
      && multiset(sorted) == multiset(whole)
      && (forall i, j :: 0 <= i < j < |feed| ==> feed[i].activityDate >= feed[j].activityDate)
      && (forall d :: WithKey(sorted, Newer, d) == WithKey(whole, Newer, d))
      && (!(limit.Some? && limit.value > 0) ==> multiset(feed) == multiset(whole))
      && (limit.Some? && limit.value > 0 ==> |feed| == if limit.value < |whole| then limit.value else |whole|)
  {
    var sorted := SortBy(whole, Newer);
    SortBySorted(whole, Newer);
    forall d ensures WithKey(sorted, Newer, d) == WithKey(whole, Newer, d) {
      SortByStable(whole, Newer, d);
    }
    var feed := Truncate(sorted, limit);
    forall i, j | 0 <= i < j < |feed| ensures feed[i].activityDate >= feed[j].activityDate {
      assert feed[i] == sorted[i] && feed[j] == sorted[j];
      assert Newer(sorted[i]) <= Newer(sorted[j]);
    }
  }

  /** The 'all' feed is the created entries followed by the surviving responded entries, sorted
      newest first and cut to a positive limit; `NewestFirst` states what that gives. */
  lemma AllFeed(limit: Option<int>, created: seq<CreatedRow>, responded: seq<RespondedRow>)
    ensures ActivityList("all", limit, Some(Some(created)), Some(Some(responded)))
         == Truncate(SortBy(CreatedEntries(created) + RespondedEntries(responded), Newer), limit)
  {
  }

  /** 'created' lists created entries only, 'responded' responded entries only, in the database's
      order and untruncated; any other filter but 'all' lists nothing. */
  lemma OtherFilters(filter: string, limit: Option<int>,
                     created: Option<Option<seq<CreatedRow>>>, responded: Option<Option<seq<RespondedRow>>>)
    ensures filter == "created" ==>
      ActivityList(filter, limit, created, responded)
        == if created.Some? then CreatedEntries(created.value.GetOr([])) else []
    ensures filter == "created" ==> forall a :: a in ActivityList(filter, limit, created, responded) ==> a.CreatedActivity?
    ensures filter == "responded" ==>
      ActivityList(filter, limit, created, responded)
        == if responded.Some? then RespondedEntries(responded.value.GetOr([])) else []
    ensures filter == "responded" ==> forall a :: a in ActivityList(filter, limit, created, responded) ==> a.RespondedActivity?
    ensures filter !in {"all", "created", "responded"} ==> ActivityList(filter, limit, created, responded) == []
  {
    if filter == "created" && created.Some? {
      var c := CreatedEntries(created.value.GetOr([]));
      forall a | a in c ensures a.CreatedActivity? {
        var i :| 0 <= i < |c| && c[i] == a;
      }
    }
  }

  // ---- the handler ----

  datatype ActivityParams = ActivityParams(filter: Option<string>, limit: Option<string>, offset: Option<string>)

  /** `x || fallback` on a query-string parameter. */
  function OrDefault(v: Option<string>, fallback: string): string {
    if v.Some? && v.value != "" then v.value else fallback
  }

  datatype Metadata = Metadata(
    totalActivities: nat, createdSessionsCount: int, respondedSessionsCount: int,
    filter: string, limit: Option<int>, offset: Option<int>, hasMore: bool)

  /** `x > offset + limit`, false when either is NaN. */
  function MoreThan(count: int, offset: Option<int>, limit: Option<int>): bool {
    offset.Some? && limit.Some? && count > offset.value + limit.value
  }

  function HasMore(filter: string, createdCount: int, respondedCount: int, offset: Option<int>, limit: Option<int>): bool {
    if filter == "all" then MoreThan(createdCount + respondedCount, offset, limit)
    else if filter == "created" then MoreThan(createdCount, offset, limit)
    else MoreThan(respondedCount, offset, limit)
  }

  /** The reply. `error` is `None` when the JSON body has no `error` value. */
  datatype ActivityReply =
    | Failure(status: int, error: Option<string>)
    | Feed(activities: seq<Activity>, metadata: Metadata)

  /** What the database and the auth service answer. `createdCount` and `respondedCount` are `None` for
      a null count; `thrown` is an exception raised inside the `try` block. */
  datatype Backend = Backend(
    user: Option<Id>,
    created: Option<Option<seq<CreatedRow>>>, responded: Option<Option<seq<RespondedRow>>>,
    createdCount: Option<nat>, respondedCount: Option<nat>, thrown: Option<ErrorHandling.Thrown>)

  /** The reply once the `try` block completes. */
  function FeedReply(p: ActivityParams, b: Backend): ActivityReply {
    if b.user.None? then Failure(401, Some("Authentication required"))
    else
      var filter := OrDefault(p.filter, "all");
      var limit := ParseInt(OrDefault(p.limit, "50"));
      var offset := ParseInt(OrDefault(p.offset, "0"));
      var activities := ActivityList(filter, limit, b.created, b.responded);
      var cc, rc := b.createdCount.GetOr(0), b.respondedCount.GetOr(0);
      Feed(activities, Metadata(|activities|, cc, rc, filter, limit, offset, HasMore(filter, cc, rc, offset, limit)))
  }

  /** The `catch` block as written: `parseApiError` of error-handling.ts returns a string, whose
      `message` and `status` are undefined, so the reply is a body without `error` and the default
      status 200. */
  function CaughtAsWritten(e: ErrorHandling.Thrown): ActivityReply {
    Failure(200, None)
  }

  /** The `catch` block as intended: a server error carrying the caught error's message. */
  function Caught(e: ErrorHandling.Thrown): (r: ActivityReply)
    ensures r.Failure? && r.status == 500 && r.error == Some(ErrorHandling.ParseApiError(e))
  {
    Failure(500, Some(ErrorHandling.ParseApiError(e)))
  }

  function HandleActivityAsWritten(p: ActivityParams, b: Backend): ActivityReply {
    if b.thrown.Some? then CaughtAsWritten(b.thrown.value) else FeedReply(p, b)
  }

  function HandleActivity(p: ActivityParams, b: Backend): ActivityReply {
    if b.thrown.Some? then Caught(b.thrown.value) else FeedReply(p, b)
  }

  /** As written, an exception with a message is answered with status 200 and no error text: the
      client cannot tell the failure from a success, and the message is lost. */
  lemma CaughtErrorLooksLikeSuccess(p: ActivityParams, b: Backend)
    requires b.thrown == Some(ErrorHandling.ErrorInstance("fetch failed"))
    ensures HandleActivityAsWritten(p, b) == Failure(200, None)
    ensures HandleActivity(p, b) == Failure(500, Some("fetch failed"))
  {
  }

  /** With the corrected `catch`, every exception gives a 500 with its message, and every failure
      carries an error status and an error text. */
  lemma CaughtIsServerError(p: ActivityParams, b: Backend)
    ensures b.thrown.Some? ==>
      HandleActivity(p, b) == Failure(500, Some(ErrorHandling.ParseApiError(b.thrown.value)))
    ensures HandleActivity(p, b).Failure? ==> HandleActivity(p, b).status >= 400 && HandleActivity(p, b).error.Some?
  {
  }

  /** Without a user the reply is 401; without parameters the feed is 'all', 50 entries at most, from
      offset 0. */
  lemma ActivityDefaults(p: ActivityParams, b: Backend)
    requires b.thrown.None?
    ensures b.user.None? ==> HandleActivity(p, b) == Failure(401, Some("Authentication required"))
    ensures b.user.Some? && p.filter.GetOr("") == "" && p.limit.GetOr("") == "" && p.offset.GetOr("") == "" ==>
      var m := HandleActivity(p, b).metadata;
      m.filter == "all" && m.limit == Some(50) && m.offset == Some(0)
  {
    if b.user.Some? && p.filter.GetOr("") == "" && p.limit.GetOr("") == "" && p.offset.GetOr("") == "" {
      assert OrDefault(p.filter, "all") == "all";
      assert OrDefault(p.limit, "50") == "50" && OrDefault(p.offset, "0") == "0";
      DefaultNumbers();
    }
  }

  lemma DefaultNumbers()
    ensures ParseInt("50") == Some(50) && ParseInt("0") == Some(0)
  {
    assert NatToString(50) == "50" && NatToString(0) == "0";
    ParseIntNatToString(50);
    ParseIntNatToString(0);
  }

  /** `total_activities` is the length of the returned feed, the two counts default to 0, and
      `has_more` compares the filter's count with `offset + limit`. */
  lemma FeedMetadata(p: ActivityParams, b: Backend)
    requires b.thrown.None? && b.user.Some?
    ensures var r := HandleActivity(p, b);
      && r.Feed?
      && r.metadata.totalActivities == |r.activities|
      && r.metadata.createdSessionsCount == b.createdCount.GetOr(0)
      && r.metadata.respondedSessionsCount == b.respondedCount.GetOr(0)
      && (r.metadata.hasMore <==>
            r.metadata.offset.Some? && r.metadata.limit.Some?
            && (if r.metadata.filter == "all" then r.metadata.createdSessionsCount + r.metadata.respondedSessionsCount
                else if r.metadata.filter == "created" then r.metadata.createdSessionsCount
                else r.metadata.respondedSessionsCount)
               > r.metadata.offset.value + r.metadata.limit.value)
  {
  }
}
