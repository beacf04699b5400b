/** The session form rules (client/lib/validations/session.ts): field checks, then four refinements
    over the parsed start and end times, in this order: end after start, same IST day, at least two
    IST days ahead, at most eight hours long. */
module SessionValidation {
  import opened Wrappers
  import opened Text
  import opened Time
  import opened Schema

  /** One validation issue: the field it is attached to and its message. */
  datatype Issue = Issue(path: string, message: string)

  /** A date-time field: the submitted text and what `Date.parse` makes of it (`None` is NaN). */
  datatype TimeText = TimeText(text: string, parsed: Option<int>)

  datatype SessionInput = SessionInput(
    title: Option<string>, description: Option<string>, location: string,
    startTime: TimeText, endTime: TimeText)

  /** The parsed form data that the schema hands on. */
  datatype SessionData = SessionData(
    title: Option<string>, description: Option<string>, location: string,
    startTime: string, endTime: string)

  datatype Outcome<T> = Valid(data: T) | Invalid(issues: seq<Issue>)

  const MaxTitle: int := 200
  const MaxDescription: int := 1000
  const MaxLocation: int := 255
  const MaxDurationHours: real := 8.0

  // ---- the IST helpers ----

  /** `isSameDay`: both instants shifted by +5:30 fall on the same host-local calendar day.
      Two invalid dates both print as "Invalid Date" and so compare equal. */
  function SameIstDay(a: Option<int>, b: Option<int>, hostOffset: int): bool
  {
    match (a, b)
    case (Some(x), Some(y)) => LocalDay(x + IstOffset, hostOffset) == LocalDay(y + IstOffset, hostOffset)
    case (None, None) => true
    case _ => false
  }

  /** `isAtLeast2DaysInAdvance`: the shifted start is not before 00:00 of the host-local day two days
      after the shifted `now`. An invalid date compares false. */
  function AtLeast2DaysInAdvance(start: Option<int>, now: int, hostOffset: int): bool
  {
    match start
    case None => false
    case Some(t) =>
      var twoDaysFromNow := LocalMidnight(LocalDay(now + IstOffset, hostOffset) + 2, hostOffset);
      t + IstOffset >= twoDaysFromNow
  }

  /** The two-day rule compares calendar days only: the time of day of `now` does not matter. */
  lemma AtLeast2DaysByDay(t: int, now: int, hostOffset: int)
    ensures AtLeast2DaysInAdvance(Some(t), now, hostOffset)
        <==> LocalDay(t + IstOffset, hostOffset) >= LocalDay(now + IstOffset, hostOffset) + 2
  {
    var d := LocalDay(now + IstOffset, hostOffset);
    var e := LocalDay(t + IstOffset, hostOffset);
    if e >= d + 2 {
      assert (d + 2) * MsPerDay <= e * MsPerDay;
    } else {
      assert (e + 1) * MsPerDay <= (d + 2) * MsPerDay;
    }
  }

  /** 00:00 IST (with a UTC host) two days out passes; the same time of day tomorrow fails. */
  lemma AtLeast2DaysBoundary(now: int)
    ensures AtLeast2DaysInAdvance(Some(LocalMidnight(LocalDay(now + IstOffset, 0) + 2, 0) - IstOffset), now, 0)
    ensures !AtLeast2DaysInAdvance(Some(now + MsPerDay), now, 0)
    ensures !AtLeast2DaysInAdvance(Some(LocalMidnight(LocalDay(now + IstOffset, 0) + 2, 0) - IstOffset - 1), now, 0)
  {
    AtLeast2DaysByDay(now + MsPerDay, now, 0);
  }

  /** The duration rule: `(end - start) / (1000 * 60 * 60) <= 8`. */
  function WithinMaxDuration(start: Option<int>, end: Option<int>): bool
  {
    match (start, end)
    case (Some(s), Some(e)) => (e - s) as real / (MsPerHour as real) <= MaxDurationHours
    case _ => false
  }

  /** Eight hours inclusive: at most 28 800 000 ms between start and end. */
  lemma WithinMaxDurationMs(s: int, e: int)
    ensures WithinMaxDuration(Some(s), Some(e)) <==> e - s <= 28_800_000
  {
    var h := MsPerHour as real;
    if e - s <= 28_800_000 {
      assert (e - s) as real <= 8.0 * h;
      assert (e - s) as real / h <= 8.0;
    } else {
      assert (e - s) as real > 8.0 * h;
      assert (e - s) as real / h > 8.0;
    }
  }

  /** `end > start` on two `Date`s; false when either is invalid. */
  function EndAfterStart(start: Option<int>, end: Option<int>): bool
  {
    start.Some? && end.Some? && end.value > start.value
  }

  // ---- the schema ----

  function TitleIssues(title: Option<string>): seq<Issue> {
    if title.Some? && |title.value| > MaxTitle then [Issue("title", "Title cannot exceed 200 characters")] else []
  }

  function DescriptionIssues(description: Option<string>): seq<Issue> {
    if description.Some? && |description.value| > MaxDescription
    then [Issue("description", "Description cannot exceed 1000 characters")] else []
  }

  /** `.min(1)` and `.max(255)` are checked on the text as submitted; `.trim()` comes after them. */
  function LocationIssues(location: string): seq<Issue> {
    (if |location| < 1 then [Issue("location", "Location is required")] else [])
    + (if |location| > MaxLocation then [Issue("location", "Location cannot exceed 255 characters")] else [])
  }

  function TimeIssues(path: string, required: string, invalid: string, t: TimeText): seq<Issue> {
    (if |t.text| < 1 then [Issue(path, required)] else [])
    + (if t.parsed.None? then [Issue(path, invalid)] else [])
  }

  /** The issues of the individual fields, in the order of the object's keys. */
  function FieldIssues(input: SessionInput): seq<Issue> {
    TitleIssues(input.title) + DescriptionIssues(input.description) + LocationIssues(input.location)
    + TimeIssues("start_time", "Start time is required", "Start time must be a valid date", input.startTime)
    + TimeIssues("end_time", "End time is required", "End time must be a valid date", input.endTime)
  }

  const EndAfterStartIssue := Issue("end_time", "End time must be after start time")
  const SameDayIssue := Issue("end_time", "Session must start and end on the same day (IST)")
  const TwoDaysIssue := Issue("start_time", "Sessions must be created at least 2 days in advance")
  const DurationIssue := Issue("end_time", "Session duration cannot exceed 8 hours")

  /** The issues of the four object refinements, in their declaration order. Field issues do not stop
      them: every failing refinement adds its issue. */
  function RefinementIssues(input: SessionInput, now: int, hostOffset: int): seq<Issue> {
    var s, e := input.startTime.parsed, input.endTime.parsed;
    (if !EndAfterStart(s, e) then [EndAfterStartIssue] else [])
    + (if !SameIstDay(s, e, hostOffset) then [SameDayIssue] else [])
    + (if !AtLeast2DaysInAdvance(s, now, hostOffset) then [TwoDaysIssue] else [])
    + (if !WithinMaxDuration(s, e) then [DurationIssue] else [])
  }

  /** `sessionSchema.safeParse` at time `now` on a host `hostOffset` ms east of UTC. */
  function ParseSession(input: SessionInput, now: int, hostOffset: int): Outcome<SessionData>
  {
    var issues := FieldIssues(input) + RefinementIssues(input, now, hostOffset);
    if issues == [] then
      Valid(SessionData(input.title, input.description, Trim(input.location),
                        input.startTime.text, input.endTime.text))
    else Invalid(issues)
  }

  /** The rules a session has to meet, stated on their own: the field rules and, for two valid
      dates, the four refinements. */
  predicate AcceptableSession(input: SessionInput, now: int, hostOffset: int) {
    FieldsAcceptable(input) && RefinementsAcceptable(input, now, hostOffset)
  }

  predicate FieldsAcceptable(input: SessionInput) {
    && (input.title.Some? ==> |input.title.value| <= 200)
    && (input.description.Some? ==> |input.description.value| <= 1000)
    && 1 <= |input.location| <= 255
    && input.startTime.text != [] && input.endTime.text != []
    && input.startTime.parsed.Some? && input.endTime.parsed.Some?
  }

  predicate RefinementsAcceptable(input: SessionInput, now: int, hostOffset: int) {
    && input.startTime.parsed.Some? && input.endTime.parsed.Some?
    && var s, e := input.startTime.parsed.value, input.endTime.parsed.value;
       && s < e
       && LocalDay(s + IstOffset, hostOffset) == LocalDay(e + IstOffset, hostOffset)
       && LocalDay(s + IstOffset, hostOffset) >= LocalDay(now + IstOffset, hostOffset) + 2
       && e - s <= 28_800_000
  }

  /** The schema accepts exactly the acceptable sessions, and then hands on the location trimmed. */
  lemma ParseSessionAccepts(input: SessionInput, now: int, hostOffset: int)
    ensures ParseSession(input, now, hostOffset).Valid? <==> AcceptableSession(input, now, hostOffset)
    ensures ParseSession(input, now, hostOffset).Valid? ==>
      ParseSession(input, now, hostOffset).data.location == Trim(input.location)
  {
    FieldIssuesEmpty(input);
    if input.startTime.parsed.Some? && input.endTime.parsed.Some? {
      RefinementIssuesEmpty(input, now, hostOffset);
    }
  }

  /** No field issue exactly when every field rule holds. */
  lemma FieldIssuesEmpty(input: SessionInput)
    ensures FieldIssues(input) == [] <==> FieldsAcceptable(input)
  {
  }

  /** For two valid dates, no refinement issue exactly when all four refinements hold. */
  lemma RefinementIssuesEmpty(input: SessionInput, now: int, hostOffset: int)
    requires input.startTime.parsed.Some? && input.endTime.parsed.Some?
    ensures RefinementIssues(input, now, hostOffset) == [] <==> RefinementsAcceptable(input, now, hostOffset)
  {
    var s, e := input.startTime.parsed.value, input.endTime.parsed.value;
    AtLeast2DaysByDay(s, now, hostOffset);
    WithinMaxDurationMs(s, e);
  }

  /** The position of a refinement issue in the declaration order; 4 for any other issue. */
  function RefinementRank(i: Issue): nat {
    if i == EndAfterStartIssue then 0
    else if i == SameDayIssue then 1
    else if i == TwoDaysIssue then 2
    else if i == DurationIssue then 3
    else 4
  }

  /** The four refinement issues are told apart by their rank. */
  lemma Ranks()
    ensures RefinementRank(EndAfterStartIssue) == 0 && RefinementRank(SameDayIssue) == 1
    ensures RefinementRank(TwoDaysIssue) == 2 && RefinementRank(DurationIssue) == 3
  {
    assert |EndAfterStartIssue.message| == 33 && |SameDayIssue.message| == 48;
    assert |TwoDaysIssue.message| == 51 && |DurationIssue.message| == 38;
  }

  /** Refinement issues only, each ranked above the one before it. */
  predicate InRefinementOrder(issues: seq<Issue>) {
    && (forall i :: 0 <= i < |issues| ==> RefinementRank(issues[i]) < 4)
    && (forall i, j :: 0 <= i < j < |issues| ==> RefinementRank(issues[i]) < RefinementRank(issues[j]))
  }

  /** Appending at most one issue of rank `k` to issues ranked below `k` keeps the order. */
  lemma AppendRanked(a: seq<Issue>, b: seq<Issue>, k: nat)
    requires InRefinementOrder(a) && forall i :: 0 <= i < |a| ==> RefinementRank(a[i]) < k
    requires b == [] || (|b| == 1 && RefinementRank(b[0]) == k && k < 4)
    ensures InRefinementOrder(a + b)
    ensures forall i :: 0 <= i < |a + b| ==> RefinementRank((a + b)[i]) <= k
  {
    if b != [] {
      assert forall i :: 0 <= i < |a| ==> (a + b)[i] == a[i];
      assert (a + b)[|a|] == b[0];
    }
  }

  /** The refinement issues come in declaration order, none twice. */
  lemma RefinementIssuesOrdered(input: SessionInput, now: int, hostOffset: int)
    ensures InRefinementOrder(RefinementIssues(input, now, hostOffset))
  {
    var s, e := input.startTime.parsed, input.endTime.parsed;
    var r0 := if !EndAfterStart(s, e) then [EndAfterStartIssue] else [];
    var r1 := if !SameIstDay(s, e, hostOffset) then [SameDayIssue] else [];
    var r2 := if !AtLeast2DaysInAdvance(s, now, hostOffset) then [TwoDaysIssue] else [];
    var r3 := if !WithinMaxDuration(s, e) then [DurationIssue] else [];
    Ranks();
    AppendRanked([], r0, 0);
    AppendRanked(r0, r1, 1);
    AppendRanked(r0 + r1, r2, 2);
    AppendRanked(r0 + r1 + r2, r3, 3);
    assert RefinementIssues(input, now, hostOffset) == r0 + r1 + r2 + r3;
  }

  /** Issues that are not refinement issues. */
  predicate Unranked(issues: seq<Issue>) {
    forall x :: x in issues ==> RefinementRank(x) == 4
  }

  lemma TimeIssuesUnranked(path: string, required: string, invalid: string, t: TimeText)
    requires |required| < 33 && |invalid| < 33
    ensures Unranked(TimeIssues(path, required, invalid, t))
  {
    Ranks();
  }

  /** No field issue is a refinement issue. */
  lemma FieldIssuesUnranked(input: SessionInput)
    ensures Unranked(FieldIssues(input))
  {
    Ranks();
    assert Unranked(TitleIssues(input.title) + DescriptionIssues(input.description) + LocationIssues(input.location));
    TimeIssuesUnranked("start_time", "Start time is required", "Start time must be a valid date", input.startTime);
    TimeIssuesUnranked("end_time", "End time is required", "End time must be a valid date", input.endTime);
  }

  /** Field issues come first, then the refinement issues in declaration order, none twice. */
  lemma ParseSessionIssueOrder(input: SessionInput, now: int, hostOffset: int)
    requires ParseSession(input, now, hostOffset).Invalid?
    ensures var issues := ParseSession(input, now, hostOffset).issues;
      && issues[..|FieldIssues(input)|] == FieldIssues(input)
      && InRefinementOrder(issues[|FieldIssues(input)|..])
      && (!EndAfterStart(input.startTime.parsed, input.endTime.parsed) ==>
            issues[|FieldIssues(input)|] == EndAfterStartIssue)
      && (!WithinMaxDuration(input.startTime.parsed, input.endTime.parsed) ==>
            issues[|issues| - 1] == DurationIssue)
  {
    var f := FieldIssues(input);
    var r := RefinementIssues(input, now, hostOffset);
    assert ParseSession(input, now, hostOffset).issues == f + r;
    assert (f + r)[|f|..] == r;
    RefinementIssuesOrdered(input, now, hostOffset);
  }

  /** Each refinement issue is among the refinement issues exactly when its refinement fails. */
  lemma RefinementMembership(input: SessionInput, now: int, hostOffset: int)
    ensures var r := RefinementIssues(input, now, hostOffset);
      var s, e := input.startTime.parsed, input.endTime.parsed;
      && (!EndAfterStart(s, e) <==> EndAfterStartIssue in r)
      && (!SameIstDay(s, e, hostOffset) <==> SameDayIssue in r)
      && (!AtLeast2DaysInAdvance(s, now, hostOffset) <==> TwoDaysIssue in r)
      && (!WithinMaxDuration(s, e) <==> DurationIssue in r)
  {
    Ranks();
  }

  /** Every refinement reports its issue exactly when it fails, whatever the field issues. */
  lemma RefinementsReported(input: SessionInput, now: int, hostOffset: int)
    requires ParseSession(input, now, hostOffset).Invalid?
    ensures var issues := ParseSession(input, now, hostOffset).issues;
      var s, e := input.startTime.parsed, input.endTime.parsed;
      && (!EndAfterStart(s, e) <==> EndAfterStartIssue in issues)
      && (!SameIstDay(s, e, hostOffset) <==> SameDayIssue in issues)
      && (!AtLeast2DaysInAdvance(s, now, hostOffset) <==> TwoDaysIssue in issues)
      && (!WithinMaxDuration(s, e) <==> DurationIssue in issues)
  {
    var f := FieldIssues(input);
    var r := RefinementIssues(input, now, hostOffset);
    assert ParseSession(input, now, hostOffset).issues == f + r;
    FieldIssuesUnranked(input);
    Ranks();
    RefinementMembership(input, now, hostOffset);
  }

  /** With all fields well formed, an end before the start is the first issue reported, even when
      the two-day rule fails as well. */
  lemma EndBeforeStartFirst(input: SessionInput, now: int, hostOffset: int)
    requires FieldIssues(input) == []
    requires !EndAfterStart(input.startTime.parsed, input.endTime.parsed)
    ensures ParseSession(input, now, hostOffset).Invalid?
    ensures ParseSession(input, now, hostOffset).issues[0] == EndAfterStartIssue
  {
  }

  /** An empty start time is reported as required, whatever else is wrong with the session. */
  lemma EmptyStartRequired(input: SessionInput, now: int, hostOffset: int)
    requires input.startTime.text == []
    ensures ParseSession(input, now, hostOffset).Invalid?
    ensures Issue("start_time", "Start time is required") in ParseSession(input, now, hostOffset).issues
  {
    var issues := FieldIssues(input) + RefinementIssues(input, now, hostOffset);
    EmptyStartField(input);
    assert Issue("start_time", "Start time is required") in issues;
    assert ParseSession(input, now, hostOffset) == Invalid(issues);
  }

  lemma EmptyStartField(input: SessionInput)
    requires input.startTime.text == []
    ensures Issue("start_time", "Start time is required") in FieldIssues(input)
  {
    var pre := TitleIssues(input.title) + DescriptionIssues(input.description) + LocationIssues(input.location);
    var st := TimeIssues("start_time", "Start time is required", "Start time must be a valid date", input.startTime);
    assert st[0] == Issue("start_time", "Start time is required");
    assert FieldIssues(input)
        == pre + st + TimeIssues("end_time", "End time is required", "End time must be a valid date", input.endTime);
    assert FieldIssues(input)[|pre|] == st[0];
  }

  // ---- updateSessionResponseSchema ----

  datatype ResponseUpdateInput = ResponseUpdateInput(sessionId: Option<string>, status: Option<string>)

  datatype ResponseUpdate = ResponseUpdate(sessionId: string, status: ResponseStatus)

  /** `updateSessionResponseSchema.safeParse`; `isUuid` stands for zod's UUID pattern. */
  function ParseResponseUpdate(input: ResponseUpdateInput, isUuid: string -> bool): Outcome<ResponseUpdate>
  {
    var idIssues :=
      match input.sessionId
      case None => [Issue("sessionId", "Required")]
      case Some(id) => if isUuid(id) then [] else [Issue("sessionId", "Invalid session ID")];
    var statusIssues :=
      match input.status
      case None => [Issue("status", "Required")]
      case Some(s) =>
        if ParseStatus(s).Some? then []
        else [Issue("status", "Invalid enum value. Expected 'COMING' | 'NOT_COMING' | 'TENTATIVE', received '"
                              + s + "'")];
    if input.sessionId.Some? && isUuid(input.sessionId.value) && input.status.Some? && ParseStatus(input.status.value).Some?
    then Valid(ResponseUpdate(input.sessionId.value, ParseStatus(input.status.value).value))
    else Invalid(idIssues + statusIssues)
  }

  /** Accepted exactly when both fields are present, the id is a UUID and the status is one of the
      three enum values; the accepted status is the one spelled. */
  lemma ParseResponseUpdateAccepts(input: ResponseUpdateInput, isUuid: string -> bool)
    ensures ParseResponseUpdate(input, isUuid).Valid? <==>
      && input.sessionId.Some? && isUuid(input.sessionId.value)
      && input.status.Some? && input.status.value in ["COMING", "NOT_COMING", "TENTATIVE"]
    ensures ParseResponseUpdate(input, isUuid).Valid? ==>
      StatusName(ParseResponseUpdate(input, isUuid).data.status) == input.status.value
  {
    if input.status.Some? {
      ParseStatusSpelled(input.status.value);
    }
  }

  // ---- createCommentSchema ----

  datatype CreateCommentInput = CreateCommentInput(sessionId: string, content: string, parentCommentId: Option<string>)

  /** `createCommentSchema.safeParse`: a UUID session id, content of 1 to 1000 characters (checked before
      trimming), an optional UUID parent id. */
  function ParseCreateComment(input: CreateCommentInput, isUuid: string -> bool): Outcome<CreateCommentInput>
  {
    var issues :=
      (if isUuid(input.sessionId) then [] else [Issue("session_id", "Invalid session ID")])
      + (if |input.content| < 1 then [Issue("content", "Comment cannot be empty")] else [])
      + (if |input.content| > 1000 then [Issue("content", "Comment cannot exceed 1000 characters")] else [])
      + (if input.parentCommentId.Some? && !isUuid(input.parentCommentId.value)
         then [Issue("parent_comment_id", "Invalid parent comment ID")] else []);
    if issues == [] then Valid(input.(content := Trim(input.content))) else Invalid(issues)
  }

  /** Whitespace-only content passes the length check and is handed on as the empty string. */
  lemma CreateCommentWhitespaceOnly(input: CreateCommentInput, isUuid: string -> bool)
    requires isUuid(input.sessionId) && input.parentCommentId.None?
    requires 1 <= |input.content| <= 1000 && forall i :: 0 <= i < |input.content| ==> IsJsSpace(input.content[i])
    ensures ParseCreateComment(input, isUuid).Valid? && ParseCreateComment(input, isUuid).data.content == ""
  {
    TrimAllSpace(input.content);
  }
}
