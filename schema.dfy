/** The rows and enums of the hosted database (profiles, sessions, responses, comments,
    user_analytics). Timestamps are millisecond values; nullable columns are `Option`s. */
module Schema {
  import opened Wrappers

  type Id = string

  /** The `user_role` enum. */
  datatype Role = NormalUser | SuperAdmin | CredManager

  /** The `response_status` enum. */
  datatype ResponseStatus = Coming | NotComing | Tentative

  /** The spelling of a status in the database and in JSON bodies. */
  function StatusName(s: ResponseStatus): string {
    match s
    case Coming => "COMING"
    case NotComing => "NOT_COMING"
    case Tentative => "TENTATIVE"
  }

  /** The status a string spells, if it spells one (`['COMING', 'NOT_COMING', 'TENTATIVE'].includes`). */
  function ParseStatus(text: string): (r: Option<ResponseStatus>)
    ensures r.Some? ==> StatusName(r.value) == text
    ensures r.None? ==> forall s: ResponseStatus :: StatusName(s) != text
  {
    if text == "COMING" then Some(Coming)
    else if text == "NOT_COMING" then Some(NotComing)
    else if text == "TENTATIVE" then Some(Tentative)
    else None
  }

  /** A text parses exactly when it is one of the three spellings. */
  lemma ParseStatusSpelled(text: string)
    ensures ParseStatus(text).Some? <==> text in ["COMING", "NOT_COMING", "TENTATIVE"]
  {
  }

  lemma ParseStatusName(s: ResponseStatus)
    ensures ParseStatus(StatusName(s)) == Some(s)
  {
  }

  datatype Profile = Profile(
    id: Id, name: string, email: string, phone: Option<string>, role: Role, approved: bool,
    createdAt: int, updatedAt: int)

  datatype SessionRow = SessionRow(
    id: Id, title: Option<string>, description: Option<string>, location: string,
    startTime: int, endTime: int, createdBy: Id, createdAt: int, updatedAt: int)

  datatype ResponseRow = ResponseRow(
    id: Id, userId: Id, sessionId: Id, status: ResponseStatus, createdAt: int, updatedAt: int)

  datatype CommentRow = CommentRow(
    id: Id, sessionId: Id, userId: Id, parentCommentId: Option<Id>, content: string,
    createdAt: int, updatedAt: int)

  datatype UserAnalyticsRow = UserAnalyticsRow(
    id: Id, userId: Id, sessionId: Id, predictedStatus: ResponseStatus,
    actualAttendance: Option<bool>, recordedAt: int)

  /** The number of statuses equal to `s` (`responses.filter(r => r.status === s).length`). */
  function CountStatus(statuses: seq<ResponseStatus>, s: ResponseStatus): (n: nat)
    ensures n <= |statuses|
    ensures n == |statuses| <==> forall i :: 0 <= i < |statuses| ==> statuses[i] == s
  {
    if statuses == [] then 0
    else (if statuses[0] == s then 1 else 0) + CountStatus(statuses[1..], s)
  }

  /** Every status is one of the three, so the three counts add up to the number of responses. */
  lemma {:induction false} CountStatusSum(statuses: seq<ResponseStatus>)
    ensures CountStatus(statuses, Coming) + CountStatus(statuses, NotComing) + CountStatus(statuses, Tentative)
            == |statuses|
  {
    if statuses != [] {
      CountStatusSum(statuses[1..]);
    }
  }

  /** Per-status counts of a list of responses (`response_counts`). */
  datatype Counts = Counts(coming: nat, tentative: nat, notComing: nat)

  function CountsOf(statuses: seq<ResponseStatus>): (c: Counts)
    ensures c.coming + c.tentative + c.notComing == |statuses|
  {
    CountStatusSum(statuses);
    Counts(CountStatus(statuses, Coming), CountStatus(statuses, Tentative), CountStatus(statuses, NotComing))
  }
}
