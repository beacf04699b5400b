/** What a session card derives from a session with its response counts: the response deadline, the
    creator's menu, the court line and the caller's own response. */
module SessionCard {
  import opened Wrappers
  import opened Text
  import opened Time
  import opened Schema
  import opened Courts
  import ResponsesRoute

  /** The session as the sessions list delivers it. */
  datatype CardSession = CardSession(
    id: Id, title: Option<string>, location: string, startTime: int, endTime: int,
    creatorId: Id, creatorName: Option<string>, counts: Counts, userResponse: Option<ResponseStatus>)

  /** The card's time base: `now` is `new Date()` and `hostOffset` the browser's offset from UTC. */
  datatype Clock = Clock(now: int, hostOffset: int)

  /** The client's cutoff: a copy of the start moved back one calendar day, then to 00:00. */
  function ClientCutoff(start: int, hostOffset: int): int {
    var dayBefore := start - MsPerDay;
    LocalMidnight(LocalDay(dayBefore, hostOffset), hostOffset)
  }

  /** The client and the server compute the same cutoff, so the card disables the buttons exactly when
      the server would refuse a response for being too late. */
  lemma ClientCutoffMatchesServer(start: int, hostOffset: int)
    ensures ClientCutoff(start, hostOffset) == ResponsesRoute.Cutoff(start, hostOffset)
  {
    ResponsesRoute.PreviousDay(start, hostOffset);
  }

  predicate ResponseDisabled(s: CardSession, clock: Clock) {
    clock.now >= ClientCutoff(s.startTime, clock.hostOffset)
  }

  /** `currentUserId === session.created_by.id`; an absent viewer id is never the creator. */
  predicate IsCreator(s: CardSession, currentUserId: Option<Id>) {
    currentUserId == Some(s.creatorId)
  }

  /** `toDateString()` equality: the same local calendar day. */
  predicate IsSameDay(a: int, b: int, hostOffset: int) {
    LocalDay(a, hostOffset) == LocalDay(b, hostOffset)
  }

  predicate CanEdit(s: CardSession, currentUserId: Option<Id>, clock: Clock) {
    IsCreator(s, currentUserId) && !IsSameDay(s.startTime, clock.now, clock.hostOffset)
  }

  /** "n court" or "n courts". */
  function CourtLabel(courts: int): string {
    IntToString(courts) + " court" + (if courts != 1 then "s" else "")
  }

  datatype Tone = Green | Yellow | Red

  /** The "Your response" line: the label and its colour. */
  function ResponseLabel(r: ResponseStatus): (string, Tone) {
    if r == Coming then ("Coming", Green)
    else if r == Tentative then ("Maybe", Yellow)
    else ("Not coming", Red)
  }

  /** What the card shows. `menu` is the creator's dropdown; `editEnabled` its "Edit session" entry;
      `controlsDisabled` is passed to the response buttons and `deadlineNotice` is the
      "Response deadline has passed" line. */
  datatype Card = Card(
    title: string, createdBy: string, menu: bool, editEnabled: bool,
    courts: int, courtLabel: string, playability: Playability,
    controlsDisabled: bool, deadlineNotice: bool, yourResponse: Option<(string, Tone)>)

  function RenderCard(s: CardSession, currentUserId: Option<Id>, clock: Clock): (c: Card)
    ensures c.menu <==> currentUserId == Some(s.creatorId)
    ensures c.editEnabled <==> c.menu && LocalDay(s.startTime, clock.hostOffset) != LocalDay(clock.now, clock.hostOffset)
    ensures c.controlsDisabled == c.deadlineNotice
    ensures c.yourResponse.None? <==> s.userResponse.None?
  {
    var courts := CalculateCourts(s.counts.coming);
    var disabled := ResponseDisabled(s, clock);
    Card(
      if s.title.Some? && s.title.value != "" then s.title.value else "Badminton Session",
      if s.creatorName.Some? && s.creatorName.value != "" then s.creatorName.value else "Unknown",
      IsCreator(s, currentUserId), CanEdit(s, currentUserId, clock),
      courts, CourtLabel(courts), PlayabilityStatus(s.counts.coming),
      disabled, disabled,
      if s.userResponse.Some? then Some(ResponseLabel(s.userResponse.value)) else None)
  }

  /** The buttons are disabled exactly from the cutoff on, at least a day and less than two days before
      the start. */
  lemma DeadlineWindow(s: CardSession, currentUserId: Option<Id>, clock: Clock)
    ensures RenderCard(s, currentUserId, clock).controlsDisabled
        <==> clock.now >= ResponsesRoute.Cutoff(s.startTime, clock.hostOffset)
    ensures clock.now < s.startTime - 2 * MsPerDay ==> !RenderCard(s, currentUserId, clock).controlsDisabled
    ensures clock.now >= s.startTime - MsPerDay ==> RenderCard(s, currentUserId, clock).controlsDisabled
  {
    ClientCutoffMatchesServer(s.startTime, clock.hostOffset);
    ResponsesRoute.CutoffWindow(s.startTime, clock.hostOffset);
  }

  /** The court line and the playability note depend on the COMING count alone: the TENTATIVE and
      NOT_COMING counts change neither. */
  lemma CourtsFromComingOnly(s: CardSession, t: CardSession, currentUserId: Option<Id>, clock: Clock)
    requires s.counts.coming == t.counts.coming
    ensures RenderCard(s, currentUserId, clock).courtLabel == RenderCard(t, currentUserId, clock).courtLabel
    ensures RenderCard(s, currentUserId, clock).playability == RenderCard(t, currentUserId, clock).playability
  {
  }

  /** "court" is singular exactly for one court. */
  lemma CourtLabelPlural(courts: nat)
    ensures CourtLabel(courts) == NatToString(courts) + (if courts == 1 then " court" else " courts")
  {
    var n := NatToString(courts);
    assert n + " court" + (if courts != 1 then "s" else "") == n + (if courts == 1 then " court" else " courts");
  }

  /** The response indicator: Coming in green, Maybe in yellow, Not coming in red. */
  lemma YourResponseLabels(s: CardSession, currentUserId: Option<Id>, clock: Clock)
    ensures s.userResponse == Some(Coming) ==> RenderCard(s, currentUserId, clock).yourResponse == Some(("Coming", Green))
    ensures s.userResponse == Some(Tentative) ==> RenderCard(s, currentUserId, clock).yourResponse == Some(("Maybe", Yellow))
    ensures s.userResponse == Some(NotComing) ==> RenderCard(s, currentUserId, clock).yourResponse == Some(("Not coming", Red))
  {
  }

  /** The creator cannot edit a session on its own day, and can on any other day. */
  lemma SameDayLocksEdit(s: CardSession, clock: Clock)
    ensures RenderCard(s, Some(s.creatorId), clock).editEnabled
        <==> !IsSameDay(s.startTime, clock.now, clock.hostOffset)
    ensures forall id: Id :: id != s.creatorId ==> !RenderCard(s, Some(id), clock).menu
  {
  }
}
