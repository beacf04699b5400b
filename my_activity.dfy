/** The pure parts of the "My Activity" page (client/app/dashboard/my-activity/page.tsx): the search
    box filter over the fetched activities, the response wording and the "Total Activities" figure. */
module MyActivity {
  import opened Wrappers
  import opened Text
  import opened Schema
  import opened Seqs
  import SessionCard
  import ActivityRoute

  /** An activity as the page reads it; absent optional fields are `None`. */
  datatype ActivityItem = ActivityItem(
    id: Id, title: Option<string>, description: Option<string>, location: string,
    creatorName: Option<string>, userResponse: Option<string>)

  /** Whether the (already lower-cased) term occurs in the title, the location, the description or
      the creator's name. A missing title or description reads as `''`, which contains only the empty
      term; a missing name never matches. */
  predicate Matches(a: ActivityItem, term: string) {
    || Contains(Lower(a.title.GetOr("")), term)
    || Contains(Lower(a.location), term)
    || Contains(Lower(a.description.GetOr("")), term)
    || (a.creatorName.Some? && Contains(Lower(a.creatorName.value), term))
  }

  /** `filteredActivities`. */
  function Search(activities: seq<ActivityItem>, searchTerm: string): (r: seq<ActivityItem>)
    ensures searchTerm == "" ==> r == activities
    ensures searchTerm != "" ==> forall i :: 0 <= i < |r| ==> Matches(r[i], Lower(searchTerm))
  {
    if searchTerm == "" then activities
    else
      var term := Lower(searchTerm);
      Filter(activities, a => Matches(a, term))
  }

  /** The search keeps exactly the matching activities, in their order. */
  lemma SearchKeepsMatches(activities: seq<ActivityItem>, searchTerm: string)
    ensures SubsequenceOf(Search(activities, searchTerm), activities)
    ensures searchTerm != "" ==>
      forall i :: 0 <= i < |activities| ==>
        (activities[i] in Search(activities, searchTerm) <==> Matches(activities[i], Lower(searchTerm)))
  {
    if searchTerm == "" {
      SubsequenceReflexive(activities);
    } else {
      var term := Lower(searchTerm);
      FilterSubsequence(activities, a => Matches(a, term));
    }
  }

  lemma {:induction false} SubsequenceReflexive<T>(s: seq<T>)
    ensures SubsequenceOf(s, s)
  {
    if s != [] {
      SubsequenceReflexive(s[1..]);
    }
  }

  /** The search ignores letter case in the term: `Design` and `design` give the same list. */
  lemma SearchIgnoresTermCase(activities: seq<ActivityItem>, searchTerm: string, other: string)
    requires searchTerm != "" && other != "" && Lower(searchTerm) == Lower(other)
    ensures Search(activities, searchTerm) == Search(activities, other)
  {
  }

  /** `getResponseText`. */
  function ResponseText(response: string): (text: string)
    ensures text == "No response" <==> ParseStatus(response).None?
  {
    if response == "COMING" then "Coming"
    else if response == "TENTATIVE" then "Maybe"
    else if response == "NOT_COMING" then "Not coming"
    else "No response"
  }

  /** The page words each status as the session card does. */
  lemma ResponseTextAgreesWithCard(s: ResponseStatus)
    ensures ResponseText(StatusName(s)) == SessionCard.ResponseLabel(s).0
  {
  }

  /** The "Total Activities" figure: the two counts of the reply's metadata added up. */
  function TotalActivities(m: ActivityRoute.Metadata): int {
    m.createdSessionsCount + m.respondedSessionsCount
  }

  /** The figure is the sum of the database counts (0 for a null count), not the length of the
      returned page of activities. */
  lemma TotalIsCountSum(p: ActivityRoute.ActivityParams, b: ActivityRoute.Backend)
    requires ActivityRoute.FeedReply(p, b).Feed?
    ensures TotalActivities(ActivityRoute.FeedReply(p, b).metadata) == b.createdCount.GetOr(0) + b.respondedCount.GetOr(0)
  {
  }
}
