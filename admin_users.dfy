/** The user-management page for administrators (client/app/admin/users/page.tsx): who may open it,
    how the fetched profiles are split into pending and approved users, and the approve and reject
    actions, which set one profile row's `approved` column. */
module AdminUsers {
  import opened Wrappers
  import opened Schema
  import opened Seqs
  import opened Routing

  /** The access check. `user` is the signed-in user (`None` also when the auth call errs) and
      `profile` that user's row (`None` when it is missing). `Pass` renders the page. */
  function Access(user: Option<Id>, profile: Option<Profile>): Decision {
    if user.None? then Redirect("/login")
    else if profile.None? || !profile.value.approved || profile.value.role != SuperAdmin then
      Redirect("/dashboard/sessions")
    else Pass
  }

  /** Only an approved super administrator sees the page; anybody else signed in is sent to the
      sessions page, and an anonymous visitor to the sign-in page. */
  lemma AdminOnly(user: Option<Id>, profile: Option<Profile>)
    ensures Access(user, profile) == Pass <==>
      user.Some? && profile.Some? && profile.value.approved && profile.value.role == SuperAdmin
    ensures Access(user, profile) == Redirect("/login") <==> user.None?
    ensures Access(user, profile).Redirect? ==> Access(user, profile).to in {"/login", "/dashboard/sessions"}
  {
  }

  predicate IsPending(u: Profile) {
    !u.approved
  }

  predicate IsApproved(u: Profile) {
    u.approved
  }

  function NewestFirstKey(u: Profile): int {
    u.createdAt
  }

  datatype Page = ErrorPage | Lists(pending: seq<Profile>, approved: seq<Profile>)

  /** What the page shows for the result of the profiles query: `None` for an error, otherwise the
      rows, newest first (a null result reads as no rows). */
  function Render(fetched: Option<Option<seq<Profile>>>): Page {
    if fetched.None? then ErrorPage
    else
      var users := fetched.value.GetOr([]);
      Lists(Filter(users, IsPending), Filter(users, IsApproved))
  }

  /** The two lists split the fetched users: each user is in exactly the list its flag names. */
  lemma RenderPartitions(users: seq<Profile>)
    ensures var page := Render(Some(Some(users)));
      && multiset(page.pending) + multiset(page.approved) == multiset(users)
      && (forall i :: 0 <= i < |page.pending| ==> !page.pending[i].approved)
      && (forall i :: 0 <= i < |page.approved| ==> page.approved[i].approved)
  {
    FilterPartition(users, IsApproved, IsPending);
  }

  /** Both lists keep the order of the query, so they stay newest first. */
  lemma RenderKeepsOrder(users: seq<Profile>)
    requires Descending(users, NewestFirstKey)
    ensures var page := Render(Some(Some(users)));
      && SubsequenceOf(page.pending, users) && SubsequenceOf(page.approved, users)
      && Descending(page.pending, NewestFirstKey) && Descending(page.approved, NewestFirstKey)
  {
    FilterSubsequence(users, IsPending);
    FilterSubsequence(users, IsApproved);
    FilterDescending(users, IsPending, NewestFirstKey);
    FilterDescending(users, IsApproved, NewestFirstKey);
  }

  /** `update({ approved: flag }).eq('id', userId)`: the named row, if there is one, gets the flag. */
  function SetApproved(rows: map<Id, Profile>, userId: Id, flag: bool): map<Id, Profile> {
    if userId in rows then rows[userId := rows[userId].(approved := flag)] else rows
  }

  /** Only the named row changes, and in it only the flag. */
  lemma SetApprovedChangesOneFlag(rows: map<Id, Profile>, userId: Id, flag: bool)
    ensures var after := SetApproved(rows, userId, flag);
      && after.Keys == rows.Keys
      && (forall k :: k in rows && k != userId ==> after[k] == rows[k])
      && (userId in rows ==> after[userId].approved == flag && after[userId].(approved := rows[userId].approved) == rows[userId])
  {
  }

  /** Setting the same flag twice is setting it once, and the last of two settings wins. */
  lemma SetApprovedIdempotent(rows: map<Id, Profile>, userId: Id, first: bool, second: bool)
    ensures SetApproved(SetApproved(rows, userId, first), userId, second) == SetApproved(rows, userId, second)
  {
  }

  /** A rejected user is listed exactly as a pending one: rejection only clears the flag. */
  lemma RejectedIsPending(rows: map<Id, Profile>, userId: Id)
    requires userId in rows
    ensures IsPending(SetApproved(rows, userId, false)[userId])
    ensures SetApproved(rows, userId, false) == SetApproved(SetApproved(rows, userId, true), userId, false)
  {
  }

  /** The profiles table as the two server actions change it. */
  class ProfileTable {
    var rows: map<Id, Profile>

    constructor(initial: map<Id, Profile>)
      ensures rows == initial
    {
      rows := initial;
    }

    /** `approveUser`. When the update fails the error is only logged and the table is unchanged. */
    method ApproveUser(userId: Id, fails: bool)
      modifies this
      ensures rows == if fails then old(rows) else SetApproved(old(rows), userId, true)
    {
      if !fails {
        rows := SetApproved(rows, userId, true);
      }
    }

    /** `rejectUser`: clears the flag; there is no separate rejected state. */
    method RejectUser(userId: Id, fails: bool)
      modifies this
      ensures rows == if fails then old(rows) else SetApproved(old(rows), userId, false)
    {
      if !fails {
        rows := SetApproved(rows, userId, false);
      }
    }
  }
}
