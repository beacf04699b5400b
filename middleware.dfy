/** The routing decision of the Next.js middleware (client/middleware.ts), taken over the pathname,
    the signed-in user and the approval flag of the user's profile. */
module Middleware {
  import opened Wrappers
  import opened Text
  import opened Schema
  import opened Routing

  /** The four exact paths open to everybody. */
  predicate IsPublic(pathname: string) {
    pathname == "/login" || pathname == "/signup" || pathname == "/" || pathname == "/pending-approval"
  }

  predicate IsAuthPage(pathname: string) {
    pathname == "/login" || pathname == "/signup"
  }

  /** The prefixes that also demand an approved profile. */
  predicate NeedsApproval(pathname: string) {
    StartsWith(pathname, "/dashboard") || StartsWith(pathname, "/api")
  }

  /** The `middleware` function itself. */
  function Check(pathname: string, v: Visitor): Decision {
    if IsPublic(pathname) then
      if v.user.Some? && IsAuthPage(pathname) then Redirect(AuthPageTarget(v))
      else Pass
    else if v.user.None? then Redirect("/login")
    else if NeedsApproval(pathname) && !Approved(v) then Redirect("/pending-approval")
    else Pass
  }

  /** What a request meets: the middleware inside the matcher, nothing outside it. */
  function Decide(pathname: string, v: Visitor): Decision {
    if Gated(pathname) then Check(pathname, v) else Pass
  }

  lemma AuthPagesGated()
    ensures Gated("/login") && Gated("/signup")
  {
    PageGated("/login");
    PageGated("/signup");
  }

  /** The decision table: files outside the matcher are served to anyone; anonymous visitors see
      the public pages and are sent to /login from the other matched paths; signed-in users are sent
      away from /login and /signup, kept out of /dashboard and /api until approved, and let through
      everywhere else. */
  lemma DecisionTable(pathname: string, v: Visitor)
    ensures !Gated(pathname) ==> Decide(pathname, v) == Pass
    ensures IsPublic(pathname) && v.user.None? ==> Decide(pathname, v) == Pass
    ensures IsAuthPage(pathname) && v.user.Some? ==>
      Decide(pathname, v) == Redirect(if Approved(v) then "/dashboard/sessions" else "/pending-approval")
    ensures (pathname == "/" || pathname == "/pending-approval") ==> Decide(pathname, v) == Pass
    ensures Gated(pathname) && !IsPublic(pathname) && v.user.None? ==> Decide(pathname, v) == Redirect("/login")
    ensures Gated(pathname) && !IsPublic(pathname) && v.user.Some? ==>
      (Decide(pathname, v) == Redirect("/pending-approval") <==> NeedsApproval(pathname) && !Approved(v))
    ensures Gated(pathname) && !IsPublic(pathname) && v.user.Some? ==>
      (Decide(pathname, v) == Pass <==> !NeedsApproval(pathname) || Approved(v))
  {
    AuthPagesGated();
  }

  /** An image file is served even to an anonymous visitor, although the path is not public. */
  lemma ImagesServed(v: Visitor)
    ensures Decide("/logo.png", v) == Pass
  {
    StaticFilesUngated();
  }

  /** A signed-in user reaches other paths, the admin pages for instance, whether approved or not. */
  lemma AdminPathPasses(u: Id, approval: Option<bool>)
    ensures Decide("/admin/users", Visitor(Some(u), approval)) == Pass
  {
    NotStartsWith("/admin/users", "/dashboard", 1);
    NotStartsWith("/admin/users", "/api", 2);
  }

  /** Only three targets are ever used. */
  lemma RedirectTargets(pathname: string, v: Visitor)
    requires Decide(pathname, v).Redirect?
    ensures Decide(pathname, v).to in {"/login", "/pending-approval", "/dashboard/sessions"}
  {
  }

  /** Following a redirect with the same visitor ends there: no redirect loops. */
  lemma NoRedirectLoop(pathname: string, v: Visitor)
    ensures Decide(pathname, v).Redirect? ==> Decide(Decide(pathname, v).to, v) == Pass
  {
    if Decide(pathname, v) == Redirect("/dashboard/sessions") {
      assert NeedsApproval("/dashboard/sessions") by {
        assert "/dashboard/sessions"[..10] == "/dashboard";
      }
    }
  }
}
