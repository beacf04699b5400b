/** The redirect decision of the request proxy (client/proxy.ts). It guards only the /dashboard
    pages and the two sign-in pages. */
module Proxy {
  import opened Wrappers
  import opened Text
  import opened Routing
  import Middleware

  /** The `updateSession` proxy function itself. */
  function Check(pathname: string, v: Visitor): Decision {
    if StartsWith(pathname, "/dashboard") && v.user.None? then Redirect("/login")
    else if StartsWith(pathname, "/dashboard") && !Approved(v) then Redirect("/pending-approval")
    else if (pathname == "/login" || pathname == "/signup") && v.user.Some? then Redirect(AuthPageTarget(v))
    else Pass
  }

  /** What a request meets: the proxy inside the matcher, nothing outside it. */
  function Decide(pathname: string, v: Visitor): Decision {
    if Gated(pathname) then Check(pathname, v) else Pass
  }

  /** The decision table: /dashboard needs a user and then an approved profile; a signed-in user on
      /login or /signup goes to the sessions page exactly when approved; every other request passes. */
  lemma DecisionTable(pathname: string, v: Visitor)
    ensures Gated(pathname) && StartsWith(pathname, "/dashboard") && v.user.None? ==>
      Decide(pathname, v) == Redirect("/login")
    ensures Gated(pathname) && StartsWith(pathname, "/dashboard") && v.user.Some? ==>
      Decide(pathname, v) == (if Approved(v) then Pass else Redirect("/pending-approval"))
    ensures (pathname == "/login" || pathname == "/signup") && v.user.Some? ==>
      (Decide(pathname, v) == Redirect("/dashboard/sessions") <==> Approved(v))
    ensures (pathname == "/login" || pathname == "/signup") && v.user.Some? ==>
      (Decide(pathname, v) == Redirect("/pending-approval") <==> !Approved(v))
    ensures !Gated(pathname) || (!StartsWith(pathname, "/dashboard")
                                 && !((pathname == "/login" || pathname == "/signup") && v.user.Some?)) ==>
      Decide(pathname, v) == Pass
  {
    if (pathname == "/login" || pathname == "/signup") {
      assert !StartsWith(pathname, "/dashboard");
      Middleware.AuthPagesGated();
    }
  }

  /** The API is not guarded here: an anonymous request to it passes. */
  lemma ApiPasses(pathname: string)
    requires StartsWith(pathname, "/api")
    ensures Decide(pathname, Visitor(None, None)) == Pass
  {
    NotStartsWith(pathname, "/dashboard", 1);
  }

  /** Following a redirect with the same visitor ends there: no redirect loops. */
  lemma NoRedirectLoop(pathname: string, v: Visitor)
    ensures Decide(pathname, v).Redirect? ==> Decide(Decide(pathname, v).to, v) == Pass
  {
    assert !StartsWith("/login", "/dashboard");
    NotStartsWith("/pending-approval", "/dashboard", 1);
    assert StartsWith("/dashboard/sessions", "/dashboard") by {
      assert "/dashboard/sessions"[..10] == "/dashboard";
    }
  }

  /** Every redirect of the proxy is also a redirect of the middleware, to the same place; the
      middleware redirects more (anonymous requests to any private path, unapproved ones to /api). */
  lemma ProxyWithinMiddleware(pathname: string, v: Visitor)
    ensures Decide(pathname, v).Redirect? ==> Middleware.Decide(pathname, v) == Decide(pathname, v)
  {
    if Gated(pathname) && StartsWith(pathname, "/dashboard") {
      assert pathname[..10] == "/dashboard";
      assert !Middleware.IsPublic(pathname) by {
        NotStartsWith("/pending-approval", "/dashboard", 1);
      }
      assert Middleware.NeedsApproval(pathname);
    }
  }

  /** An anonymous request to the API is turned away by the middleware but not by the proxy. */
  lemma GatesDisagreeOnApi()
    ensures Middleware.Decide("/api/sessions", Visitor(None, None)) == Redirect("/login")
    ensures Decide("/api/sessions", Visitor(None, None)) == Pass
  {
    ApiPasses("/api/sessions");
    PageGated("/api/sessions");
  }
}
