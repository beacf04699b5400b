/** What the two request gates (client/middleware.ts and client/proxy.ts) and the admin page decide
    for a request: let it through, or redirect it to another path. */
module Routing {
  import opened Wrappers
  import opened Text
  import opened Schema

  datatype Decision = Pass | Redirect(to: string)

  /** The caller as the gate sees it: the signed-in user, if any, and the `approved` column of that
      user's profile row (`None` when the row is missing or the lookup fails). */
  datatype Visitor = Visitor(user: Option<Id>, approval: Option<bool>)

  /** `profile?.approved` is truthy, which for the non-null boolean column is the same test as
      `profile && profile.approved === true`. */
  predicate Approved(v: Visitor) {
    v.approval == Some(true)
  }

  /** Where a signed-in user who opens /login or /signup is sent. */
  function AuthPageTarget(v: Visitor): string {
    if Approved(v) then "/dashboard/sessions" else "/pending-approval"
  }

  // ---- the request matcher ----

  predicate EndsWith(s: string, t: string) {
    |t| <= |s| && s[|s| - |t|..] == t
  }

  /** `favicon.ico` in the pattern, where the unescaped `.` stands for any one character. */
  predicate FaviconPrefix(s: string) {
    |s| >= 11 && s[..7] == "favicon" && s[8..11] == "ico"
  }

  /** The pattern's `.*\.(?:svg|png|jpg|jpeg|gif|webp)$`: the text ends in one of the image extensions. */
  predicate ImageFile(s: string) {
    EndsWith(s, ".svg") || EndsWith(s, ".png") || EndsWith(s, ".jpg")
    || EndsWith(s, ".jpeg") || EndsWith(s, ".gif") || EndsWith(s, ".webp")
  }

  /** The `config.matcher` both gates export: a `/` whose remainder starts with none of `_next/static`,
      `_next/image` and the favicon, and is not an image file. A request outside it is served without
      running the gate. */
  predicate Gated(pathname: string) {
    && |pathname| >= 1 && pathname[0] == '/'
    && var rest := pathname[1..];
       && !StartsWith(rest, "_next/static")
       && !StartsWith(rest, "_next/image")
       && !FaviconPrefix(rest)
       && !ImageFile(rest)
  }

  lemma NoDotNoEnding(s: string, t: string)
    requires |t| >= 1 && t[0] == '.' && forall i :: 0 <= i < |s| ==> s[i] != '.'
    ensures !EndsWith(s, t)
  {
  }

  /** A page path reaches the gates: a `/`, then neither `_` nor `f` first, and no dot anywhere. */
  lemma PageGated(pathname: string)
    requires |pathname| >= 1 && pathname[0] == '/'
    requires |pathname| >= 2 ==> pathname[1] != '_' && pathname[1] != 'f'
    requires forall i :: 0 <= i < |pathname| ==> pathname[i] != '.'
    ensures Gated(pathname)
  {
    var rest := pathname[1..];
    assert forall i :: 0 <= i < |rest| ==> rest[i] == pathname[i + 1];
    if rest != [] {
      NotStartsWith(rest, "_next/static", 0);
      NotStartsWith(rest, "_next/image", 0);
    }
    NoDotNoEnding(rest, ".svg");
    NoDotNoEnding(rest, ".png");
    NoDotNoEnding(rest, ".jpg");
    NoDotNoEnding(rest, ".jpeg");
    NoDotNoEnding(rest, ".gif");
    NoDotNoEnding(rest, ".webp");
  }

  /** Static chunks, optimised images, the favicon and image files bypass the gates. */
  lemma StaticFilesUngated()
    ensures !Gated("/_next/static/chunks/main.js")
    ensures !Gated("/_next/image")
    ensures !Gated("/favicon.ico")
    ensures !Gated("/logo.png")
  {
    assert "/_next/static/chunks/main.js"[1..][..12] == "_next/static";
    assert "/_next/image"[1..][..11] == "_next/image";
    assert "/favicon.ico"[1..][..7] == "favicon" && "/favicon.ico"[1..][8..11] == "ico";
    assert "/logo.png"[1..][4..] == ".png";
  }
}
