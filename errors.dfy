/** Classification of authentication and API errors into the application's error record, and the
    decisions taken from it (client/lib/utils/errors.ts). */
module Errors {
  import opened Wrappers
  import opened Text

  datatype ErrorType = Auth | Validation | Network | Server | Unknown

  /** `AppError`: `field` and `code` are optional. */
  datatype AppError = AppError(kind: ErrorType, message: string, field: Option<string>, code: Option<string>)

  /** The properties of a thrown or returned error object that the classification reads; `None` where
      the property is undefined or null. */
  datatype ErrorObject = ErrorObject(
    name: Option<string>, message: Option<string>, errorDescription: Option<string>,
    error: Option<string>, code: Option<string>, status: Option<int>)

  /** JavaScript truthiness of an optional string. */
  predicate Present(v: Option<string>) {
    v.Some? && v.value != ""
  }

  /** `a || b` on optional strings. */
  function Or(a: Option<string>, b: Option<string>): Option<string> {
    if Present(a) then a else b
  }

  /** `a || fallback`. */
  function OrElse(a: Option<string>, fallback: string): string {
    if Present(a) then a.value else fallback
  }

  /** What a translation fixes: the kind, the message and the field. */
  datatype Translation = Translation(kind: ErrorType, message: string, field: Option<string>)

  /** The `switch` over the Supabase auth codes with a fixed translation. */
  function KnownCode(code: string): Option<Translation> {
    if code == "invalid_credentials" || code == "invalid_grant" then
      Some(Translation(Auth, "Invalid email or password", None))
    else if code == "email_not_confirmed" then
      Some(Translation(Auth, "Please check your email and click the confirmation link", None))
    else if code == "too_many_requests" then
      Some(Translation(Auth, "Too many requests. Please wait a moment before trying again", None))
    else if code == "signup_disabled" then
      Some(Translation(Auth, "Account registration is currently disabled", None))
    else if code == "weak_password" then
      Some(Translation(Validation, "Password is too weak. Please choose a stronger password", Some("password")))
    else if code == "email_address_invalid" then
      Some(Translation(Validation, "Please enter a valid email address", Some("email")))
    else if code == "email_address_not_authorized" then
      Some(Translation(Auth, "This email address is not authorized to create an account", None))
    else if code == "user_already_registered" then
      Some(Translation(Validation, "An account with this email already exists", Some("email")))
    else None
  }

  /** The `default` branch: the message is searched for "password", then "email", then "network" or
      "fetch", and is otherwise passed on. */
  function ByMessage(message: string): Translation {
    if Contains(message, "password") then Translation(Validation, "Password requirements not met", Some("password"))
    else if Contains(message, "email") then Translation(Validation, "Please check your email address", Some("email"))
    else if Contains(message, "network") || Contains(message, "fetch") then
      Translation(Network, "Network error. Please check your connection", None)
    else Translation(Auth, message, None)
  }

  /** The text the default branch inspects: `message || error_description || 'Authentication failed'`. */
  function AuthMessage(e: ErrorObject): string {
    OrElse(Or(e.message, e.errorDescription), "Authentication failed")
  }

  /** `error.error || error.code`. */
  function AuthCode(e: ErrorObject): Option<string> {
    Or(e.error, e.code)
  }

  predicate KnownAuthCode(code: Option<string>) {
    code.Some? && KnownCode(code.value).Some?
  }

  /** `parseAuthError`; `None` is a null or undefined error. */
  function ParseAuthError(e: Option<ErrorObject>): (r: AppError)
    ensures e.Some? ==> r.code == AuthCode(e.value)
  {
    if e.None? then AppError(Unknown, "An unexpected error occurred", None, None)
    else
      var code := AuthCode(e.value);
      var t := if KnownAuthCode(code) then KnownCode(code.value).value else ByMessage(AuthMessage(e.value));
      AppError(t.kind, t.message, t.field, code)
  }

  /** A null error is unknown; the two credential codes read as a wrong email or password. */
  lemma AuthErrorBasics(e: ErrorObject)
    ensures ParseAuthError(None) == AppError(Unknown, "An unexpected error occurred", None, None)
    ensures AuthCode(e) in {Some("invalid_credentials"), Some("invalid_grant")} ==>
      ParseAuthError(Some(e)) == AppError(Auth, "Invalid email or password", None, AuthCode(e))
  {
  }

  /** Among the known codes only `weak_password` names the password field, only the two email codes
      the email field, and a named field always comes with a validation error. */
  lemma KnownCodeFields(code: string)
    ensures KnownCode(code).Some? && KnownCode(code).value.field == Some("password") <==> code == "weak_password"
    ensures KnownCode(code).Some? && KnownCode(code).value.field == Some("email")
        <==> code == "email_address_invalid" || code == "user_already_registered"
    ensures KnownCode(code).Some? && KnownCode(code).value.field.Some? ==> KnownCode(code).value.kind == Validation
  {
    if code == "weak_password" {
      assert KnownCode(code).value.field == Some("password");
    } else if code == "email_address_invalid" || code == "user_already_registered" {
      assert KnownCode(code).value.field == Some("email");
    } else {
      assert KnownCode(code).None? || KnownCode(code).value.field.None?;
    }
  }

  lemma ByMessageFields(message: string)
    ensures ByMessage(message).field == Some("password") <==> Contains(message, "password")
    ensures ByMessage(message).field == Some("email") <==> !Contains(message, "password") && Contains(message, "email")
    ensures ByMessage(message).field.Some? ==> ByMessage(message).kind == Validation
  {
  }

  /** The field an auth error points at: the password for `weak_password` or an unknown code whose
      message mentions a password; the email for the two email codes or an unknown code whose message
      mentions an email and no password; no field otherwise. */
  lemma AuthErrorField(e: ErrorObject)
    ensures var code := AuthCode(e);
      var m := AuthMessage(e);
      var r := ParseAuthError(Some(e));
      && (r.field == Some("password") <==>
            code == Some("weak_password") || (!KnownAuthCode(code) && Contains(m, "password")))
      && (r.field == Some("email") <==>
            code == Some("email_address_invalid") || code == Some("user_already_registered")
            || (!KnownAuthCode(code) && !Contains(m, "password") && Contains(m, "email")))
      && (r.field.Some? ==> r.kind == Validation)
  {
    if AuthCode(e).Some? {
      KnownCodeFields(AuthCode(e).value);
    }
    ByMessageFields(AuthMessage(e));
  }

  /** For an unknown code the message is examined for "password", then "email", then "network" or
      "fetch"; failing all three it is passed on as an auth error with the code. */
  lemma AuthErrorUnknownCode(e: ErrorObject)
    requires !KnownAuthCode(AuthCode(e))
    ensures var m := AuthMessage(e);
      var r := ParseAuthError(Some(e));
      && (Contains(m, "password") ==> r.kind == Validation && r.message == "Password requirements not met")
      && (!Contains(m, "password") && Contains(m, "email") ==>
            r.kind == Validation && r.message == "Please check your email address")
      && (!Contains(m, "password") && !Contains(m, "email") && (Contains(m, "network") || Contains(m, "fetch")) ==>
            r.kind == Network)
      && (!Contains(m, "password") && !Contains(m, "email") && !Contains(m, "network") && !Contains(m, "fetch") ==>
            r == AppError(Auth, m, None, AuthCode(e)))
  {
  }

  /** `parseApiError`; `None` for a null or undefined error. The result is `None` when the call
      throws: an error named TypeError without a message fails on `message.includes`. */
  function ParseApiError(e: Option<ErrorObject>): Option<AppError> {
    if e.None? then Some(AppError(Unknown, "An unexpected error occurred", None, None))
    else
      var x := e.value;
      if x.name == Some("TypeError") && x.message.None? then None
      else if x.name == Some("TypeError") && Contains(x.message.value, "fetch") then
        Some(AppError(Network, "Unable to connect to the server. Please check your internet connection.", None, None))
      else if x.status.Some? && x.status.value != 0 then
        var s := x.status.value;
        if s == 400 then Some(AppError(Validation, OrElse(x.message, "Invalid request data"), None, None))
        else if s == 401 then Some(AppError(Auth, "You need to sign in to continue", None, None))
        else if s == 403 then Some(AppError(Auth, "You don't have permission to perform this action", None, None))
        else if s == 404 then Some(AppError(Server, "The requested resource was not found", None, None))
        else if s == 429 then Some(AppError(Server, "Too many requests. Please try again later", None, None))
        else if s == 500 then Some(AppError(Server, "Server error. Please try again later", None, None))
        else Some(AppError(Server, OrElse(x.message, "Something went wrong on the server"), None, None))
      else Some(AppError(Unknown, OrElse(x.message, "An unexpected error occurred"), None, None))
  }

  /** The TypeErrors `parseApiError` settles before looking at the status: a failed fetch, and one
      without a message, on which the call throws. */
  predicate DivertedTypeError(x: ErrorObject) {
    x.name == Some("TypeError") && (x.message.None? || Contains(x.message.value, "fetch"))
  }

  /** The kind by status: 400 is a validation error, 401 and 403 auth errors, any other non-zero
      status a server error, and no status an unknown error, unless a fetch TypeError comes first. */
  lemma ApiErrorKinds(x: ErrorObject)
    requires !DivertedTypeError(x)
    ensures ParseApiError(Some(x)).Some?
    ensures var k := ParseApiError(Some(x)).value.kind;
      && (x.status == Some(400) ==> k == Validation)
      && (x.status in {Some(401), Some(403)} ==> k == Auth)
      && (x.status.Some? && x.status.value !in {0, 400, 401, 403} ==> k == Server)
      && (x.status.None? || x.status == Some(0) ==> k == Unknown)
  {
  }

  /** A failed fetch is reported as a network error whatever status it carries. */
  lemma FetchFailureFirst(x: ErrorObject)
    requires x.name == Some("TypeError") && x.message.Some? && Contains(x.message.value, "fetch")
    ensures ParseApiError(Some(x)).Some? && ParseApiError(Some(x)).value.kind == Network
  {
  }

  /** A 400 keeps the server's message when it has one. */
  lemma BadRequestKeepsMessage(x: ErrorObject)
    requires !DivertedTypeError(x) && x.status == Some(400)
    ensures ParseApiError(Some(x)) == Some(AppError(Validation, OrElse(x.message, "Invalid request data"), None, None))
  {
  }

  /** `shouldRetry`. */
  predicate ShouldRetry(e: AppError) {
    e.kind in {Network, Server}
  }

  /** `shouldRedirectToLogin`. */
  predicate ShouldRedirectToLogin(e: AppError) {
    e.kind == Auth
    && (e.code == Some("invalid_credentials") || Contains(e.message, "sign in") || Contains(e.message, "unauthorized"))
  }

  /** Every character of a contained string occurs in the containing one. */
  lemma {:induction false} ContainedChars(s: string, t: string)
    ensures Contains(s, t) ==> forall c :: c in t ==> c in s
  {
    if t <= s {
      assert forall k :: 0 <= k < |t| ==> t[k] == s[k];
    }
    if s != [] {
      ContainedChars(s[1..], t);
      assert forall d :: d in s[1..] ==> d in s;
    }
  }

  /** Retry is suggested for network and server errors and for nothing else. */
  lemma RetryKinds(e: AppError)
    ensures ShouldRetry(e) <==> e.kind == Network || e.kind == Server
    ensures ShouldRetry(e) ==> !ShouldRedirectToLogin(e)
  {
  }

  /** A 401 sends the user to the login page. */
  lemma UnauthorizedRedirects(x: ErrorObject)
    requires !DivertedTypeError(x) && x.status == Some(401)
    ensures ParseApiError(Some(x)).Some? && ShouldRedirectToLogin(ParseApiError(Some(x)).value)
  {
    var e := ParseApiError(Some(x)).value;
    assert e == AppError(Auth, "You need to sign in to continue", None, None);
    assert OccursAt(e.message, "sign in", 12);
    ContainsIff(e.message, "sign in");
  }

  /** The 403 message, in words. */
  lemma ForbiddenMessageWords()
    ensures "You don't have permission to perform this action"
         == "You don't " + "have " + "permission " + "to perform " + "this action"
  {
  }

  /** The 403 message has no 'g' and no 'z'. */
  lemma ForbiddenMessageLetters()
    ensures 'g' !in "You don't have permission to perform this action"
    ensures 'z' !in "You don't have permission to perform this action"
  {
    ForbiddenMessageWords();
    assert 'g' !in "You don't " && 'z' !in "You don't ";
    assert 'g' !in "have " && 'z' !in "have ";
    assert 'g' !in "permission " && 'z' !in "permission ";
    assert 'g' !in "to perform " && 'z' !in "to perform ";
    assert 'g' !in "this action" && 'z' !in "this action";
  }

  /** Any other TypeError goes through the status checks: Safari's failed fetch, "Load failed",
      without a status is an unknown error and no retry is suggested. */
  lemma LoadFailedUnknown(x: ErrorObject)
    requires x == ErrorObject(Some("TypeError"), Some("Load failed"), None, None, None, None)
    ensures ParseApiError(Some(x)) == Some(AppError(Unknown, "Load failed", None, None))
    ensures !ShouldRetry(ParseApiError(Some(x)).value)
  {
    assert "fetch"[4] == 'h';
    assert 'h' !in "Load failed";
    MissingChar("Load failed", "fetch", 'h');
  }

  /** A string lacking a character of `t` does not contain `t`. */
  lemma MissingChar(s: string, t: string, c: char)
    requires c in t && c !in s
    ensures !Contains(s, t)
  {
    ContainedChars(s, t);
  }

  /** An auth error without a code whose message lacks 'g' and 'z' mentions neither "sign in" nor
      "unauthorized", so it does not redirect. */
  lemma NoLoginWords(e: AppError)
    requires e.code.None? && 'g' !in e.message && 'z' !in e.message
    ensures !ShouldRedirectToLogin(e)
  {
    assert "sign in"[2] == 'g';
    MissingChar(e.message, "sign in", 'g');
    assert "unauthorized"[9] == 'z';
    MissingChar(e.message, "unauthorized", 'z');
  }

  /** A 403 does not: its message mentions neither signing in nor being unauthorized. */
  lemma ForbiddenDoesNotRedirect(x: ErrorObject)
    requires !DivertedTypeError(x) && x.status == Some(403)
    ensures ParseApiError(Some(x)).Some? && !ShouldRedirectToLogin(ParseApiError(Some(x)).value)
  {
    var e := ParseApiError(Some(x)).value;
    assert e == AppError(Auth, "You don't have permission to perform this action", None, None);
    ForbiddenMessageLetters();
    NoLoginWords(e);
  }
}
