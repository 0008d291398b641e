/**
 * The request middleware (src/middleware.ts): which paths skip the session
 * check, and what happens to the rest.
 */
module Middleware {
  import opened Strings

  /** Static assets, API routes, auth pages, the home page and the about page. */
  predicate IsExempt(path: string) {
    || StartsWith(path, "/_next")
    || StartsWith(path, "/api/")
    || Contains(path, ".")
    || StartsWith(path, "/auth/")
    || path == "/"
    || path == "/about"
  }

  /** The outcome of creating the server client and reading the session. */
  datatype SessionCheck = HasSession | NoSession | CheckThrew

  datatype Decision =
    | Next                          // NextResponse.next() without touching the session
    | ContinueWithSession           // the response the Supabase client may have refreshed cookies on
    | Redirect(location: string)    // NextResponse.redirect

  const LoginPath := "/auth/login"

  function Decide(path: string, check: SessionCheck): Decision {
    if IsExempt(path) then Next
    else match check
      case HasSession => ContinueWithSession
      case NoSession => Redirect(LoginPath)
      case CheckThrew => Redirect(LoginPath)
  }

  /**
   * An exempt path is never checked.  Any other path goes on iff there is a
   * session; a missing session and a failing check both send the visitor to
   * the login page.
   */
  lemma DecisionIsSessionGate(path: string, check: SessionCheck)
    ensures IsExempt(path) ==> Decide(path, check) == Next
    ensures !IsExempt(path) ==> (Decide(path, check) == ContinueWithSession <==> check == HasSession)
    ensures !IsExempt(path) && check != HasSession ==> Decide(path, check) == Redirect("/auth/login")
  {
  }

  /**
   * Where the boundaries fall.  '/' and '/about' are exempt as exact paths
   * only.  '/api' needs its slash.  Anything with a dot is exempt as an
   * asset, wherever the dot is.
   */
  lemma ExemptionBoundaries()
    ensures IsExempt("/") && IsExempt("/about") && IsExempt("/auth/login") && IsExempt("/api/socket")
    ensures IsExempt("/_next/static") && IsExempt("/favicon.ico") && IsExempt("/room/a.b")
    ensures !IsExempt("/api") && !IsExempt("/about/x") && !IsExempt("/profile")
  {
    assert OccursAt("/favicon.ico", ".", 8);
    assert OccursAt("/room/a.b", ".", 7);
    NoDot("/api");
    NoDot("/about/x");
    assert "/about/x"[..6][2] == 'b';
    NoDot("/profile");
  }

  lemma NoDot(s: string)
    requires forall k :: 0 <= k < |s| ==> s[k] != '.'
    ensures !Contains(s, ".")
  {
    forall i | 0 <= i <= |s| ensures !OccursAt(s, ".", i) {
      if i < |s| {
        assert s[i..i + 1][0] == s[i];
      }
    }
  }
}
