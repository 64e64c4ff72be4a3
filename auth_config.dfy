/** The route gate of the sign-in configuration (auth.config.ts): a pure
    decision over the request's path and whether its session carries a user. */
module AuthConfig {
  import opened Schema

  /** `pages.signIn`: where a refused request is sent. */
  const SIGN_IN_PAGE := "/login"
  /** Paths that start with this text need a signed-in user. */
  const DASHBOARD_PREFIX := "/dashboard"

  /** The user a signed session token carries. */
  datatype SessionUser = SessionUser(name: Option<string>, email: Option<string>)

  /** A decoded session; its `user` may be missing. */
  datatype Session = Session(user: Option<SessionUser>)

  /** `!!auth?.user`: a session without a user is not logged in. */
  predicate IsLoggedIn(auth: Option<Session>) {
    auth.Some? && auth.value.user.Some?
  }

  /** `pathname.startsWith('/dashboard')`: a plain text prefix, not a path
      segment. */
  predicate IsOnDashboard(pathname: string) {
    DASHBOARD_PREFIX <= pathname
  }

  /** `callbacks.authorized`: refuses exactly the dashboard paths requested
      without a logged-in user. */
  function Authorized(auth: Option<Session>, pathname: string): (allowed: bool)
    ensures !allowed <==> IsOnDashboard(pathname) && !IsLoggedIn(auth)
  {
    var isLoggedIn := IsLoggedIn(auth);
    var isOnDashboard := IsOnDashboard(pathname);
    if isOnDashboard then
      if isLoggedIn then true else false
    else
      true
  }

  datatype Decision = Proceed | RedirectTo(page: string)

  /** What the framework does with the answer: a refused request is sent to
      the sign-in page, any other goes on to the page it asked for. */
  function Gate(auth: Option<Session>, pathname: string): (d: Decision)
    ensures d.Proceed? || d == RedirectTo(SIGN_IN_PAGE)
    ensures d == RedirectTo(SIGN_IN_PAGE) <==> IsOnDashboard(pathname) && !IsLoggedIn(auth)
  {
    if Authorized(auth, pathname) then Proceed else RedirectTo(SIGN_IN_PAGE)
  }

  /** Signing in never turns an allowed path into a refused one. */
  lemma AuthorizedIsMonotone(before: Option<Session>, after: Option<Session>, pathname: string)
    requires IsLoggedIn(before) ==> IsLoggedIn(after)
    requires Authorized(before, pathname)
    ensures Authorized(after, pathname)
  {
  }

  /** The prefix test protects more than the `/dashboard` tree, and leaves
      every other path open. */
  lemma PrefixExamples()
    ensures !Authorized(None, "/dashboardx") && !Authorized(None, "/dashboard-foo")
    ensures !Authorized(None, "/dashboard") && !Authorized(None, "/dashboard/invoices")
    ensures Authorized(None, "/") && Authorized(None, SIGN_IN_PAGE)
    ensures Authorized(None, "/Dashboard")
  {
    assert DASHBOARD_PREFIX <= "/dashboardx";
    assert DASHBOARD_PREFIX <= "/dashboard-foo";
    assert DASHBOARD_PREFIX <= "/dashboard/invoices";
    assert "/Dashboard"[1] != DASHBOARD_PREFIX[1];
  }

  /** A session whose `user` is missing is treated like no session at all. */
  lemma SessionWithoutUserIsLoggedOut(pathname: string)
    ensures Authorized(Some(Session(None)), pathname) == Authorized(None, pathname)
  {
  }
}
