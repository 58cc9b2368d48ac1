/** `GET /api/auth/status`: reports whether a session cookie is present. */
module AuthStatusRoute {
  import opened Wrappers
  import opened Http

  /** Reads the cookie only: no store, no clock, no signature or expiry check. */
  function Get(cookie: Cookie): (r: Response)
    ensures r.status == 200 && r.setCookie.None? && r.body.LoginState?
    ensures r.body.isLoggedIn <==> Present(cookie)
  {
    Json(200, LoginState(Present(cookie)))
  }
}
