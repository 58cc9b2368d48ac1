/** `GET /api/users/logout`: clears the session cookie. */
module LogoutRoute {
  import opened Wrappers
  import opened Http

  /**
   * Takes neither the collection nor the request: the response is the same
   * for every caller, and whatever cookie the client held is gone afterwards.
   */
  function Get(): (r: Response)
    ensures r.status == 200 && r.body == Success("Logout successful")
    ensures r.setCookie.Some? && r.setCookie.value.value == Blank
    ensures r.setCookie.value.httpOnly && r.setCookie.value.maxAge == 0
    ensures forall jar, now, later :: now <= later ==> Send(Receive(jar, r, now), later).None?
  {
    Response(200, Success("Logout successful"), Some(SetCookie(Blank, true, 0)))
  }
}
