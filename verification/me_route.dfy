/** `GET /api/users/me`: the cookie, verification and lookup guard chain. */
module MeRoute {
  import opened Wrappers
  import opened Crypto
  import opened UserModel
  import opened Http

  function Get(s: Store, cookie: Cookie, now: int): (o: Outcome)
    ensures o.store == s
    ensures !Present(cookie) ==> o.response == Json(401, Message("Unauthorized"))
    ensures Present(cookie) && !Verify(cookie.value.session, now) ==>
      o.response == Json(401, Message("Invalid token"))
    ensures o.response.status == 404 <==>
      Authenticate(cookie, now).Some? && ById(s, cookie.value.session.id).None?
    ensures o.response.status == 404 ==> o.response == Json(404, Message(UserNotFound))
    ensures o.response.status == 200 <==>
      Authenticate(cookie, now).Some? && ById(s, cookie.value.session.id).Some?
    ensures o.response.status == 200 ==>
      o.response == Json(200, Profile(WithoutPassword(s[ById(s, cookie.value.session.id).value])))
  {
    if !Present(cookie) then Outcome(Json(401, Message("Unauthorized")), s)
    else if !Verify(cookie.value.session, now) then Outcome(Json(401, Message("Invalid token")), s)
    else match ById(s, cookie.value.session.id)
      case None => Outcome(Json(404, Message(UserNotFound)), s)
      case Some(i) => Outcome(Json(200, Profile(WithoutPassword(s[i]))), s)
  }
}
