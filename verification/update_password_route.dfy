/** `PUT /api/users/updatepassword`: replaces the password of the signed-in user. */
module UpdatePasswordRoute {
  import opened Wrappers
  import opened Crypto
  import opened UserModel
  import opened Http

  const Unauthorized: string := "Unauthorized"
  const Required: string := "Current password and new password are required"
  const TooShort: string := "New password must be at least 6 characters long"
  const Incorrect: string := "Current password is incorrect"

  /** Shortest accepted new password. */
  const MinLength: int := 6

  /**
   * The guards run in this order: session, presence of both passwords,
   * length of the new one, lookup of the session's user, current password.
   * An absent JSON field and the empty string are both falsy, so `""`
   * stands for both.
   */
  function Put(s: Store, cookie: Cookie, password: string, newPassword: string, now: int): (o: Outcome)
    ensures o.response.status != 200 ==> o.store == s
    ensures o.response == Json(401, Message(Unauthorized)) <==> Authenticate(cookie, now).None?
    ensures o.response == Json(400, Message(Required)) <==>
      Authenticate(cookie, now).Some? && (password == "" || newPassword == "")
    ensures o.response == Json(400, Message(TooShort)) <==>
      Authenticate(cookie, now).Some? && password != "" && newPassword != "" && |newPassword| < MinLength
    ensures o.response == Json(404, Message(UserNotFound)) <==>
      && Authenticate(cookie, now).Some? && password != "" && |newPassword| >= MinLength
      && ById(s, cookie.value.session.id).None?
    ensures o.response == Json(401, Message(Incorrect)) <==>
      && Authenticate(cookie, now).Some? && password != "" && |newPassword| >= MinLength
      && ById(s, cookie.value.session.id).Some?
      && !Matches(password, s[ById(s, cookie.value.session.id).value].password)
    ensures o.response.status == 200 <==>
      && Authenticate(cookie, now).Some? && password != "" && |newPassword| >= MinLength
      && ById(s, cookie.value.session.id).Some?
      && Matches(password, s[ById(s, cookie.value.session.id).value].password)
    ensures o.response.status == 200 ==>
      && o.response == Json(200, Success("Password updated successfully"))
      && ById(s, cookie.value.session.id).Some?
      && var i := ById(s, cookie.value.session.id).value;
      && Matches(password, s[i].password)
      && |o.store| == |s|
      && o.store[i] == s[i].(password := o.store[i].password)
      && (forall p :: Matches(p, o.store[i].password) <==> SameKey(p, newPassword))
      && (forall j :: 0 <= j < |s| && j != i ==> o.store[j] == s[j])
    ensures o.response.status in {200, 400, 401, 404}
    ensures Valid(s) ==> Valid(o.store)
  {
    match Authenticate(cookie, now)
    case None => Outcome(Json(401, Message(Unauthorized)), s)
    case Some(session) =>
      if password == "" || newPassword == "" then Outcome(Json(400, Message(Required)), s)
      else if |newPassword| < MinLength then Outcome(Json(400, Message(TooShort)), s)
      else match ById(s, session.id)
        case None => Outcome(Json(404, Message(UserNotFound)), s)
        case Some(i) =>
          if !Matches(password, s[i].password) then Outcome(Json(401, Message(Incorrect)), s)
          else
            var u := s[i].(password := Hash(newPassword));
            UpdateKeepsValid(s, i, u);
            Outcome(Json(200, Success("Password updated successfully")), s[i := u])
  }
}
