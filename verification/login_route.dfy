/** `POST /api/users/login`: credential check and session-cookie issuance. */
module LoginRoute {
  import opened Wrappers
  import opened Crypto
  import opened UserModel
  import opened Http

  const InvalidCredentials: string := "Invalid username or password"

  /** Lifetime of the session cookie, in seconds (`maxAge: 3600`). */
  const CookieMaxAge: int := 3600

  /** The single response for both an unknown username and a wrong password. */
  const Rejected: Response := Json(401, Message(InvalidCredentials))

  /** The credentials are accepted: the first record with this exact username has a matching digest. */
  predicate Accepts(s: Store, username: string, password: string) {
    ByUsername(s, username).Some? && Matches(password, s[ByUsername(s, username).value].password)
  }

  function Post(s: Store, username: string, password: string, now: int): (o: Outcome)
    ensures o.store == s
    ensures o.response.status == 200 || o.response == Rejected
    ensures o.response.status == 200 <==> Accepts(s, username, password)
    ensures o.response.status == 200 ==>
      var u := s[ByUsername(s, username).value];
      && o.response.body == Success("Login successful")
      && o.response.setCookie == Some(SetCookie(Bearer(Sign(u.id, u.username, now)), true, CookieMaxAge))
  {
    match ByUsername(s, username)
    case None => Outcome(Rejected, s)
    case Some(i) =>
      if !Matches(password, s[i].password) then Outcome(Rejected, s)
      else
        var session := Sign(s[i].id, s[i].username, now);
        Outcome(Response(200, Success("Login successful"), Some(SetCookie(Bearer(session), true, CookieMaxAge))), s)
  }

  /** In a valid collection, login succeeds exactly when some record has this username and password. */
  lemma AcceptsIff(s: Store, username: string, password: string)
    requires Valid(s)
    ensures Accepts(s, username, password)
        <==> exists i :: 0 <= i < |s| && s[i].username == username && Matches(password, s[i].password)
  {
    if i :| 0 <= i < |s| && s[i].username == username && Matches(password, s[i].password) {
      UniqueUsername(s, i);
    }
  }

  /** The verification flag is never consulted: flipping it changes no login response. */
  lemma IgnoresVerification(s: Store, i: nat, b: bool, username: string, password: string, now: int)
    requires i < |s|
    ensures Post(s[i := s[i].(isVerified := b)], username, password, now).response
         == Post(s, username, password, now).response
  {
    var s' := s[i := s[i].(isVerified := b)];
    FindFirstAgrees(s, (u: User) => u.username == username, s', (u: User) => u.username == username);
  }
}
