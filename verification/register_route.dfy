/** `POST /api/users/register`: the duplicate-email guard and user creation. */
module RegisterRoute {
  import opened Wrappers
  import opened Crypto
  import opened UserModel
  import opened Http

  const AlreadyExists: string := "User already exists"

  /**
   * `newUser.save()` succeeds: both required strings are non-empty and no
   * stored record has the username (the unique index on `username`).
   */
  predicate Saves(s: Store, username: string, email: string) {
    username != "" && email != "" && ByUsername(s, username).None?
  }

  function Post(s: Store, username: string, email: string, password: string, now: int): (o: Outcome)
    ensures ByEmail(s, email).Some? ==> o == Outcome(Json(400, Message(AlreadyExists)), s)
    ensures o.response.status == 201 <==> ByEmail(s, email).None? && Saves(s, username, email)
    ensures ByEmail(s, email).None? && !Saves(s, username, email) ==>
      o == Outcome(Json(500, Message(InternalServerError)), s)
    ensures o.response.status == 201 ==>
      && o.response == Json(201, Success("User registered successfully"))
      && |o.store| == |s| + 1
      && o.store[..|s|] == s
      && var u := o.store[|s|];
      && u.username == username && u.email == email
      && (forall p :: Matches(p, u.password) <==> SameKey(p, password))
      && u.createdAt == now
      && !u.isVerified && u.verify.None? && u.reset.None?
      && (forall j :: 0 <= j < |s| ==> s[j].id != u.id)
    ensures Valid(s) ==> Valid(o.store)
  {
    if ByEmail(s, email).Some? then Outcome(Json(400, Message(AlreadyExists)), s)
    else if !Saves(s, username, email) then Outcome(Json(500, Message(InternalServerError)), s)
    else
      var u := NewUser(NextId(s), username, email, Hash(password), now);
      assert (s + [u])[..|s|] == s;
      Outcome(Json(201, Success("User registered successfully")), s + [u])
  }
}
