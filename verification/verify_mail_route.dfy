/** `POST /api/users/verifymail`: maps `verifyEmailToken` to 200 or 400. */
module VerifyMailRoute {
  import opened Wrappers
  import opened UserModel
  import opened UserService
  import opened Http

  /** Reads only the token from the body; no cookie parameter exists. */
  function Post(s: Store, token: string, now: int): (o: Outcome)
    ensures o.response.status == 200 <==> exists i :: 0 <= i < |s| && Redeemable(s[i].verify, token, now)
    ensures o.response.status == 200 ==>
      && o.response == Json(200, Success("Email verified successfully"))
      && ByVerifyToken(s, token, now).Some?
      && var i := ByVerifyToken(s, token, now).value;
      && |o.store| == |s|
      && o.store[i] == s[i].(isVerified := true, verify := None)
      && (forall j :: 0 <= j < |s| && j != i ==> o.store[j] == s[j])
    ensures o.response.status != 200 ==> o == Outcome(Json(400, Failure(InvalidOrExpired)), s)
    ensures Valid(s) ==> Valid(o.store)
  {
    var r := VerifyEmailToken(s, token, now);
    match r.result
    case Ok(_) => Outcome(Json(200, Success("Email verified successfully")), r.store)
    case Err(e) => Outcome(Json(400, Failure(e)), r.store)
  }

  /** Replaying a token, held by one record, after a successful verification gives 400. */
  lemma ReplayRejected(s: Store, token: string, now: int, later: int)
    requires Post(s, token, now).response.status == 200
    requires VerifyTokenHeldOnce(s, token)
    ensures Post(Post(s, token, now).store, token, later).response == Json(400, Failure(InvalidOrExpired))
  {
    VerifyReplayFails(s, token, now, later);
  }
}
