/** `POST /api/users/resetpassword`: maps `resetPassword` to 200 or 400. */
module ResetPasswordRoute {
  import opened Wrappers
  import opened Crypto
  import opened UserModel
  import opened UserService
  import opened Http

  /** No length rule applies to `newPassword` on this path. */
  function Post(s: Store, token: string, newPassword: string, now: int): (o: Outcome)
    ensures o.response.status == 200 <==> exists i :: 0 <= i < |s| && Redeemable(s[i].reset, token, now)
    ensures o.response.status == 200 ==>
      && o.response == Json(200, Success("Pasword Reset successfully"))
      && ByResetToken(s, token, now).Some?
      && |o.store| == |s|
      && var i := ByResetToken(s, token, now).value;
      && o.store[i] == s[i].(password := o.store[i].password, reset := None)
      && (forall p :: Matches(p, o.store[i].password) <==> SameKey(p, newPassword))
      && (forall j :: 0 <= j < |s| && j != i ==> o.store[j] == s[j])
    ensures o.response.status != 200 ==> o == Outcome(Json(400, Failure(InvalidOrExpired)), s)
    ensures Valid(s) ==> Valid(o.store)
  {
    var r := ResetPassword(s, token, newPassword, now);
    match r.result
    case Ok(_) => Outcome(Json(200, Success("Pasword Reset successfully")), r.store)
    case Err(e) => Outcome(Json(400, Failure(e)), r.store)
  }

  /** Replaying a reset token, held by one record, after a successful reset gives 400. */
  lemma ReplayRejected(s: Store, token: string, p: string, q: string, now: int, later: int)
    requires Post(s, token, p, now).response.status == 200
    requires ResetTokenHeldOnce(s, token)
    ensures Post(Post(s, token, p, now).store, token, q, later).response == Json(400, Failure(InvalidOrExpired))
  {
    ResetReplayFails(s, token, p, q, now, later);
  }
}
