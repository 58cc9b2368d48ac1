/**
 * The token lifecycle over the user collection: issuing verification and
 * password-reset tokens, redeeming them, and replacing the password with a
 * redeemed reset token. Every operation is one sequential step from a store
 * to a store; `now` is the millisecond clock reading of that step, and the
 * fresh token value is a parameter (its derivation does not affect behaviour).
 */
module UserService {
  import opened Wrappers
  import opened Crypto
  import opened UserModel

  const InvalidOrExpired: string := "Invalid or expired token"

  /** What dereferencing the missing record throws when no user has the email. */
  const NoUserForVerify: string := "Cannot read properties of null (reading 'verifyTokenExpiry')"
  const NoUserForReset: string := "Cannot read properties of null (reading 'forgetPasswordTokenExpiry')"

  /** The `{token, expiresAt}` pair returned by the two issuing functions. */
  datatype Issued = Issued(token: string, expiresAt: int)

  /** The collection after one operation, and what the operation returned or threw. */
  datatype Step<T> = Step(store: Store, result: Result<T>)

  /** The slot holds this token value, expired or not. */
  predicate Holds(slot: Option<Slot>, token: string) {
    slot.Some? && slot.value.token == token
  }

  /** At most one record holds `token` in its verification slot. */
  predicate VerifyTokenHeldOnce(s: Store, token: string) {
    forall j, k :: 0 <= j < |s| && 0 <= k < |s| && Holds(s[j].verify, token) && Holds(s[k].verify, token) ==> j == k
  }

  /** At most one record holds `token` in its reset slot. */
  predicate ResetTokenHeldOnce(s: Store, token: string) {
    forall j, k :: 0 <= j < |s| && 0 <= k < |s| && Holds(s[j].reset, token) && Holds(s[k].reset, token) ==> j == k
  }

  /**
   * `createVerificationToken(email)`: `findOneAndUpdate({email}, ...)` writes
   * `(token, now + 120000)` into the first matching record's verification
   * slot; with no match the update writes nothing and reading the expiry of
   * the null result throws.
   */
  function CreateVerificationToken(s: Store, email: string, token: string, now: int): (r: Step<Issued>)
    ensures r.result.Ok? <==> exists i :: 0 <= i < |s| && s[i].email == email
    ensures r.result.Err? ==> r.store == s && r.result.message == NoUserForVerify
    ensures r.result.Ok? ==>
      && r.result.value == Issued(token, now + TokenLifetime)
      && ByEmail(s, email).Some?
      && var i := ByEmail(s, email).value;
      && |r.store| == |s|
      && r.store[i].verify == Some(Slot(token, now + TokenLifetime))
      && r.store[i] == s[i].(verify := r.store[i].verify)
      && (forall j :: 0 <= j < |s| && j != i ==> r.store[j] == s[j])
    ensures Valid(s) ==> Valid(r.store)
  {
    match ByEmail(s, email)
    case None => Step(s, Err(NoUserForVerify))
    case Some(i) =>
      var expiresAt := now + TokenLifetime;
      UpdateKeepsValid(s, i, s[i].(verify := Some(Slot(token, expiresAt))));
      Step(s[i := s[i].(verify := Some(Slot(token, expiresAt)))], Ok(Issued(token, expiresAt)))
  }

  /** `createPasswordResetToken(email)`: the same as above, on the reset slot. */
  function CreatePasswordResetToken(s: Store, email: string, token: string, now: int): (r: Step<Issued>)
    ensures r.result.Ok? <==> exists i :: 0 <= i < |s| && s[i].email == email
    ensures r.result.Err? ==> r.store == s && r.result.message == NoUserForReset
    ensures r.result.Ok? ==>
      && r.result.value == Issued(token, now + TokenLifetime)
      && ByEmail(s, email).Some?
      && var i := ByEmail(s, email).value;
      && |r.store| == |s|
      && r.store[i].reset == Some(Slot(token, now + TokenLifetime))
      && r.store[i] == s[i].(reset := r.store[i].reset)
      && (forall j :: 0 <= j < |s| && j != i ==> r.store[j] == s[j])
    ensures Valid(s) ==> Valid(r.store)
  {
    match ByEmail(s, email)
    case None => Step(s, Err(NoUserForReset))
    case Some(i) =>
      var expiresAt := now + TokenLifetime;
      UpdateKeepsValid(s, i, s[i].(reset := Some(Slot(token, expiresAt))));
      Step(s[i := s[i].(reset := Some(Slot(token, expiresAt)))], Ok(Issued(token, expiresAt)))
  }

  /**
   * `verifyEmailToken(token)`: the first record whose verification slot holds
   * `token` with an expiry strictly after `now` becomes verified and loses
   * its verification token; with no such record nothing changes.
   */
  function VerifyEmailToken(s: Store, token: string, now: int): (r: Step<User>)
    ensures r.result.Ok? <==> exists i :: 0 <= i < |s| && Redeemable(s[i].verify, token, now)
    ensures r.result.Err? ==> r.store == s && r.result.message == InvalidOrExpired
    ensures r.result.Ok? ==>
      && ByVerifyToken(s, token, now).Some?
      && var i := ByVerifyToken(s, token, now).value;
      && |r.store| == |s|
      && r.store[i] == r.result.value
      && r.result.value == s[i].(isVerified := true, verify := None)
      && (forall j :: 0 <= j < |s| && j != i ==> r.store[j] == s[j])
    ensures Valid(s) ==> Valid(r.store)
  {
    match ByVerifyToken(s, token, now)
    case None => Step(s, Err(InvalidOrExpired))
    case Some(i) =>
      var u := s[i].(isVerified := true, verify := None);
      UpdateKeepsValid(s, i, u);
      Step(s[i := u], Ok(u))
  }

  /**
   * `verifyPasswordResetToken(token)`: returns the first record whose reset
   * slot holds `token` unexpired. It returns no store: it cannot write.
   */
  function VerifyPasswordResetToken(s: Store, token: string, now: int): (r: Result<User>)
    ensures r.Ok? <==> exists i :: 0 <= i < |s| && Redeemable(s[i].reset, token, now)
    ensures r.Err? ==> r.message == InvalidOrExpired
    ensures r.Ok? ==> ByResetToken(s, token, now).Some? && r.value == s[ByResetToken(s, token, now).value]
  {
    match ByResetToken(s, token, now)
    case None => Err(InvalidOrExpired)
    case Some(i) => Ok(s[i])
  }

  /**
   * `resetPassword(token, newPassword)`: redeems the reset token, stores a
   * digest of the new password and clears the reset slot; an invalid or
   * expired token propagates its error and changes nothing.
   */
  function ResetPassword(s: Store, token: string, newPassword: string, now: int): (r: Step<User>)
    ensures r.result.Ok? <==> VerifyPasswordResetToken(s, token, now).Ok?
    ensures r.result.Err? ==> r.store == s && r.result.message == InvalidOrExpired
    ensures r.result.Ok? ==>
      && ByResetToken(s, token, now).Some?
      && var i := ByResetToken(s, token, now).value;
      && |r.store| == |s|
      && r.store[i] == r.result.value
      && r.result.value == s[i].(password := r.result.value.password, reset := None)
      && (forall p :: Matches(p, r.result.value.password) <==> SameKey(p, newPassword))
      && (forall j :: 0 <= j < |s| && j != i ==> r.store[j] == s[j])
    ensures Valid(s) ==> Valid(r.store)
  {
    match VerifyPasswordResetToken(s, token, now)
    case Err(e) => Step(s, Err(e))
    case Ok(_) =>
      var i := ByResetToken(s, token, now).value;
      var u := s[i].(password := Hash(newPassword), reset := None);
      UpdateKeepsValid(s, i, u);
      Step(s[i := u], Ok(u))
  }

  /**
   * A freshly issued verification token, held by no other record, can be
   * redeemed exactly while the clock is strictly before its expiry, and it
   * verifies the record it was issued to.
   */
  lemma VerificationTokenWindow(s: Store, email: string, t: string, issuedAt: int, now: int)
    requires ByEmail(s, email).Some?
    requires forall j :: 0 <= j < |s| && j != ByEmail(s, email).value ==> !Holds(s[j].verify, t)
    ensures var s1 := CreateVerificationToken(s, email, t, issuedAt).store;
      && (VerifyEmailToken(s1, t, now).result.Ok? <==> now < issuedAt + TokenLifetime)
      && (now < issuedAt + TokenLifetime ==> ByVerifyToken(s1, t, now) == ByEmail(s, email))
  {
    var i := ByEmail(s, email).value;
    var s1 := CreateVerificationToken(s, email, t, issuedAt).store;
    assert s1[i].verify == Some(Slot(t, issuedAt + TokenLifetime));
    if now < issuedAt + TokenLifetime {
      assert Redeemable(s1[i].verify, t, now);
    } else {
      forall k | 0 <= k < |s1| ensures !Redeemable(s1[k].verify, t, now) {
        if k != i {
          assert s1[k] == s[k];
        }
      }
    }
  }

  /** The same window for a freshly issued password-reset token. */
  lemma ResetTokenWindow(s: Store, email: string, t: string, issuedAt: int, now: int)
    requires ByEmail(s, email).Some?
    requires forall j :: 0 <= j < |s| && j != ByEmail(s, email).value ==> !Holds(s[j].reset, t)
    ensures var s1 := CreatePasswordResetToken(s, email, t, issuedAt).store;
      && (VerifyPasswordResetToken(s1, t, now).Ok? <==> now < issuedAt + TokenLifetime)
      && (now < issuedAt + TokenLifetime ==> ByResetToken(s1, t, now) == ByEmail(s, email))
  {
    var i := ByEmail(s, email).value;
    var s1 := CreatePasswordResetToken(s, email, t, issuedAt).store;
    assert s1[i].reset == Some(Slot(t, issuedAt + TokenLifetime));
    if now < issuedAt + TokenLifetime {
      assert Redeemable(s1[i].reset, t, now);
    } else {
      forall k | 0 <= k < |s1| ensures !Redeemable(s1[k].reset, t, now) {
        if k != i {
          assert s1[k] == s[k];
        }
      }
    }
  }

  /** A verification token held by one record is single-use: a second redemption fails, at any later time. */
  lemma VerifyReplayFails(s: Store, t: string, now: int, later: int)
    requires VerifyEmailToken(s, t, now).result.Ok?
    requires VerifyTokenHeldOnce(s, t)
    ensures VerifyEmailToken(VerifyEmailToken(s, t, now).store, t, later).result == Err(InvalidOrExpired)
  {
    var i := ByVerifyToken(s, t, now).value;
    var s1 := VerifyEmailToken(s, t, now).store;
    forall k | 0 <= k < |s1| ensures !Redeemable(s1[k].verify, t, later) {
      if k != i {
        assert s1[k] == s[k];
        assert Holds(s[i].verify, t);
      }
    }
  }

  /** A reset token held by one record is single-use: a second password reset with it fails. */
  lemma ResetReplayFails(s: Store, t: string, p: string, q: string, now: int, later: int)
    requires ResetPassword(s, t, p, now).result.Ok?
    requires ResetTokenHeldOnce(s, t)
    ensures ResetPassword(ResetPassword(s, t, p, now).store, t, q, later).result == Err(InvalidOrExpired)
  {
    var i := ByResetToken(s, t, now).value;
    var s1 := ResetPassword(s, t, p, now).store;
    forall k | 0 <= k < |s1| ensures !Redeemable(s1[k].reset, t, later) {
      if k != i {
        assert s1[k] == s[k];
        assert Holds(s[i].reset, t);
      }
    }
  }

  /**
   * Issuing a second verification token to the same email overwrites the
   * first: the earlier value, held by no other record, can no longer be redeemed.
   */
  lemma NewerVerificationTokenSupersedes(s: Store, email: string, t1: string, t2: string, n1: int, n2: int, now: int)
    requires ByEmail(s, email).Some?
    requires t1 != t2
    requires forall j :: 0 <= j < |s| && j != ByEmail(s, email).value ==> !Holds(s[j].verify, t1)
    ensures var s1 := CreateVerificationToken(s, email, t1, n1).store;
      VerifyEmailToken(CreateVerificationToken(s1, email, t2, n2).store, t1, now).result.Err?
  {
    var i := ByEmail(s, email).value;
    var s1 := CreateVerificationToken(s, email, t1, n1).store;
    ByEmailStable(s, s1, email);
    var s2 := CreateVerificationToken(s1, email, t2, n2).store;
    forall k | 0 <= k < |s2| ensures !Redeemable(s2[k].verify, t1, now) {
      if k != i {
        assert s2[k] == s1[k] == s[k];
      }
    }
  }

  /** The same supersession for password-reset tokens. */
  lemma NewerResetTokenSupersedes(s: Store, email: string, t1: string, t2: string, n1: int, n2: int, now: int)
    requires ByEmail(s, email).Some?
    requires t1 != t2
    requires forall j :: 0 <= j < |s| && j != ByEmail(s, email).value ==> !Holds(s[j].reset, t1)
    ensures var s1 := CreatePasswordResetToken(s, email, t1, n1).store;
      VerifyPasswordResetToken(CreatePasswordResetToken(s1, email, t2, n2).store, t1, now).Err?
  {
    var i := ByEmail(s, email).value;
    var s1 := CreatePasswordResetToken(s, email, t1, n1).store;
    ByEmailStable(s, s1, email);
    var s2 := CreatePasswordResetToken(s1, email, t2, n2).store;
    forall k | 0 <= k < |s2| ensures !Redeemable(s2[k].reset, t1, now) {
      if k != i {
        assert s2[k] == s1[k] == s[k];
      }
    }
  }
}
