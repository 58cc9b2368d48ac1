/**
 * Properties that span several handlers: what one request leaves behind,
 * read back through another.
 */
module Flows {
  import opened Wrappers
  import opened Crypto
  import opened UserModel
  import opened UserService
  import opened Http
  import LoginRoute
  import RegisterRoute
  import LogoutRoute
  import MeRoute
  import AuthStatusRoute
  import UpdatePasswordRoute
  import VerifyMailRoute
  import ResetPasswordRoute
  import ForgotPasswordRoute
  import Proxy
  import PendingVerificationPage
  import ResetPasswordPage
  import Mailer

  /** A freshly registered, still unverified user can log in with the password given at registration. */
  lemma RegisterThenLogin(s: Store, username: string, email: string, password: string, now: int, later: int)
    requires Valid(s)
    requires RegisterRoute.Post(s, username, email, password, now).response.status == 201
    ensures var s1 := RegisterRoute.Post(s, username, email, password, now).store;
      && !s1[|s|].isVerified
      && LoginRoute.Post(s1, username, password, later).response.status == 200
  {
    var s1 := RegisterRoute.Post(s, username, email, password, now).store;
    UniqueUsername(s1, |s|);
  }

  /**
   * After a successful password update, logging in as that user works with
   * the new password, and with the old one exactly when bcrypt cannot tell
   * the two apart; otherwise the old one gets the single rejection.
   */
  lemma UpdatePasswordRoundTrip(s: Store, cookie: Cookie, current: string, next: string, now: int, later: int)
    requires Valid(s)
    requires UpdatePasswordRoute.Put(s, cookie, current, next, now).response.status == 200
    ensures var o := UpdatePasswordRoute.Put(s, cookie, current, next, now);
      var name := s[ById(s, cookie.value.session.id).value].username;
      && LoginRoute.Post(o.store, name, next, later).response.status == 200
      && (LoginRoute.Post(o.store, name, current, later).response.status == 200 <==> SameKey(current, next))
      && (!SameKey(current, next) ==> LoginRoute.Post(o.store, name, current, later).response == LoginRoute.Rejected)
  {
    var o := UpdatePasswordRoute.Put(s, cookie, current, next, now);
    var i := ById(s, cookie.value.session.id).value;
    UniqueUsername(o.store, i);
  }

  /**
   * After a logout response, whatever cookie the client held: at any later
   * instant the status route reports logged out, the gate sends `/profile`
   * to the login page, and `/api/users/me` answers 401.
   */
  lemma LogoutLogsOut(s: Store, jar: Jar, t: int, now: int)
    requires t <= now
    ensures var c := Send(Receive(jar, LogoutRoute.Get(), t), now);
      && !AuthStatusRoute.Get(c).body.isLoggedIn
      && Proxy.Gate("/profile", c) == Proxy.Redirect("/login")
      && MeRoute.Get(s, c, now).response == Json(401, Message("Unauthorized"))
  {
    Proxy.RootAndProfileProtected(Send(Receive(jar, LogoutRoute.Get(), t), now));
  }

  /**
   * The cookie a successful login at `t` sets opens `/api/users/me` for the
   * user who logged in until the session's expiry second. The client keeps
   * sending it until `t` plus one hour, and `/me` refuses it with "Invalid
   * token" until then; afterwards no cookie is sent and `/me` answers
   * "Unauthorized".
   */
  lemma LoginThenMe(s: Store, jar: Jar, username: string, password: string, t: int, now: int)
    requires Valid(s)
    requires LoginRoute.Post(s, username, password, t).response.status == 200
    requires t <= now
    ensures var c := Send(Receive(jar, LoginRoute.Post(s, username, password, t).response, t), now);
      var u := s[ByUsername(s, username).value];
      && (now < (Seconds(t) + SessionLifetime) * 1000 ==>
            MeRoute.Get(s, c, now).response == Json(200, Profile(WithoutPassword(u))))
      && ((Seconds(t) + SessionLifetime) * 1000 <= now < t + LoginRoute.CookieMaxAge * 1000 ==>
            MeRoute.Get(s, c, now).response == Json(401, Message("Invalid token")))
      && (now >= t + LoginRoute.CookieMaxAge * 1000 ==>
            MeRoute.Get(s, c, now).response == Json(401, Message("Unauthorized")))
  {
    var i := ByUsername(s, username).value;
    SignedSessionWindow(s[i].id, s[i].username, t, now);
    UniqueId(s, i);
  }

  /**
   * The gate tests only that the cookie is present, so after a login at `t`
   * it lets `/profile` through for exactly the cookie's hour, however long
   * the session inside it stays valid.
   */
  lemma LoginThenGate(s: Store, jar: Jar, username: string, password: string, t: int, now: int)
    requires LoginRoute.Post(s, username, password, t).response.status == 200
    requires t <= now
    ensures var c := Send(Receive(jar, LoginRoute.Post(s, username, password, t).response, t), now);
      Proxy.Gate("/profile", c) == Proxy.Next <==> now < t + LoginRoute.CookieMaxAge * 1000
  {
    var c := Send(Receive(jar, LoginRoute.Post(s, username, password, t).response, t), now);
    StatusAgreesWithGate(c);
  }

  /** The status route and the gate read the cookie the same way, for every cookie state. */
  lemma StatusAgreesWithGate(c: Cookie)
    ensures AuthStatusRoute.Get(c).body.isLoggedIn <==> Proxy.Gate("/profile", c) == Proxy.Next
    ensures AuthStatusRoute.Get(c).body.isLoggedIn <==> Proxy.Gate("/login", c) == Proxy.Redirect("/profile")
  {
    assert Proxy.Covers(Proxy.Matcher[1], "/profile");
    assert Proxy.Covers(Proxy.Matcher[2], "/login");
    assert !Proxy.StartsWith("/profile", "/pending-verification");
  }

  /**
   * The forgot-password flow with the reset link built as intended: the
   * reset page reads the stored token out of the link, the form sends it
   * with a matching password of at least six characters, the reset route
   * accepts it while the token is live, even when the mail send reported a
   * failure, and the new password then logs in.
   */
  lemma ForgotThenReset(s: Store, email: string, token: string, mail: ForgotPasswordRoute.Mail,
                        p: string, issuedAt: int, now: int, later: int)
    requires Valid(s)
    requires ByEmail(s, email).Some?
    requires forall j :: 0 <= j < |s| && j != ByEmail(s, email).value ==> !Holds(s[j].reset, token)
    requires forall k :: 0 <= k < |token| ==> token[k] != '&'
    requires token != "" && |p| >= ResetPasswordPage.MinLength
    requires 0 <= issuedAt && now < issuedAt + TokenLifetime
    ensures var issued := CreatePasswordResetToken(s, email, token, issuedAt).result.value;
      var q := Mailer.ParseResetLink(ForgotPasswordRoute.IntendedLink(issued));
      && q.Some?
      && var pageToken := ResetPasswordPage.PageToken(Some(q.value.token));
      && ResetPasswordPage.ShowsForm(pageToken)
      && var req := ResetPasswordPage.HandleSubmit(pageToken, p, p);
      && req.ResetRequest?
      && var s1 := ForgotPasswordRoute.Post(s, email, token, mail, issuedAt).store;
      && var o := ResetPasswordRoute.Post(s1, req.token, req.newPassword, now);
      && o.response.status == 200
      && LoginRoute.Post(o.store, s[ByEmail(s, email).value].username, p, later).response.status == 200
  {
    var i := ByEmail(s, email).value;
    var r := CreatePasswordResetToken(s, email, token, issuedAt);
    ForgotPasswordRoute.IntendedLinkRoundTrip(r.result.value);
    ResetTokenWindow(s, email, token, issuedAt, now);
    var s1 := ForgotPasswordRoute.Post(s, email, token, mail, issuedAt).store;
    assert s1 == r.store;
    var o := ResetPasswordRoute.Post(s1, token, p, now);
    UniqueUsername(o.store, i);
  }

  /**
   * The forgot-password flow as the handler writes it: the emailed link
   * yields the token "[object Object]", which no record holds, so the reset
   * route refuses it at any time, whatever reset token was stored.
   */
  lemma MailedLinkStrandsReset(s: Store, email: string, token: string, mail: ForgotPasswordRoute.Mail,
                               p: string, issuedAt: int, now: int)
    requires ByEmail(s, email).Some?
    requires forall j :: 0 <= j < |s| ==> !Holds(s[j].reset, "[object Object]")
    requires token != "[object Object]"
    ensures var issued := CreatePasswordResetToken(s, email, token, issuedAt).result.value;
      var q := Mailer.ParseResetLink(ForgotPasswordRoute.MailedLink(issued));
      && q == Some(Mailer.Query("[object Object]", "undefined"))
      && var s1 := ForgotPasswordRoute.Post(s, email, token, mail, issuedAt).store;
      && ResetPasswordRoute.Post(s1, q.value.token, p, now).response == Json(400, Failure(InvalidOrExpired))
  {
    var r := CreatePasswordResetToken(s, email, token, issuedAt);
    ForgotPasswordRoute.MailedLinkIsDead(r.result.value);
    var s1 := ForgotPasswordRoute.Post(s, email, token, mail, issuedAt).store;
    forall j | 0 <= j < |s1|
      ensures !Redeemable(s1[j].reset, "[object Object]", now)
    {
    }
  }

  /**
   * The pending-verification page and the server agree on expiry: loaded at
   * `now` with the `expiresAt` the server issued, the page shows time left
   * exactly when posting the token at that instant verifies the user.
   */
  lemma PageClockAgreesWithServer(s: Store, email: string, token: string, issuedAt: int, now: int)
    requires ByEmail(s, email).Some?
    requires forall j :: 0 <= j < |s| && j != ByEmail(s, email).value ==> !Holds(s[j].verify, token)
    ensures var r := CreateVerificationToken(s, email, token, issuedAt);
      && r.result.Ok?
      && (PendingVerificationPage.StartTimeLeft(Some(r.result.value.expiresAt), now) > 0
          <==> VerifyMailRoute.Post(r.store, token, now).response.status == 200)
  {
    VerificationTokenWindow(s, email, token, issuedAt, now);
  }
}
