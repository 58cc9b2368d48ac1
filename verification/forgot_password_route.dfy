/** `POST /api/users/forgotpassword`: issues a reset token and mails it. */
module ForgotPasswordRoute {
  import opened Wrappers
  import opened UserModel
  import opened UserService
  import opened Http
  import Mailer
  import Countdown

  /** What the mail transport reports; the send itself is outside the model. */
  datatype Mail = Delivered | MailError(message: string)

  /**
   * The token is stored before the mail is sent, and a failed send does not
   * undo it: the 500 response leaves the new reset token in place.
   */
  function Post(s: Store, email: string, token: string, mail: Mail, now: int): (o: Outcome)
    ensures ByEmail(s, email).None? ==> o == Outcome(Json(404, Failure(UserNotFound)), s)
    ensures ByEmail(s, email).Some? ==>
      && var i := ByEmail(s, email).value;
      && |o.store| == |s|
      && o.store[i] == s[i].(reset := Some(Slot(token, now + TokenLifetime)))
      && (forall j :: 0 <= j < |s| && j != i ==> o.store[j] == s[j])
      && (mail.Delivered? ==> o.response == Json(200, Success("Password reset email sent")))
      && (mail.MailError? ==> o.response == Json(500, Failure(mail.message)))
    ensures Valid(s) ==> Valid(o.store)
  {
    match ByEmail(s, email)
    case None => Outcome(Json(404, Failure(UserNotFound)), s)
    case Some(i) =>
      var issued := CreatePasswordResetToken(s, s[i].email, token, now);
      match mail
      case Delivered => Outcome(Json(200, Success("Password reset email sent")), issued.store)
      case MailError(m) => Outcome(Json(500, Failure(m)), issued.store)
  }

  /**
   * The reset link as the handler's `sendEmail` call produces it: the whole
   * `{token, expiresAt}` record goes in as the mail's `token`, and no
   * `expiresAt` is passed, so the link is the same for every request.
   */
  function MailedLink(issued: Issued): (link: string)
    ensures link == "/resetpassword?token=[object Object]&expiresAt=undefined"
  {
    Mailer.ResetLink(Mailer.Object, Mailer.Undefined)
  }

  /** The emailed link carries neither the stored token nor its expiry. */
  lemma MailedLinkIsDead(issued: Issued)
    ensures Mailer.ParseResetLink(MailedLink(issued)) == Some(Mailer.Query("[object Object]", "undefined"))
  {
    var token := "[object Object]";
    assert MailedLink(issued) == Mailer.ResetPath + token + Mailer.ExpiresParam + "undefined";
    assert forall k :: 0 <= k < |token| ==> token[k] != '&' by {
      assert token == ['[', 'o', 'b', 'j', 'e', 'c', 't', ' ', 'O', 'b', 'j', 'e', 'c', 't', ']'];
    }
    Mailer.LinkRoundTrip(token, "undefined");
  }

  /** The reset link with the issued token and expiry passed as the mail template expects them. */
  function IntendedLink(issued: Issued): string {
    Mailer.ResetLink(Mailer.Text(issued.token), Mailer.Number(issued.expiresAt))
  }

  /**
   * The reset page reads the issued token back out of the intended link,
   * and `parseInt` of its `expiresAt` gives the issued expiry.
   */
  lemma IntendedLinkRoundTrip(issued: Issued)
    requires forall k :: 0 <= k < |issued.token| ==> issued.token[k] != '&'
    requires issued.expiresAt >= 0
    ensures var q := Mailer.ParseResetLink(IntendedLink(issued));
      && q.Some?
      && q.value.token == issued.token
      && Countdown.AllDigits(q.value.expiresAt)
      && Countdown.ValueOf(q.value.expiresAt) == issued.expiresAt
  {
    Mailer.LinkRoundTrip(issued.token, Mailer.Interpolate(Mailer.Number(issued.expiresAt)));
  }
}
