/**
 * The password-reset link in the mail `helpers/mailer.ts` sends, and how
 * the reset page reads its two query parameters back.
 */
module Mailer {
  import opened Wrappers
  import Countdown

  /** The JavaScript values the mail template interpolates. */
  datatype Value = Text(s: string) | Number(n: int) | Undefined | Object

  /** Template-literal interpolation `${v}`, which is `String(v)`. */
  function Interpolate(v: Value): (r: string)
    ensures v.Text? ==> r == v.s
    ensures v.Number? && v.n >= 0 ==> Countdown.Canonical(r) && Countdown.ValueOf(r) == v.n
    ensures v.Number? && v.n < 0 ==>
      |r| >= 2 && r[0] == '-' && Countdown.Canonical(r[1..]) && Countdown.ValueOf(r[1..]) == -v.n
    ensures v.Undefined? ==> r == "undefined"
    ensures v.Object? ==> r == "[object Object]"
  {
    match v
    case Text(s) => s
    case Number(n) =>
      if n >= 0 then
        Countdown.ValueOfDecimal(n);
        Countdown.Decimal(n)
      else
        Countdown.ValueOfDecimal(-n);
        var d := Countdown.Decimal(-n);
        assert ("-" + d)[1..] == d;
        "-" + d
    case Undefined => "undefined"
    case Object => "[object Object]"
  }

  const ResetPath: string := "/resetpassword?token="
  const ExpiresParam: string := "&expiresAt="

  /** The mail's reset link after the base URL: `/resetpassword?token=${token}&expiresAt=${expiresAt}`. */
  function ResetLink(token: Value, expiresAt: Value): string {
    ResetPath + Interpolate(token) + ExpiresParam + Interpolate(expiresAt)
  }

  /** The reset page's `searchParams.get("token")` and `searchParams.get("expiresAt")`. */
  datatype Query = Query(token: string, expiresAt: string)

  /** Position of the first `c` in `s`, or `|s|` when there is none. */
  function IndexOf(s: string, c: char): (k: nat)
    ensures k <= |s|
    ensures forall j :: 0 <= j < k ==> s[j] != c
    ensures k < |s| ==> s[k] == c
  {
    if |s| == 0 || s[0] == c then 0 else 1 + IndexOf(s[1..], c)
  }

  /** Reads a reset link of the shape above: the token runs up to the first `&`. */
  function ParseResetLink(link: string): Option<Query> {
    if |link| < |ResetPath| || link[..|ResetPath|] != ResetPath then None
    else
      var rest := link[|ResetPath|..];
      var tail := rest[IndexOf(rest, '&')..];
      if |tail| < |ExpiresParam| || tail[..|ExpiresParam|] != ExpiresParam then None
      else Some(Query(rest[..IndexOf(rest, '&')], tail[|ExpiresParam|..]))
  }

  /** A token without `&` comes back out of the link unchanged, and so does the expiry text. */
  lemma LinkRoundTrip(token: string, expiresAt: string)
    requires forall k :: 0 <= k < |token| ==> token[k] != '&'
    ensures ParseResetLink(ResetPath + token + ExpiresParam + expiresAt) == Some(Query(token, expiresAt))
  {
    var link := ResetPath + token + ExpiresParam + expiresAt;
    assert link[..|ResetPath|] == ResetPath;
    var rest := link[|ResetPath|..];
    assert rest == token + ExpiresParam + expiresAt;
    assert rest[|token|] == '&';
    var k := IndexOf(rest, '&');
    assert k == |token|;
    assert rest[..k] == token;
    assert rest[k..] == ExpiresParam + expiresAt;
  }
}
