/**
 * The pending-verification page: with a token in the URL it verifies the
 * email at once; without one it counts down the verification link's lifetime.
 */
module PendingVerificationPage {
  import opened Wrappers
  import opened Countdown

  /** Countdown used when the URL carries no `expiresAt`. */
  const FallbackSeconds: int := 120

  /** A query parameter is truthy when present and not the empty string. */
  predicate Truthy(p: Option<string>) {
    p.Some? && p.value != ""
  }

  /**
   * `initialTimeLeft`: whole seconds until `expiresAt`, rounded up, or 120
   * without the parameter (`None` stands for absent or empty).
   */
  function InitialTimeLeft(expiresAt: Option<int>, now: int): (t: int)
    ensures expiresAt.None? ==> t == FallbackSeconds
    ensures expiresAt.Some? ==> (t - 1) * 1000 < expiresAt.value - now <= t * 1000
  {
    match expiresAt
    case None => FallbackSeconds
    case Some(e) => CeilSeconds(e - now)
  }

  /**
   * The effect's recomputation, clamped at 0: once the effect has run the
   * page shows no negative time. The first paint, before the effect, shows
   * the unclamped `InitialTimeLeft`.
   */
  function StartTimeLeft(expiresAt: Option<int>, now: int): (t: nat)
    ensures t >= InitialTimeLeft(expiresAt, now)
    ensures t == 0 <==> expiresAt.Some? && expiresAt.value <= now
    ensures t > 0 ==> t == InitialTimeLeft(expiresAt, now)
  {
    match expiresAt
    case None => Clamp(InitialTimeLeft(expiresAt, now))
    case Some(e) =>
      SecondsLeftPositive(e, now);
      Clamp(InitialTimeLeft(expiresAt, now))
  }

  /** What the page does once its effects have run. */
  datatype Start = SendVerification(token: string) | StartCountdown

  function OnLoad(token: Option<string>): (r: Start)
    ensures r.SendVerification? <==> Truthy(token)
    ensures r.SendVerification? ==> r.token == token.value
  {
    if Truthy(token) then SendVerification(token.value) else StartCountdown
  }

  /** `verifyUserEmail(token)`: the token posted to `/api/users/verifymail`, or no request for a falsy token. */
  function VerificationRequest(tokenToVerify: Option<string>): (r: Option<string>)
    ensures r.None? <==> !Truthy(tokenToVerify)
    ensures r.Some? ==> r.value == tokenToVerify.value
  {
    if Truthy(tokenToVerify) then Some(tokenToVerify.value) else None
  }

  datatype PageState = PageState(token: Option<string>, timeLeft: int, loading: bool, verified: bool, failed: bool)

  /** The page right after loading: flags reset, clock recomputed, and the request in flight when there is a token. */
  function Load(token: Option<string>, expiresAt: Option<int>, now: int): PageState {
    PageState(token, StartTimeLeft(expiresAt, now), Truthy(token), false, false)
  }

  /** The verification request answered: success or failure, no longer loading. */
  function Answer(p: PageState, success: bool): PageState {
    p.(loading := false, verified := success, failed := !success)
  }

  /** The page `n` seconds later: the interval runs only while no token is in the URL. */
  function After(p: PageState, n: nat): PageState {
    if Truthy(p.token) then p else p.(timeLeft := Run(p.timeLeft, n))
  }

  /** The countdown panel: nothing loading, verified or failed, and no token. */
  predicate Waiting(p: PageState) {
    !p.loading && !p.verified && !p.failed && !Truthy(p.token)
  }

  /** "Time expired" is shown inside the countdown panel when the clock reads 0. */
  predicate ShowsExpiredNotice(p: PageState) {
    Waiting(p) && p.timeLeft == 0
  }

  /** The clock text the countdown panel shows. */
  function Clock(p: PageState): (r: string)
    requires p.timeLeft >= 0
    ensures ParseClock(r) == Some(p.timeLeft)
  {
    FormatTime(p.timeLeft)
  }

  /** With a token in the URL the countdown panel never appears, whatever the response. */
  lemma TokenSkipsCountdown(token: Option<string>, expiresAt: Option<int>, now: int, success: bool, n: nat)
    requires Truthy(token)
    ensures !Waiting(After(Load(token, expiresAt, now), n))
    ensures !Waiting(Answer(Load(token, expiresAt, now), success))
  {
  }

  /**
   * Waiting without a token for a link that expires at `expiresAt`: the
   * expired notice is shown after `n` seconds exactly when `n` is at least
   * the whole seconds that were left, so at once when the link had already
   * expired at load time.
   */
  lemma ExpiredNoticeTiming(expiresAt: int, now: int, n: nat)
    ensures ShowsExpiredNotice(After(Load(None, Some(expiresAt), now), n))
        <==> n >= StartTimeLeft(Some(expiresAt), now)
  {
    var p := Load(None, Some(expiresAt), now);
    if p.timeLeft >= 1 {
      RunCountsDown(p.timeLeft, n);
    }
  }
}
