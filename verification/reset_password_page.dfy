/**
 * The reset-password page: the link's countdown, the form's client-side
 * checks, and when the submit button is enabled.
 */
module ResetPasswordPage {
  import opened Wrappers
  import opened Countdown

  const PasswordsDiffer: string := "Passwords do not match"
  const PasswordTooShort: string := "Password must be at least 6 characters"

  /** Shortest password the form sends. */
  const MinLength: int := 6

  /**
   * `initialTimeLeft`: whole seconds until `expiresAt`, rounded up, or 0
   * ("no timer") without the parameter. It is not clamped.
   */
  function InitialTimeLeft(expiresAt: Option<int>, now: int): (t: int)
    ensures expiresAt.None? ==> t == 0
    ensures expiresAt.Some? ==> (t - 1) * 1000 < expiresAt.value - now <= t * 1000
  {
    match expiresAt
    case None => 0
    case Some(e) => CeilSeconds(e - now)
  }

  // ---- The countdown with `initialTimeLeft` taken once, at load -----------
  //
  // `TimeLeft`, `Clock`, `ExpiredBannerAt` and the lemmas about them describe
  // the page as evidently intended: the initial time is computed when the
  // page loads, and the interval ticks once a second. The page as written
  // recomputes it at every render; `Live` below models that.

  /** The displayed time `n` seconds after loading: the interval is started only for a positive initial time. */
  function TimeLeft(expiresAt: Option<int>, now: int, n: nat): int {
    var t := InitialTimeLeft(expiresAt, now);
    if t > 0 then Run(t, n) else t
  }

  /**
   * The clock text, shown only when the initial time was positive; the
   * running countdown then never goes below 0, so the text reads back as
   * the time left.
   */
  function Clock(expiresAt: Option<int>, now: int, n: nat): (r: string)
    requires InitialTimeLeft(expiresAt, now) > 0
    ensures TimeLeft(expiresAt, now, n) >= 0
    ensures ParseClock(r) == Some(TimeLeft(expiresAt, now, n))
  {
    RunCountsDown(InitialTimeLeft(expiresAt, now), n);
    FormatTime(TimeLeft(expiresAt, now, n))
  }

  /** The timer panel's "Link Expired" state: the panel is shown and the clock reads 0. */
  predicate ExpiredBannerAt(expiresAt: Option<int>, now: int, n: nat) {
    InitialTimeLeft(expiresAt, now) > 0 && TimeLeft(expiresAt, now, n) == 0
  }

  /** `disabled={loading || timeLeft === 0}`. */
  predicate SubmitDisabled(loading: bool, timeLeft: int) {
    loading || timeLeft == 0
  }

  /** `if (!token)`: an empty token shows the invalid-link screen instead of the form. */
  predicate ShowsForm(token: string) {
    token != ""
  }

  /** `setToken(urlToken || "")`. */
  function PageToken(urlToken: Option<string>): (t: string)
    ensures !ShowsForm(t) <==> urlToken.None? || urlToken.value == ""
    ensures ShowsForm(t) ==> t == urlToken.value
  {
    match urlToken
    case None => ""
    case Some(v) => v
  }

  /** What pressing submit does: an error toast, or a request to `/api/users/resetpassword`. */
  datatype Submission = Refused(toast: string) | ResetRequest(token: string, newPassword: string)

  /** `handleSubmit`: the match check runs before the length check. */
  function HandleSubmit(token: string, password: string, confirmPassword: string): (r: Submission)
    ensures password != confirmPassword ==> r == Refused(PasswordsDiffer)
    ensures password == confirmPassword && |password| < MinLength ==> r == Refused(PasswordTooShort)
    ensures r.ResetRequest? <==> password == confirmPassword && |password| >= MinLength
    ensures r.ResetRequest? ==> r == ResetRequest(token, password)
  {
    if password != confirmPassword then Refused(PasswordsDiffer)
    else if |password| < MinLength then Refused(PasswordTooShort)
    else ResetRequest(token, password)
  }

  /** A link without `expiresAt` can never be submitted: its time stays 0. */
  lemma NoExpiryNeverSubmittable(now: int, n: nat)
    ensures SubmitDisabled(false, TimeLeft(None, now, n))
  {
  }

  /**
   * A link that expired at least a second before loading keeps a negative
   * `timeLeft` that no interval changes, shows no timer panel (its guard is
   * a positive initial time), and its button stays enabled for good.
   */
  lemma ExpiredLinkStaysEnabled(expiresAt: int, now: int, n: nat)
    requires expiresAt <= now - 1000
    ensures InitialTimeLeft(Some(expiresAt), now) < 0
    ensures TimeLeft(Some(expiresAt), now, n) == InitialTimeLeft(Some(expiresAt), now)
    ensures !SubmitDisabled(false, TimeLeft(Some(expiresAt), now, n))
  {
    SecondsLeftPositive(expiresAt, now);
  }

  /**
   * A link still live at loading time disables the button, and shows "Link
   * Expired", exactly when the countdown has run for the whole seconds that
   * were left.
   */
  lemma LiveLinkDisablesAtExpiry(expiresAt: int, now: int, n: nat)
    requires expiresAt > now
    ensures SubmitDisabled(false, TimeLeft(Some(expiresAt), now, n)) <==> n >= CeilSeconds(expiresAt - now)
    ensures ExpiredBannerAt(Some(expiresAt), now, n) <==> n >= CeilSeconds(expiresAt - now)
  {
    SecondsLeftPositive(expiresAt, now);
    RunCountsDown(CeilSeconds(expiresAt - now), n);
  }

  // ---- The countdown as written: `initialTimeLeft` at every render ---------

  /**
   * The countdown as the page keeps it. `timeLeft` is the state variable;
   * `deps` is the `initialTimeLeft` the timer effect last ran with, which is
   * also the value the latest render computed; `running` says whether an
   * interval is live; `since` is when it last started or fired; `at` is the
   * instant of the latest render.
   */
  datatype Live = Live(timeLeft: int, deps: int, running: bool, since: int, at: int)

  /** What happens next: a render for any other reason (a keystroke, say), or the interval firing. */
  datatype Event = Render(at: int) | Fire(at: int)

  /** The first render at `now`, and its effect starting the interval for a positive initial time. */
  function Mount(expiresAt: Option<int>, now: int): (p: Live)
    ensures p.timeLeft == p.deps == InitialTimeLeft(expiresAt, now)
    ensures p.running <==> p.timeLeft > 0
    ensures p.since == now && p.at == now
  {
    var t := InitialTimeLeft(expiresAt, now);
    Live(t, t, t > 0, now, now)
  }

  /**
   * A render at `now` recomputes `initialTimeLeft` from the clock. When it
   * differs from the effect's last value, the effect's cleanup clears the
   * interval and the effect starts a new one only for a positive value.
   * `timeLeft` is state, so a render never resets it.
   */
  function Rerender(expiresAt: Option<int>, p: Live, now: int): (q: Live)
    ensures q.timeLeft == p.timeLeft && q.at == now
    ensures q.deps == InitialTimeLeft(expiresAt, now)
    ensures q.deps != p.deps ==> q.since == now
    ensures q.deps != p.deps ==> (q.running <==> q.deps > 0)
    ensures q.deps == p.deps ==> q.running == p.running && q.since == p.since
  {
    var i := InitialTimeLeft(expiresAt, now);
    if i == p.deps then p.(at := now)
    else p.(deps := i, running := i > 0, since := now, at := now)
  }

  /** One event: a plain render, or the interval's tick followed by the render its state change causes. */
  function Step(expiresAt: Option<int>, p: Live, e: Event): (q: Live)
    ensures q.at == (if e.Fire? && !p.running then p.at else e.at)
    ensures e.Render? ==> q.timeLeft == p.timeLeft
    ensures e.Fire? && !p.running ==> q == p
    ensures e.Fire? && p.running ==> q.timeLeft == Tick(p.timeLeft).next && q.since == e.at
    ensures e.Fire? && p.running && q.deps == p.deps ==> q.running == Tick(p.timeLeft).running
    ensures e.Render? ==> q == Rerender(expiresAt, p, e.at)
    ensures e.Fire? && p.running ==>
      q == Rerender(expiresAt, p.(timeLeft := Tick(p.timeLeft).next, running := Tick(p.timeLeft).running, since := e.at), e.at)
  {
    match e
    case Render(now) => Rerender(expiresAt, p, now)
    case Fire(now) =>
      if !p.running then p
      else
        var r := Tick(p.timeLeft);
        Rerender(expiresAt, p.(timeLeft := r.next, running := r.running, since := now), now)
  }

  /** Events come in time order, and a live interval fires at least a second after it started or last fired. */
  predicate Admissible(p: Live, e: Event) {
    match e
    case Render(now) => now >= p.at
    case Fire(now) => p.running && now >= p.at && now >= p.since + 1000
  }

  function Replay(expiresAt: Option<int>, p: Live, events: seq<Event>): Live
    decreases |events|
  {
    if |events| == 0 then p else Replay(expiresAt, Step(expiresAt, p, events[0]), events[1..])
  }

  predicate Timely(expiresAt: Option<int>, p: Live, events: seq<Event>)
    decreases |events|
  {
    |events| == 0 || (Admissible(p, events[0]) && Timely(expiresAt, Step(expiresAt, p, events[0]), events[1..]))
  }

  /** The timer panel renders when the latest render's `initialTimeLeft` is positive. */
  predicate PanelShown(p: Live) {
    p.deps > 0
  }

  /** The panel's "Link Expired" state as written: panel shown and the clock at 0. */
  predicate ExpiredBanner(p: Live) {
    PanelShown(p) && p.timeLeft == 0
  }

  /** Later instants leave no more whole seconds, and a second later at least one fewer. */
  lemma LaterLeavesLess(expiresAt: Option<int>, a: int, b: int)
    requires a <= b
    ensures InitialTimeLeft(expiresAt, b) <= InitialTimeLeft(expiresAt, a)
    ensures expiresAt.Some? && b >= a + 1000 ==> InitialTimeLeft(expiresAt, b) <= InitialTimeLeft(expiresAt, a) - 1
  {
  }

  /**
   * What every reachable state keeps: `deps` is the latest render's value,
   * and the clock never reads less than the whole seconds left at the
   * interval's last start or tick.
   */
  predicate Inv(expiresAt: Option<int>, p: Live) {
    && p.deps == InitialTimeLeft(expiresAt, p.at)
    && p.since <= p.at
    && InitialTimeLeft(expiresAt, p.since) <= p.timeLeft
  }

  lemma StepKeepsInv(expiresAt: Option<int>, p: Live, e: Event)
    requires Inv(expiresAt, p) && Admissible(p, e)
    ensures Inv(expiresAt, Step(expiresAt, p, e))
  {
    match e
    case Render(now) =>
      LaterLeavesLess(expiresAt, p.since, now);
    case Fire(now) =>
      LaterLeavesLess(expiresAt, p.since, now);
  }

  lemma {:induction false} ReplayKeepsInv(expiresAt: Option<int>, p: Live, events: seq<Event>)
    requires Inv(expiresAt, p) && Timely(expiresAt, p, events)
    ensures Inv(expiresAt, Replay(expiresAt, p, events))
    decreases |events|
  {
    if |events| > 0 {
      StepKeepsInv(expiresAt, p, events[0]);
      ReplayKeepsInv(expiresAt, Step(expiresAt, p, events[0]), events[1..]);
    }
  }

  /**
   * As written, "Link Expired" never renders: the interval never runs ahead
   * of the clock, so whenever the panel shows, the clock reads at least the
   * whole seconds left at that render, which is positive.
   */
  lemma ExpiredBannerNeverShows(expiresAt: Option<int>, now: int, events: seq<Event>)
    requires Timely(expiresAt, Mount(expiresAt, now), events)
    ensures var p := Replay(expiresAt, Mount(expiresAt, now), events);
      && (PanelShown(p) ==> p.timeLeft >= p.deps)
      && !ExpiredBanner(p)
  {
    var p := Replay(expiresAt, Mount(expiresAt, now), events);
    ReplayKeepsInv(expiresAt, Mount(expiresAt, now), events);
    LaterLeavesLess(expiresAt, p.since, p.at);
  }

  /** With no live interval and nothing left on the clock at the latest render, no later event changes `timeLeft`. */
  lemma {:induction false} StalledStaysStalled(expiresAt: Option<int>, p: Live, events: seq<Event>)
    requires Inv(expiresAt, p) && !p.running && p.deps <= 0
    requires Timely(expiresAt, p, events)
    ensures Replay(expiresAt, p, events).timeLeft == p.timeLeft
    ensures !Replay(expiresAt, p, events).running
    decreases |events|
  {
    if |events| > 0 {
      var e := events[0];
      LaterLeavesLess(expiresAt, p.at, e.at);
      StalledStaysStalled(expiresAt, Step(expiresAt, p, e), events[1..]);
    }
  }

  /**
   * As written, a render between the link's expiry and the last tick stops
   * the countdown for good. Loaded at 118000 for a link expiring at 119500,
   * the page shows 2, ticks to 1 at 119000, and a keystroke at 119700
   * finds `initialTimeLeft` at 0 and clears the interval. The clock stays
   * at 1 and the button stays enabled whatever happens next, while the
   * page with the initial time taken at load disables it after two ticks.
   */
  lemma KeystrokeAfterExpiryKeepsButtonEnabled(events: seq<Event>)
    ensures Timely(Some(119500), Mount(Some(119500), 118000), [Fire(119000), Render(119700)])
    ensures var p := Replay(Some(119500), Mount(Some(119500), 118000), [Fire(119000), Render(119700)]);
      Timely(Some(119500), p, events) ==>
        && Replay(Some(119500), p, events).timeLeft == 1
        && !SubmitDisabled(false, Replay(Some(119500), p, events).timeLeft)
    ensures SubmitDisabled(false, TimeLeft(Some(119500), 118000, 2))
  {
    var e := Some(119500);
    var m := Mount(e, 118000);
    assert m == Live(2, 2, true, 118000, 118000);
    var p1 := Step(e, m, Fire(119000));
    assert p1 == Live(1, 1, true, 119000, 119000);
    var p := Step(e, p1, Render(119700));
    assert p == Live(1, 0, false, 119700, 119700);
    assert Replay(e, m, [Fire(119000), Render(119700)]) == p by {
      assert [Fire(119000), Render(119700)][1..] == [Render(119700)];
    }
    assert Timely(e, m, [Fire(119000), Render(119700)]) by {
      assert [Fire(119000), Render(119700)][1..] == [Render(119700)];
    }
    if Timely(e, p, events) {
      StalledStaysStalled(e, p, events);
    }
    RunCountsDown(2, 2);
  }

  /**
   * As written, one late tick is enough: loaded at 118000 for a link
   * expiring at 120500, the page shows 3. If the first tick only arrives at
   * 121000 (a throttled tab, a machine waking from sleep), it sets 2 and the
   * render it causes finds `initialTimeLeft` at 0 and clears the interval.
   * With no keystroke at all, the clock stays at 2 and the button enabled.
   */
  lemma LateTickKeepsButtonEnabled(events: seq<Event>)
    ensures Timely(Some(120500), Mount(Some(120500), 118000), [Fire(121000)])
    ensures var p := Replay(Some(120500), Mount(Some(120500), 118000), [Fire(121000)]);
      Timely(Some(120500), p, events) ==>
        && Replay(Some(120500), p, events).timeLeft == 2
        && !SubmitDisabled(false, Replay(Some(120500), p, events).timeLeft)
  {
    var e := Some(120500);
    var m := Mount(e, 118000);
    assert m == Live(3, 3, true, 118000, 118000);
    var p := Step(e, m, Fire(121000));
    assert p == Live(2, 0, false, 121000, 121000);
    assert Replay(e, m, [Fire(121000)]) == p by {
      assert [Fire(121000)][1..] == [];
    }
    assert Timely(e, m, [Fire(121000)]) by {
      assert [Fire(121000)][1..] == [];
    }
    if Timely(e, p, events) {
      StalledStaysStalled(e, p, events);
    }
  }
}
