# Account service: tokens, sessions and the request gate

A Dafny model of the authentication core of a Next.js account service
backed by a MongoDB `users` collection. It covers five parts:

- the verification-token and password-reset-token lifecycle (`lib/userService.ts`);
- the nine API route handlers built on it: register, login, logout, me, auth status, update password, verify mail, reset password and forgot password;
- the request gate in `proxy.ts`;
- the reset link in the mail `helpers/mailer.ts` sends, as the reset page reads it;
- the countdown and form logic of the pending-verification and reset-password pages.

Every part is a pure function over immutable values.

- The collection is a `seq<User>` in natural order. `findOne` is "the first record that satisfies the filter" (`UserModel.FindFirst`).
- A route handler maps the collection, the request's `token` cookie, the body fields and the clock `now` (milliseconds) to an `Outcome`. The outcome holds the response (status, JSON body, optional `Set-Cookie`) and the collection the handler leaves behind.
- bcrypt is modelled through the key it derives from a password (`Crypto.Key`): the password's UTF-8 bytes followed by a NUL byte, repeated and cut to 72 bytes. A digest matches exactly the passwords with the same key as the one it was made from. A record's password field has the digest type, so the plaintext is never stored.
- A JSON Web Token (RFC 7519) is an abstract `Session(id, username, iat, exp, genuine)`. `genuine` says whether the signature verifies. Any cookie string that is not a token this server signed is a session with `genuine == false`. `Crypto.Verify` follows `jsonwebtoken`: the token is valid while the clock in whole seconds is strictly before `exp`.
- The cookie a request carries is `Option<CookieValue>`. `Blank` is the empty string that logout writes. JavaScript truthiness of the cookie is `Http.Present`. The client keeps the cookie with an expiry instant (`Http.Jar`); `Http.Receive` stores a `Set-Cookie` and `Http.Send` gives the cookie a request carries at a given instant.
- Fresh token values, the mail transport's outcome and the clock are parameters.

Modules follow the source files. The `*Route` modules are the API handlers, `Proxy` is the gate, and the two `*Page` modules are the client pages. `Countdown` holds the arithmetic both pages share, and `Mailer` the reset link. `Flows` states properties that span several handlers.

Behaviour of the code worth knowing:

- login ignores `isVerified`: an unverified user logs in like any other, and login issues no verification token;
- username and email lookups are exact, with no case folding;
- the session token and its cookie both last one hour;
- `/` is a protected path, so without a cookie it redirects to `/login`;
- the gate tests only whether the cookie is present, not whether its signature or expiry is valid;
- the reset mail's link carries `[object Object]` instead of the token, and the reset page's timer can stop before reaching 0 and never shows "Link Expired" (both under "## Findings").

## Model

| member | source | states |
|---|---|---|
| Crypto.Hash | app/api/users/register/route.ts:20-22 | the stored digest matches the password it was made from, and exactly the passwords bcrypt cannot tell from it: those with the same 72-byte key |
| Crypto.Utf8Append | app/api/users/register/route.ts:22 | encoding a concatenation of two passwords concatenates their UTF-8 encodings |
| Crypto.LongPasswordTruncated | app/api/users/login/route.ts:19 | a password of at least 72 UTF-8 bytes matches the digest of any extension of it, because only the first 72 bytes count |
| Crypto.ShortPasswordsDistinct | app/api/users/login/route.ts:19 | below 72 bytes and without NUL bytes, two passwords with different encodings never match each other's digest |
| Crypto.Sign | app/api/users/login/route.ts:25-27 | the session carries the user's id and username, expires 3600 s after its issue second, and verifies at the moment of issue |
| Crypto.SignedSessionWindow | app/api/users/login/route.ts:27 | a freshly signed session verifies exactly until the end of its issue second plus one hour |
| UserModel.FindFirst | lib/userService.ts:46-49 | `findOne` returns the first record satisfying the filter; no earlier record satisfies it, and it returns nothing exactly when no record does |
| UserModel.NextId | app/api/users/register/route.ts:24-25 | a newly created record's `_id` differs from every stored `_id` |
| UserModel.UpdateKeepsValid | models/userModel.js:4-5 | rewriting a record without changing `_id`, username or email keeps the collection valid: required fields non-empty, and `_id`, username and email unique |
| UserService.CreateVerificationToken | lib/userService.ts:6-22 | it succeeds iff some record has the email, and then returns `(token, now+120000)`. It writes exactly that pair into the first such record's verification slot; every other field and record is unchanged. With no such record it throws and changes nothing. It keeps the collection valid |
| UserService.CreatePasswordResetToken | lib/userService.ts:24-41 | the same, for the reset slot; the verification slot and the password stay as they were |
| UserService.VerifyEmailToken | lib/userService.ts:43-63 | it succeeds iff some record holds the token with expiry strictly after `now`. The first such record becomes verified and loses both verification fields; nothing else changes. Otherwise it throws "Invalid or expired token" and the collection is unchanged |
| UserService.VerifyPasswordResetToken | lib/userService.ts:66-81 | returns the first record holding the unexpired reset token, or "Invalid or expired token"; it returns no collection, so it cannot write |
| UserService.ResetPassword | lib/userService.ts:83-99 | it succeeds iff the reset token verifies. The record's digest then matches exactly the passwords with the new password's 72-byte key, and both reset fields are cleared; no other field or record changes. On failure it passes the error on and changes nothing |
| UserService.VerificationTokenWindow | lib/userService.ts:11-56 | a just-issued verification token, held by no other record, is redeemable exactly while `now < issue time + 120000`, so it fails at the expiry instant itself. While redeemable it verifies the record it was issued to |
| UserService.ResetTokenWindow | lib/userService.ts:28-76 | the same window for a just-issued reset token |
| UserService.VerifyReplayFails | lib/userService.ts:46-56 | after a successful verification, redeeming the same token, held by one record, fails at any time |
| UserService.ResetReplayFails | lib/userService.ts:69-94 | after a successful reset, a second reset with the same token, held by one record, fails |
| UserService.NewerVerificationTokenSupersedes | lib/userService.ts:11-15 | issuing a second verification token to the same email makes the first value unredeemable |
| UserService.NewerResetTokenSupersedes | lib/userService.ts:28-32 | issuing a second reset token to the same email makes the first value unredeemable |
| Http.Authenticate | app/api/users/updatepassword/route.ts:12-15 | `getTokenData` on the cookie, or on the empty string when it is absent, yields the session exactly when the cookie is present and verifies |
| LoginRoute.Post | app/api/users/login/route.ts:8-41 | login never writes the collection. It answers 200 iff the first record with the exact username has a digest matching the password, and sets an httpOnly `token` cookie with a one-hour session for that record's id and username. Every failure is the same 401 "Invalid username or password" with no cookie |
| LoginRoute.AcceptsIff | app/api/users/login/route.ts:13-22 | in a valid collection, login succeeds iff some record has this exact username and a matching password |
| LoginRoute.IgnoresVerification | app/api/users/login/route.ts:13-34 | changing a record's `isVerified` flag changes no login response |
| RegisterRoute.Post | app/api/users/register/route.ts:9-32 | a taken email gives 400 "User already exists" with nothing written. An empty username or email, or a taken username, gives 500. Otherwise it gives 201 "User registered successfully", with no cookie, and appends exactly one record: the given username and email, a digest matching the password, `createdAt = now`, unverified, both token slots empty, and a fresh `_id`. The collection stays valid |
| LogoutRoute.Get | app/api/users/logout/route.ts:3-17 | always 200; sets `token` to the empty value, httpOnly, Max-Age 0. After receiving it, a client sends no cookie at any later instant, whatever it held before |
| Http.Send | app/api/users/login/route.ts:31-34 | a request carries the stored cookie exactly until its expiry instant, and no cookie from then on |
| Http.Receive | app/api/users/login/route.ts:31-34 | after a `Set-Cookie` received at `now`, the new value is sent exactly until `now` plus Max-Age seconds, so never for a Max-Age of 0 or less; a response without one leaves the stored cookie alone |
| MeRoute.Get | app/api/users/me/route.ts:8-38 | no cookie gives 401 "Unauthorized"; a cookie that fails verification gives 401 "Invalid token". A valid session with no matching `_id` gives 404 "User not found". None of these sets a cookie. Otherwise 200 returns the record without its password. It never writes |
| AuthStatusRoute.Get | app/api/auth/status/route.ts:3-8 | always 200; `isLoggedIn` holds exactly when the cookie is present, with no signature or expiry check |
| UpdatePasswordRoute.Put | app/api/users/updatepassword/route.ts:10-70 | guards run in the order session (401), both fields present (400), new password at least 6 characters (400), user found (404), current password matches (401). Each response, 200 included, occurs exactly when the earlier guards pass and its own condition holds. Only a 200 writes; it answers "Password updated successfully" and sets no cookie. It replaces just that record's digest with one matching exactly the passwords with the new password's key |
| VerifyMailRoute.Post | app/api/users/verifymail/route.ts:5-22 | 200 iff some record holds the token unexpired, answering "Email verified successfully" with no cookie. The first such record is then verified with its verification slot cleared, and no other field or record changes. Otherwise 400 `{error: "Invalid or expired token"}` with nothing written. There is no cookie input |
| VerifyMailRoute.ReplayRejected | app/api/users/verifymail/route.ts:9-21 | posting the same token again after a 200 gives 400 |
| ResetPasswordRoute.Post | app/api/users/resetpassword/route.ts:4-22 | 200 iff some record holds the reset token unexpired, answering "Pasword Reset successfully" with no cookie. The first such record's digest then matches exactly the passwords with the new password's key, whatever its length, and its reset slot is empty; no other field or record changes. Otherwise 400 with nothing written |
| ResetPasswordRoute.ReplayRejected | app/api/users/resetpassword/route.ts:9-21 | posting the same reset token again after a 200 gives 400 |
| ForgotPasswordRoute.Post | app/api/users/forgotpassword/route.ts:9-43 | an unknown email gives 404 `{error: "User not found"}` with nothing written. A known email gets a reset token expiring at `now+120000`; its verification slot and password are untouched. The response is 200 when the mail is delivered, else 500 with the mail error, and the token stays stored either way |
| Proxy.Decide | proxy.ts:4-16 | a public path with a present cookie redirects to `/profile`; a protected path without one redirects to `/login`; every other combination passes through |
| Proxy.Gate | proxy.ts:17-26 | paths outside `config.matcher` always pass through; matcher paths get the decision above |
| Proxy.MatcherPaths | proxy.ts:18-25 | the gated paths are exactly `/`, `/login`, `/register`, and the `/profile` and `/pending-verification` subtrees |
| Proxy.RootAndProfileProtected | proxy.ts:6-14 | without a present cookie, `/` and `/profile` redirect to `/login` |
| Proxy.NoRedirectLoop | proxy.ts:6-15 | requesting the redirect target with the same cookie passes through |
| Proxy.PresenceOnly | proxy.ts:7-15 | any two present cookies get the same decision, whatever sessions they carry; an absent and an empty cookie get the same decision |
| Countdown.CeilSeconds | app/pending-verification/page.tsx:19-21 | the result is the least whole number of seconds covering the milliseconds |
| Countdown.SecondsLeftPositive | app/resetpassword/page.tsx:17-19 | the seconds left are positive iff `expiresAt > now`, the server's strict expiry test. They are negative iff the link expired at least a second ago |
| Countdown.Clamp | app/pending-verification/page.tsx:41 | the result is non-negative and is either the input or 0 |
| Countdown.Tick | app/pending-verification/page.tsx:84-90 | a tick never yields a negative value and strictly decreases a positive one. Above one second it subtracts one, at one second or less it gives 0; the interval stops exactly when the value reaches 0 |
| Countdown.RunCountsDown | app/pending-verification/page.tsx:83-91 | from `t ≥ 1` the clock shows `t-n` after `n < t` ticks and 0 from tick `t` on |
| Countdown.Decimal | app/pending-verification/page.tsx:102 | the interpolated number is a non-empty string of digits with no leading zero, starting with `0` only for 0, and one digit exactly below 10 |
| Countdown.CanonicalUnique | app/pending-verification/page.tsx:102 | a digit string without a leading zero is the decimal text of the number it denotes, so each number has exactly one such text |
| Countdown.TwoDigitsUnique | app/pending-verification/page.tsx:101-102 | two two-digit texts that denote the same seconds are the same text |
| Countdown.ValueOfDecimal | app/pending-verification/page.tsx:102 | reading the decimal text back gives the number |
| Countdown.TwoDigits | app/pending-verification/page.tsx:101-102 | the seconds field is exactly two digits denoting the seconds |
| Countdown.FormatTime | app/pending-verification/page.tsx:99-103 | the `M:SS` text parses back, as minutes without a leading zero, a colon and two-digit seconds below 60, to the input |
| Countdown.ClockTextUnique | app/pending-verification/page.tsx:99-103 | two clock texts that parse to the same seconds are equal, so `FormatTime`'s round trip fixes its text |
| PendingVerificationPage.InitialTimeLeft | app/pending-verification/page.tsx:17-21 | with `expiresAt`, the seconds left rounded up; without it, 120 |
| PendingVerificationPage.StartTimeLeft | app/pending-verification/page.tsx:36-41 | after the effect runs, the shown time is never negative. It is 0 exactly when the link had expired at load time, and otherwise equals the rounded-up seconds left |
| PendingVerificationPage.OnLoad | app/pending-verification/page.tsx:74-96 | a non-empty URL token is verified at once and starts no countdown; otherwise the countdown starts |
| PendingVerificationPage.VerificationRequest | app/pending-verification/page.tsx:45-53 | a null or empty token sends no request; any other token is posted unchanged |
| PendingVerificationPage.Clock | app/pending-verification/page.tsx:177-179 | the shown clock text reads back as the time left |
| PendingVerificationPage.TokenSkipsCountdown | app/pending-verification/page.tsx:170 | with a URL token the countdown panel never appears, before or after the response |
| PendingVerificationPage.ExpiredNoticeTiming | app/pending-verification/page.tsx:194-198 | without a token, the expired notice shows after `n` seconds exactly when `n` is at least the seconds left at load time |
| ResetPasswordPage.InitialTimeLeft | app/resetpassword/page.tsx:15-19 | with `expiresAt`, the seconds left rounded up, not clamped; without it, 0 |
| ResetPasswordPage.Clock | app/resetpassword/page.tsx:119-126 | with the initial time taken at load, the timer panel appears only for a positive initial time; its time never goes negative, and its `M:SS` text reads back as the time left |
| ResetPasswordPage.PageToken | app/resetpassword/page.tsx:31-33 | the invalid-link screen shows instead of the form exactly when the URL token is absent or empty; otherwise the page token is the URL token |
| ResetPasswordPage.HandleSubmit | app/resetpassword/page.tsx:50-68 | mismatched passwords are refused first, then passwords shorter than 6. A request is sent iff both checks pass, and it carries the page token and the password |
| ResetPasswordPage.NoExpiryNeverSubmittable | app/resetpassword/page.tsx:181 | a link without `expiresAt` keeps its submit button disabled forever |
| ResetPasswordPage.ExpiredLinkStaysEnabled | app/resetpassword/page.tsx:17-181 | a link that expired at least a second before loading keeps a negative `timeLeft` that never changes, since no interval starts. The timer panel, guarded by a positive initial time, is not shown, and the button stays enabled |
| ResetPasswordPage.LiveLinkDisablesAtExpiry | app/resetpassword/page.tsx:36-46 | with the initial time taken at load, a live link's button becomes disabled, and "Link Expired" shows, exactly once the countdown has run for the seconds left |
| ResetPasswordPage.Mount | app/resetpassword/page.tsx:17-37 | as written, the first render's `timeLeft` and effect value are the rounded-up seconds left, and the interval starts exactly when they are positive. The interval's start and the render both take place at the load instant |
| ResetPasswordPage.Rerender | app/resetpassword/page.tsx:17-48 | as written, every render recomputes `initialTimeLeft` from the clock and keeps `timeLeft`. When the value changed, the old interval is cleared and a new one runs, started at that render, exactly when the value is positive; otherwise the interval is untouched |
| ResetPasswordPage.Step | app/resetpassword/page.tsx:36-48 | as written, every render re-runs the timer effect: a plain render is exactly `Rerender`, and so is the render that follows a tick while the interval runs. A render keeps `timeLeft`. A tick while the interval runs sets `timeLeft` to the tick's value and restarts the one-second wait at that instant, and the interval stops when the value reaches 0 unless the render restarts it. A tick with no interval running changes nothing |
| ResetPasswordPage.StepKeepsInv | app/resetpassword/page.tsx:36-48 | every admissible render or tick keeps the clock at or above the whole seconds left at the interval's last start or tick |
| ResetPasswordPage.ExpiredBannerNeverShows | app/resetpassword/page.tsx:119-134 | as written, whenever the timer panel renders, the clock reads at least the seconds left at that render, so "Link Expired" never renders |
| ResetPasswordPage.StalledStaysStalled | app/resetpassword/page.tsx:36-48 | as written, once no interval runs and the latest render found no time left, no later event changes the clock |
| ResetPasswordPage.KeystrokeAfterExpiryKeepsButtonEnabled | app/resetpassword/page.tsx:17-48 | as written, a link expiring at 119500 loaded at 118000 ticks to 1, and a keystroke at 119700 stops the countdown: the button stays enabled whatever follows. With the initial time taken at load it is disabled after two ticks |
| ResetPasswordPage.LateTickKeepsButtonEnabled | app/resetpassword/page.tsx:17-48 | as written, a link expiring at 120500 loaded at 118000 shows 3. A first tick arriving late, at 121000, sets 2, and the render it causes stops the countdown without any keystroke: the button stays enabled whatever follows |
| Flows.RegisterThenLogin | app/api/users/login/route.ts:13-22 | a just-registered user is unverified and can log in with the registration password |
| Flows.UpdatePasswordRoundTrip | app/api/users/updatepassword/route.ts:43-56 | after a successful update, login works with the new password. It works with the old one exactly when the two share a 72-byte key, and otherwise gives the single 401 |
| Flows.LogoutLogsOut | app/api/users/logout/route.ts:7-10 | at any instant after logout, the status route reports logged out, the gate sends `/profile` to `/login`, and `/me` answers 401 "Unauthorized" |
| Flows.LoginThenMe | app/api/users/me/route.ts:16-33 | after a login at `t` the client's cookie opens `/me` for that user until the session's expiry second. Then `/me` gives "Invalid token" until `t` plus one hour, when the cookie expires, and "Unauthorized" afterwards |
| Flows.LoginThenGate | proxy.ts:7-15 | after a login at `t` the gate lets `/profile` through exactly until `t` plus one hour, the cookie's Max-Age, whatever the session's validity |
| Flows.StatusAgreesWithGate | app/api/auth/status/route.ts:5-7 | `isLoggedIn` holds exactly when the gate lets `/profile` through, and exactly when it bounces `/login` to `/profile` |
| Mailer.Interpolate | helpers/mailer.ts:166-168 | a string interpolates as itself; a non-negative number as canonical decimal digits (no leading zero) that read back as the number; a negative number as `-` followed by the digits of its magnitude; `undefined` as "undefined"; any other object as "[object Object]" |
| Mailer.IndexOf | app/resetpassword/page.tsx:32 | the first occurrence of the character, or the length when there is none |
| Mailer.LinkRoundTrip | app/resetpassword/page.tsx:16-32 | a token without `&` and the expiry text are read back unchanged from a reset link |
| ForgotPasswordRoute.MailedLink | app/api/users/forgotpassword/route.ts:23-30 | the link the handler's mail carries is `/resetpassword?token=[object Object]&expiresAt=undefined`, whatever token was issued |
| ForgotPasswordRoute.MailedLinkIsDead | helpers/mailer.ts:166-168 | the reset page reads `[object Object]` as the token and `undefined` as the expiry from that link |
| ForgotPasswordRoute.IntendedLinkRoundTrip | helpers/mailer.ts:166-168 | with the issued token and expiry passed, the page reads the issued token back, and `parseInt` of the expiry gives the issued expiry |
| Flows.ForgotThenReset | app/api/users/forgotpassword/route.ts:22-30 | with the link built as intended, the page reads the stored token, the form sends it with a matching password of at least six characters, and the reset route accepts it while live, even after a mail failure. The new password then logs in |
| Flows.MailedLinkStrandsReset | app/api/users/forgotpassword/route.ts:26-30 | as written, the token read from the emailed link is refused by the reset route at any time, whatever reset token was stored |
| Flows.PageClockAgreesWithServer | app/pending-verification/page.tsx:37-41 | loaded with the issued `expiresAt`, the page shows time left exactly when posting the token at that instant verifies the email |

## Left out

- Database connection handling (`configs/dbConfig.ts`): connection state, event listeners and the retry timer are I/O. Each request is one sequential step on the collection.
- Concurrency: `findOne` followed by `save` is not atomic in the source. Interleavings of concurrent requests are not modelled.
- Mail sending (`helpers/mailer.ts`) is reduced to a delivered-or-failed parameter of the forgot-password handler, plus the reset link the mail carries. The rest of the template and SMTP are not modelled.
- ForgotThenReset: it holds for the link built as intended. The handler as written mails a link whose token is `[object Object]`, so the stored token never reaches the user (see "## Findings" and `Flows.MailedLinkStrandsReset`).
- Query parsing on the reset page: `URLSearchParams` is reduced to reading this link's two parameters, without percent-decoding. Tokens are bcrypt digests, whose alphabet `./A-Za-z0-9$` holds none of `&`, `%`, `+` or `#`.
- Token values are parameters. Deriving them with bcrypt from email and time affects only unguessability, which is outside the model. The replay and supersession lemmas therefore assume that no other record holds the same token value.
- Crypto.Hash: salt and cost factor are not modelled. Only which passwords match a digest is kept, and that is decided by the 72-byte key: UTF-8 bytes past the 72nd are ignored, and the key repeats the bytes and a NUL byte, so a password containing a NUL character can share a key with a shorter one.
- Crypto.Verify: the JWT secret, the encoding and the claim parsing are not modelled. A cookie is a session that either verifies or does not.
- Absent JSON body fields are not modelled: every body field is a string. In update-password, an absent field and `""` are both falsy and take the same path, so `""` stands for both. The same holds for unparsable JSON bodies and the error responses they cause.
- VerifyMailRoute.Post: its "200 iff some record holds the token unexpired" holds only for a string token. The handler passes the JSON value straight into the Mongoose filter, and no query sanitising is configured, so a body such as `{"token": {"$ne": null}}` would become a query operator matching the first record with any unexpired verification token. JSON values other than strings are not modelled.
- ResetPasswordRoute.Post: the same holds for the reset token: an object token would become a query operator and reset the password of the first record with any unexpired reset token.
- Errors thrown by the store or by hashing are not modelled, except the unique-index and required-field failures on register. Most handlers answer such an error with 500. The verify-mail and reset-password handlers (`app/api/users/verifymail/route.ts`, `app/api/users/resetpassword/route.ts`) answer every thrown error with 400 carrying its message instead.
- UpdatePasswordRoute.Put, ResetPasswordPage.HandleSubmit: password length counts Unicode scalar values, while JavaScript `.length` counts UTF-16 code units. The two differ only for characters outside the Basic Multilingual Plane.
- Proxy.Gate: the matcher is modelled as given, without Next.js's trailing-slash, locale and data-route normalisation. A `:path*` suffix is any non-empty remainder after the slash.
- Client pages: `expiresAt` is taken as an integer. A non-numeric value (`parseInt` giving NaN) is not modelled. `Math.ceil` over whole milliseconds is integer ceiling division. It gives JavaScript's negative zero when the link expired less than a second ago; that value behaves as 0 in the comparisons `> 0` and `=== 0`, in `Math.max` and in interpolation, so the model's 0 stands for it. The one place it differs is the reset page's effect dependency: React compares dependencies with `Object.is`, which tells -0 from 0, so a change between them re-runs the effect. That re-run is not modelled. It changes nothing visible, because the effect starts no interval for a value that is not positive.
- Mailer.Interpolate: a number is any integer here. JavaScript writes numbers from 10^21 upwards in exponent form, and doubles lose integers above 2^53. The model holds only for safe integers, which covers millisecond timestamps.
- Client pages: rendering, toasts, router pushes and redirect timeouts are not modelled. The pages with no gate or token logic (home, profile, login, register and forgot-password forms) are not modelled either.
- PendingVerificationPage.StartTimeLeft: it describes the page after its effect has run. The first paint uses `useState(initialTimeLeft)`, which is not clamped, so for a link that expired 30 seconds earlier the waiting panel first shows `formatTime(-30)`, that is "-1:0-30", until the effect sets 0. That first paint is not modelled.
- PendingVerificationPage.ExpiredNoticeTiming: it abstracts the one-second interval as whole ticks with no drift.
- ResetPasswordPage.Clock: it describes the page with the initial time taken at load. As written, the panel's guard is recomputed at every render, so the panel disappears once the link expires and "0:00 Link Expired" never renders (`ResetPasswordPage.ExpiredBannerNeverShows`).
- ResetPasswordPage.LiveLinkDisablesAtExpiry: it describes the page with the initial time taken at load. As written, any render after expiry but before the last tick stops the countdown, and the button then stays enabled. A keystroke can cause that render (`ResetPasswordPage.KeystrokeAfterExpiryKeepsButtonEnabled`), and so can one late tick (`ResetPasswordPage.LateTickKeepsButtonEnabled`).
- Render timing on the reset page: renders and ticks are events at given instants. React's batching, the delay between a state change and its render, and timer drift are folded into those instants.

## Findings

| source | as written | input that shows it | evidently intended | confidence | as-written member | corrected member |
|---|---|---|---|---|---|---|
| app/api/users/forgotpassword/route.ts:26-30 | `sendEmail` gets the `{token, expiresAt}` record as `token` and no `expiresAt`, so the link reads `token=[object Object]&expiresAt=undefined` | any forgot-password request for a known email | pass `resetToken.token` and `resetToken.expiresAt` | high; not executed | ForgotPasswordRoute.MailedLink, Flows.MailedLinkStrandsReset | ForgotPasswordRoute.IntendedLink, Flows.ForgotThenReset |
| app/resetpassword/page.tsx:17-48 | `initialTimeLeft` is recomputed from `Date.now()` at every render and is the timer effect's dependency and the panel's guard | load at 118000 with `expiresAt` 119500, a tick at 119000, a keystroke at 119700: the clock stops at 1 and the button stays enabled; and no input ever shows "Link Expired" | compute the initial time once, at load | high for the missing "Link Expired", high for the stalled button as well: any render after expiry while the countdown still runs stalls it. A keystroke in the link's last second does, and so does one late tick with no keystroke (loaded at 118000 with `expiresAt` 120500, a first tick at 121000 leaves the clock at 2); not executed | ResetPasswordPage.KeystrokeAfterExpiryKeepsButtonEnabled, ResetPasswordPage.LateTickKeepsButtonEnabled, ResetPasswordPage.ExpiredBannerNeverShows | ResetPasswordPage.LiveLinkDisablesAtExpiry, ResetPasswordPage.Clock |
