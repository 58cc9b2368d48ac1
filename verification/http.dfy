/**
 * The HTTP boundary the route handlers see: the `token` cookie a request
 * carries, the `Set-Cookie` a response may send back, and JSON bodies.
 */
module Http {
  import opened Wrappers
  import opened Crypto
  import opened UserModel

  /**
   * The value of the `token` cookie. `Blank` is the empty string logout
   * writes; every other value is some string that `jwt.verify` decodes to a
   * session, genuine or not.
   */
  datatype CookieValue = Blank | Bearer(session: Session)

  /** `request.cookies.get("token")?.value`: absent, or a value. */
  type Cookie = Option<CookieValue>

  /** JavaScript truthiness of the cookie value: present and not the empty string. */
  predicate Present(c: Cookie) {
    c.Some? && c.value.Bearer?
  }

  /**
   * `getTokenData(cookie || "")`: the decoded session when the cookie is
   * present and verifies; `jwt.verify("")` fails, so an absent or empty
   * cookie decodes to nothing.
   */
  function Authenticate(c: Cookie, now: int): (r: Option<Session>)
    ensures r.Some? <==> Present(c) && Verify(c.value.session, now)
    ensures r.Some? ==> r.value == c.value.session
  {
    if Present(c) && Verify(c.value.session, now) then Some(c.value.session) else None
  }

  /** `response.cookies.set("token", value, {httpOnly, maxAge})`. */
  datatype SetCookie = SetCookie(value: CookieValue, httpOnly: bool, maxAge: int)

  /** The JSON bodies the handlers send. */
  datatype Body =
    | Message(message: string)                // {message}
    | Success(message: string)                // {message, success: true}
    | Failure(error: string)                  // {error}
    | LoginState(isLoggedIn: bool)            // {isLoggedIn}
    | Profile(user: PublicUser)               // {user}

  datatype Response = Response(status: int, body: Body, setCookie: Option<SetCookie>)

  /** A handler's response together with the collection it leaves behind. */
  datatype Outcome = Outcome(response: Response, store: Store)

  /** `NextResponse.json(body, {status})` with no cookie. */
  function Json(status: int, body: Body): Response {
    Response(status, body, None)
  }

  const InternalServerError: string := "Internal Server Error"
  const UserNotFound: string := "User not found"

  /** The client's stored `token` cookie: its value and the instant (milliseconds) it expires. */
  datatype Stored = Stored(value: CookieValue, expiresAt: int)

  /** The client's cookie store for this site, as far as the `token` cookie goes. */
  type Jar = Option<Stored>

  /**
   * The `token` cookie a request made at `now` carries: the stored one
   * until its expiry instant, and none from then on, because an expired
   * cookie is evicted (section 5.3 of RFC 6265).
   */
  function Send(jar: Jar, now: int): (c: Cookie)
    ensures c.Some? <==> jar.Some? && now < jar.value.expiresAt
    ensures c.Some? ==> c.value == jar.value.value
  {
    if jar.Some? && now < jar.value.expiresAt then Some(jar.value.value) else None
  }

  /**
   * The client's store after it receives a response at `now`. A `Set-Cookie`
   * replaces the stored cookie with one expiring Max-Age seconds later, and a
   * Max-Age of zero or less removes it at once (section 5.2.2 of RFC 6265).
   * So from `now` on the new value is sent exactly until `now + maxAge`
   * seconds.
   */
  function Receive(jar: Jar, r: Response, now: int): (j: Jar)
    ensures r.setCookie.None? ==> j == jar
    ensures r.setCookie.Some? ==>
      var sc := r.setCookie.value;
      forall later :: later >= now ==>
        Send(j, later) == if later < now + sc.maxAge * 1000 then Some(sc.value) else None
  {
    match r.setCookie
    case None => jar
    case Some(sc) => if sc.maxAge <= 0 then None else Some(Stored(sc.value, now + sc.maxAge * 1000))
  }
}
