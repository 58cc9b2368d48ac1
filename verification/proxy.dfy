/**
 * The request gate (`proxy.ts`): a pure decision over the request path and
 * the presence of the `token` cookie, run only on the configured matcher paths.
 */
module Proxy {
  import opened Wrappers
  import opened Crypto
  import opened Http

  datatype Decision = Next | Redirect(location: string)

  predicate StartsWith(s: string, prefix: string) {
    |prefix| <= |s| && s[..|prefix|] == prefix
  }

  /** Paths meaningful only to callers without a session. */
  predicate IsPublic(path: string) {
    path == "/login" || path == "/register" || StartsWith(path, "/pending-verification")
  }

  /**
   * The gate proper. It tests the cookie's presence only: a forged or
   * expired session counts exactly like a valid one.
   */
  function Decide(path: string, cookie: Cookie): (d: Decision)
    ensures d == Redirect("/profile") <==> IsPublic(path) && Present(cookie)
    ensures d == Redirect("/login") <==> !IsPublic(path) && !Present(cookie)
    ensures d == Next <==> (IsPublic(path) <==> !Present(cookie))
  {
    var public := IsPublic(path);
    var token := Present(cookie);
    if public && token then Redirect("/profile")
    else if !public && !token then Redirect("/login")
    else Next
  }

  /** One entry of `config.matcher`, in path-to-regexp syntax. */
  datatype Pattern =
    | Exact(path: string)          // '/profile'
    | Subtree(root: string)        // '/profile/:path*': the root and everything below it

  const Matcher: seq<Pattern> := [
    Subtree("/profile"),
    Exact("/profile"),
    Exact("/login"),
    Exact("/register"),
    Exact("/pending-verification"),
    Subtree("/pending-verification"),
    Exact("/")
  ]

  predicate Covers(p: Pattern, path: string) {
    match p
    case Exact(q) => path == q
    case Subtree(q) => path == q || (StartsWith(path, q + "/") && |path| > |q| + 1)
  }

  predicate InMatcher(path: string) {
    exists k :: 0 <= k < |Matcher| && Covers(Matcher[k], path)
  }

  /** What a request to `path` meets: the gate on matcher paths, pass-through elsewhere. */
  function Gate(path: string, cookie: Cookie): (d: Decision)
    ensures !InMatcher(path) ==> d == Next
    ensures InMatcher(path) ==> d == Decide(path, cookie)
  {
    if InMatcher(path) then Decide(path, cookie) else Next
  }

  /** The matched paths are exactly `/`, `/login`, `/register` and the `/profile` and `/pending-verification` subtrees. */
  lemma MatcherPaths(path: string)
    ensures InMatcher(path) <==>
      || path == "/" || path == "/login" || path == "/register"
      || path == "/profile" || (StartsWith(path, "/profile/") && |path| > 9)
      || path == "/pending-verification" || (StartsWith(path, "/pending-verification/") && |path| > 22)
  {
    assert Covers(Matcher[0], path) <==> path == "/profile" || (StartsWith(path, "/profile/") && |path| > 9);
    assert Covers(Matcher[5], path) <==>
      path == "/pending-verification" || (StartsWith(path, "/pending-verification/") && |path| > 22);
    if path == "/" { assert Covers(Matcher[6], path); }
    if path == "/login" { assert Covers(Matcher[2], path); }
    if path == "/register" { assert Covers(Matcher[3], path); }
  }

  /** `/` and `/profile` are protected: without a cookie both redirect to the login page. */
  lemma RootAndProfileProtected(cookie: Cookie)
    requires !Present(cookie)
    ensures Gate("/", cookie) == Redirect("/login")
    ensures Gate("/profile", cookie) == Redirect("/login")
  {
    assert Covers(Matcher[6], "/");
    assert Covers(Matcher[1], "/profile");
    assert !StartsWith("/", "/pending-verification");
    assert !StartsWith("/profile", "/pending-verification");
  }

  /** Following a redirect with the same cookie state passes through: the gate never loops. */
  lemma NoRedirectLoop(path: string, cookie: Cookie)
    ensures Gate(path, cookie).Redirect? ==> Gate(Gate(path, cookie).location, cookie) == Next
  {
    assert Covers(Matcher[1], "/profile");
    assert Covers(Matcher[2], "/login");
    assert !StartsWith("/profile", "/pending-verification");
  }

  /** Only presence matters: any two present cookies, whatever sessions they carry, are treated alike. */
  lemma PresenceOnly(path: string, a: Session, b: Session)
    ensures Gate(path, Some(Bearer(a))) == Gate(path, Some(Bearer(b)))
    ensures Gate(path, None) == Gate(path, Some(Blank))
  {
  }
}
