/** The login route: it compares the submitted password with the configured
    secret and, on a match, sets the session cookie the gate checks. */
module LoginApi {
  import opened Wrappers
  import opened Json

  /** A `Set-Cookie` with the attributes the route passes. */
  datatype Cookie = Cookie(
    name: string, value: string, httpOnly: bool, sameSite: string,
    secure: bool, path: string, maxAge: nat)

  datatype LoginBody = Ok | Error(error: string)

  datatype LoginReply = LoginReply(status: nat, body: LoginBody, cookie: Option<Cookie>)

  /** Six hours, in seconds. */
  const SessionSeconds: nat := 60 * 60 * 6

  /** The session cookie `admin=1`; `nodeEnv` is `NODE_ENV`. */
  function SessionCookie(nodeEnv: Option<string>): (c: Cookie)
    ensures c.name == "admin" && c.value == "1"
    ensures c.httpOnly && c.sameSite == "lax" && c.path == "/"
    ensures c.maxAge == 21600
    ensures c.secure <==> nodeEnv == Some("production")
  {
    Cookie("admin", "1", true, "lax", nodeEnv == Some("production"), "/", SessionSeconds)
  }

  /** A configured secret: `ADMIN_PASSWORD` set and not empty. */
  predicate Configured(secret: Option<string>)
  {
    secret.Some? && secret.value != ""
  }

  /** `POST /api/auth/login` given `ADMIN_PASSWORD`, `NODE_ENV` and the
      `password` field of the body. */
  function Login(secret: Option<string>, nodeEnv: Option<string>, password: Value): (r: LoginReply)
    ensures r.cookie.Some? <==> r.status == 200
    ensures r.status == 200 <==> Configured(secret) && password == Str(secret.value)
    ensures !Configured(secret) ==> r.status == 500 && r.body == Error("Server misconfigured")
    ensures Configured(secret) && password != Str(secret.value) ==>
      r.status == 401 && r.body == Error("Invalid")
    ensures r.status == 200 ==> r.body == Ok && r.cookie == Some(SessionCookie(nodeEnv))
  {
    if !Configured(secret) then LoginReply(500, Error("Server misconfigured"), None)
    else if password != Str(secret.value) then LoginReply(401, Error("Invalid"), None)
    else LoginReply(200, Ok, Some(SessionCookie(nodeEnv)))
  }

  /** The configuration check comes first: without a secret, every password,
      even a missing one, gets the same 500. */
  lemma MisconfiguredIgnoresPassword(secret: Option<string>, nodeEnv: Option<string>, p: Value, q: Value)
    requires !Configured(secret)
    ensures Login(secret, nodeEnv, p) == Login(secret, nodeEnv, q)
  {
  }

  /** The comparison is strict: a number or any other non-string never
      matches, even when it prints like the secret. */
  lemma OnlyTheStringMatches(secret: string, nodeEnv: Option<string>, p: Value)
    requires secret != "" && !p.Str?
    ensures Login(Some(secret), nodeEnv, p).status == 401
    ensures Login(Some(secret), nodeEnv, p).cookie.None?
  {
  }
}
