/** How the gate, the login route and the login page fit together. */
module AuthFlow {
  import opened Wrappers
  import opened Json
  import opened Text
  import Url
  import Gate
  import LoginApi
  import AdminLogin

  /** The browser's cookie jar after it stores `c`. */
  function Store(jar: map<string, string>, c: LoginApi.Cookie): (r: map<string, string>)
    ensures c.name in r && r[c.name] == c.value
    ensures forall n :: n in jar && n != c.name ==> n in r && r[n] == jar[n]
  {
    jar[c.name := c.value]
  }

  /** The cookie a successful login sets is exactly what the gate's
      logged-in test asks for, whatever else the jar holds. */
  lemma IssuedCookieAdmits(secret: Option<string>, nodeEnv: Option<string>, password: Value,
                           jar: map<string, string>)
    requires LoginApi.Login(secret, nodeEnv, password).status == 200
    ensures Gate.IsLoggedIn(Store(jar, LoginApi.Login(secret, nodeEnv, password).cookie.value))
  {
  }

  /** The request the browser makes when it follows redirect `d` from `r`:
      the target path and query, with the same method (307 keeps it) and
      the same cookies. */
  function Landing(r: Gate.Request, d: Gate.Decision): (l: Gate.Request)
    requires d.Redirect?
    ensures l.pathname == d.pathname && l.query == d.query
    ensures l.verb == r.verb && l.cookies == r.cookies
  {
    r.(pathname := d.pathname, query := d.query)
  }

  /** The redirect names the original path as the login page's target:
      `next` is `r`'s path, and the form would send the visitor there. */
  lemma RedirectLeadsBack(r: Gate.Request)
    requires Gate.IsAdminArea(r.pathname) && !Gate.IsLoggedIn(r.cookies)
    ensures Gate.Middleware(r).Redirect?
    ensures Landing(r, Gate.Middleware(r)).pathname == Gate.LoginPath
    ensures AdminLogin.NextTarget(Landing(r, Gate.Middleware(r)).query) == r.pathname
  {
    assert |r.pathname| >= 6;
  }

  /** As written, the login page cannot be reached without the cookie: the
      gate redirects the redirected request again, now with
      `next=/admin/login`, and from there on it sends the browser to the
      very request it made, for ever. */
  lemma LoginPageLoops(r: Gate.Request)
    requires Gate.IsAdminArea(r.pathname) && !Gate.IsLoggedIn(r.cookies)
    ensures Gate.Middleware(r).Redirect?
    ensures var l1 := Landing(r, Gate.Middleware(r));
      Gate.Middleware(l1).Redirect? &&
      var l2 := Landing(l1, Gate.Middleware(l1));
      l2.pathname == Gate.LoginPath && AdminLogin.NextTarget(l2.query) == Gate.LoginPath &&
      Gate.Middleware(l2).Redirect? && Landing(l2, Gate.Middleware(l2)) == l2
  {
    Gate.LoginPageRedirectsToItself(Landing(r, Gate.Middleware(r)));
    var l1 := Landing(r, Gate.Middleware(r));
    Gate.LoginPageRedirectsToItself(Landing(l1, Gate.Middleware(l1)));
    var l2 := Landing(l1, Gate.Middleware(l1));
    Url.SetTwice(l1.query, "next", Gate.LoginPath, Gate.LoginPath);
    assert Gate.Middleware(l2).query == l2.query;
  }

  /** The whole round, under the intended gate that leaves the login page
      open: a visitor without the cookie asks for admin page `r`, is
      redirected to the login page and gets it, logs in with the right
      password, is sent to `r`'s path and, carrying the new cookie, gets
      through. */
  lemma LoginRoundTrip(r: Gate.Request, secret: string, nodeEnv: Option<string>)
    requires Gate.IsAdminArea(r.pathname) && r.pathname != Gate.LoginPath && !Gate.IsLoggedIn(r.cookies)
    requires secret != ""
    ensures Gate.IntendedMiddleware(r).Redirect?
    ensures var landing := Landing(r, Gate.IntendedMiddleware(r));
      landing.pathname == Gate.LoginPath && Gate.IntendedMiddleware(landing) == Gate.Pass &&
      AdminLogin.NextTarget(landing.query) == r.pathname
    ensures var reply := LoginApi.Login(Some(secret), nodeEnv, Str(secret));
      reply.status == 200 && reply.cookie.Some? &&
      var back := Gate.Request(r.pathname, "GET", [], Store(r.cookies, reply.cookie.value));
      Gate.IntendedMiddleware(back) == Gate.Pass
  {
    assert |r.pathname| >= 6;
    var reply := LoginApi.Login(Some(secret), nodeEnv, Str(secret));
    IssuedCookieAdmits(Some(secret), nodeEnv, Str(secret), r.cookies);
  }

  /** What the login page sends is what the route compares: the typed
      password is accepted exactly when the secret is set and equals it. */
  lemma TypedPasswordDecides(f: AdminLogin.LoginForm, secret: Option<string>, nodeEnv: Option<string>)
    ensures LoginApi.Login(secret, nodeEnv, f.RequestPassword()).status == 200
      <==> secret.Some? && secret.value != "" && f.password == secret.value
  {
  }

  /** A wrong password leaves the visitor outside: whatever the jar held,
      the login sets no cookie, so the gate still redirects. */
  lemma WrongPasswordStaysOut(r: Gate.Request, secret: string, nodeEnv: Option<string>, password: Value)
    requires Gate.IsAdminArea(r.pathname) && !Gate.IsLoggedIn(r.cookies)
    requires secret != "" && password != Str(secret)
    ensures LoginApi.Login(Some(secret), nodeEnv, password).cookie.None?
    ensures Gate.Middleware(r).Redirect?
    ensures r.pathname != Gate.LoginPath ==> Gate.IntendedMiddleware(r).Redirect?
  {
  }
}
