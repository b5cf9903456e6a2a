/** The access gate (`middleware`): before a request reaches the admin pages
    or the posts API it is let through, redirected to the login page, or
    refused with 401, depending on its path, its method and the `admin`
    cookie. */
module Gate {
  import opened Wrappers
  import opened Text
  import Url

  /** What the gate reads from a request: `verb` is the HTTP method,
      `query` the search part of the URL, `cookies` maps cookie names to
      values. */
  datatype Request = Request(pathname: string, verb: string, query: Url.Query, cookies: map<string, string>)

  /** `NextResponse.next()`, a redirect to `pathname?query`, or
      `401 {error: "Unauthorized"}`. */
  datatype Decision = Pass | Redirect(pathname: string, query: Url.Query) | Unauthorized
  {
    /** The status of the response the gate sends itself; a redirect uses
        the default of `NextResponse.redirect`, 307. */
    function Status(): nat
      requires !Pass?
    {
      if Redirect? then 307 else 401
    }
  }

  const LoginPath := "/admin/login"

  predicate IsAdminArea(pathname: string)
  {
    StartsWith(pathname, "/admin")
  }

  predicate IsPostsApi(pathname: string)
  {
    StartsWith(pathname, "/api/posts")
  }

  /** Admin pages always, the posts API for every method but GET. */
  predicate NeedsAuth(r: Request)
  {
    IsAdminArea(r.pathname) || (IsPostsApi(r.pathname) && r.verb != "GET")
  }

  /** `req.cookies.get("admin")?.value === "1"`. */
  predicate IsLoggedIn(cookies: map<string, string>)
  {
    "admin" in cookies && cookies["admin"] == "1"
  }

  /** `middleware(req)`. */
  function Middleware(r: Request): (d: Decision)
    ensures d.Pass? <==> !NeedsAuth(r) || IsLoggedIn(r.cookies)
    ensures d.Redirect? <==> IsAdminArea(r.pathname) && !IsLoggedIn(r.cookies)
    ensures d.Unauthorized? <==>
      !IsAdminArea(r.pathname) && IsPostsApi(r.pathname) && r.verb != "GET" && !IsLoggedIn(r.cookies)
    ensures d.Redirect? ==> d.pathname == LoginPath && Url.Get(d.query, "next") == Some(r.pathname)
  {
    if !NeedsAuth(r) then Pass
    else if !IsLoggedIn(r.cookies) then
      if IsAdminArea(r.pathname) then
        Url.GetSet(r.query, "next", r.pathname);
        Redirect(LoginPath, Url.Set(r.query, "next", r.pathname))
      else Unauthorized
    else Pass
  }

  /** A path under neither prefix, or a GET outside the admin area, passes
      whatever the cookies. */
  lemma UnguardedPasses(r: Request)
    requires !IsAdminArea(r.pathname)
    requires !IsPostsApi(r.pathname) || r.verb == "GET"
    ensures Middleware(r) == Pass
  {
  }

  /** The posts API is not part of the admin area, so reading it needs no
      cookie. */
  lemma PostsApiReadable(r: Request)
    requires IsPostsApi(r.pathname) && r.verb == "GET"
    ensures Middleware(r) == Pass
  {
    assert r.pathname[1] == 'a' && "/admin"[1] == 'a';
    assert r.pathname[2] == 'p' && "/admin"[2] == 'd';
  }

  /** With `admin=1` every request passes. */
  lemma LoggedInPasses(r: Request)
    requires IsLoggedIn(r.cookies)
    ensures Middleware(r) == Pass
  {
  }

  /** An admin page without the cookie is sent to the login page, with the
      original path in `next` and the rest of the query as it was. */
  lemma AdminRedirects(r: Request)
    requires IsAdminArea(r.pathname) && !IsLoggedIn(r.cookies)
    ensures Middleware(r) == Redirect(LoginPath, Url.Set(r.query, "next", r.pathname))
    ensures Url.Without(Middleware(r).query, "next") == Url.Without(r.query, "next")
  {
    Url.SetKeepsOthers(r.query, "next", r.pathname);
  }

  /** A write to the posts API without the cookie gets 401 and no redirect. */
  lemma PostsWriteRefused(r: Request)
    requires IsPostsApi(r.pathname) && r.verb != "GET" && !IsLoggedIn(r.cookies)
    ensures Middleware(r) == Unauthorized && Middleware(r).Status() == 401
  {
    PostsApiReadable(r.(verb := "GET"));
  }

  /** The tests are raw prefixes: `/admin` itself, the login page and even
      `/administrator` are admin paths; `/api/posts/<id>` is a posts path. */
  lemma PrefixClassification(id: string)
    ensures IsAdminArea("/admin") && IsAdminArea(LoginPath) && IsAdminArea("/administrator")
    ensures IsPostsApi("/api/posts/" + id)
  {
    assert ("/api/posts/" + id)[..10] == "/api/posts";
  }

  /** The login page is itself guarded: without the cookie it redirects to
      itself with `next=/admin/login`. */
  lemma LoginPageRedirectsToItself(r: Request)
    requires r.pathname == LoginPath && !IsLoggedIn(r.cookies)
    ensures Middleware(r).Redirect? && Middleware(r).pathname == LoginPath
    ensures Url.Get(Middleware(r).query, "next") == Some(LoginPath)
  {
    assert LoginPath[..6] == "/admin";
  }

  // ------------------------------------------------------------ intended gate

  /** The login page is an admin path but not a posts path. */
  lemma LoginPathClassified()
    ensures IsAdminArea(LoginPath) && !IsPostsApi(LoginPath)
  {
    assert LoginPath[..6] == "/admin";
    assert LoginPath[2] == 'd' && "/api/posts"[2] == 'p';
  }

  /** The guard as evidently intended: every admin page except the login
      page itself, and the posts API for every method but GET. */
  predicate IntendedNeedsAuth(r: Request)
  {
    (IsAdminArea(r.pathname) && r.pathname != LoginPath) || (IsPostsApi(r.pathname) && r.verb != "GET")
  }

  /** `middleware(req)` with the login page left open, so that a visitor
      without the cookie can reach the form the redirect points at. */
  function IntendedMiddleware(r: Request): (d: Decision)
    ensures d.Pass? <==> !IntendedNeedsAuth(r) || IsLoggedIn(r.cookies)
    ensures d.Redirect? <==> IsAdminArea(r.pathname) && r.pathname != LoginPath && !IsLoggedIn(r.cookies)
    ensures d.Unauthorized? <==>
      !IsAdminArea(r.pathname) && IsPostsApi(r.pathname) && r.verb != "GET" && !IsLoggedIn(r.cookies)
    ensures d.Redirect? ==> d.pathname == LoginPath && Url.Get(d.query, "next") == Some(r.pathname)
    ensures r.pathname == LoginPath ==> d == Pass
  {
    LoginPathClassified();
    if !IntendedNeedsAuth(r) then Pass
    else if !IsLoggedIn(r.cookies) then
      if IsAdminArea(r.pathname) then
        Url.GetSet(r.query, "next", r.pathname);
        Redirect(LoginPath, Url.Set(r.query, "next", r.pathname))
      else Unauthorized
    else Pass
  }

  /** The two gates answer alike everywhere except on the login page
      without the cookie, which the gate as written redirects and the
      intended gate lets through. */
  lemma IntendedDiffersOnlyAtLogin(r: Request)
    ensures IntendedMiddleware(r) != Middleware(r) <==> r.pathname == LoginPath && !IsLoggedIn(r.cookies)
  {
    LoginPathClassified();
  }

  // ------------------------------------------------------------ matcher

  /** `/base/:path*`: the path `base` or anything below it. */
  predicate Matches(pathname: string, base: string)
  {
    pathname == base || StartsWith(pathname, base + "/")
  }

  /** `config.matcher`: the paths the middleware runs on. */
  predicate InScope(pathname: string)
  {
    Matches(pathname, "/admin") || Matches(pathname, "/api/posts")
  }

  /** The gate as deployed: out of scope, a request goes straight through. */
  function Gate(r: Request): (d: Decision)
    ensures !InScope(r.pathname) ==> d == Pass
    ensures InScope(r.pathname) ==> d == Middleware(r)
  {
    if InScope(r.pathname) then Middleware(r) else Pass
  }

  lemma MatchesPrefix(pathname: string, base: string)
    requires Matches(pathname, base)
    ensures StartsWith(pathname, base)
  {
    if pathname != base {
      assert pathname[..|base|] == (base + "/")[..|base|];
    }
  }

  /** Every matched path falls under one of the two prefix tests: the
      matcher does not reach paths the middleware would ignore. */
  lemma ScopeWithinPrefixes(pathname: string)
    requires InScope(pathname)
    ensures IsAdminArea(pathname) || IsPostsApi(pathname)
  {
    if Matches(pathname, "/admin") {
      MatchesPrefix(pathname, "/admin");
    } else {
      MatchesPrefix(pathname, "/api/posts");
    }
  }

  /** The prefix tests reach further than the matcher: `/administrator`
      starts with `/admin` but the middleware never runs on it. */
  lemma PrefixBeyondScope(r: Request)
    requires r.pathname == "/administrator"
    ensures IsAdminArea(r.pathname) && Gate(r) == Pass
  {
    assert r.pathname != "/admin";
    assert r.pathname[6] == 'i';
    assert !StartsWith(r.pathname, "/admin/");
    assert !StartsWith(r.pathname, "/api/posts");
  }
}
