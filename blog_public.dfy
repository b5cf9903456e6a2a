/** The public blog section: it loads the published posts, offers every tag
    they carry as a sorted row of buttons, and shows the posts matching the
    search box and the selected tag. */
module BlogPublic {
  import opened Wrappers
  import opened Text

  /** A post as the listing receives it. */
  datatype ListPost = ListPost(
    id: string, title: string, slug: string, date: string,
    author: Option<string>, tags: Option<seq<string>>,
    coverUrl: Option<string>, excerpt: Option<string>)

  /** `p.tags || []`. */
  function TagsOf(p: ListPost): seq<string>
  {
    p.tags.GetOr([])
  }

  // -------------------------------------------------------------- allTags

  /** Some post carries tag `x`. */
  ghost predicate HasTag(posts: seq<ListPost>, x: string)
  {
    exists i :: 0 <= i < |posts| && x in TagsOf(posts[i])
  }

  predicate NoRepeats(s: seq<string>)
  {
    forall i, j :: 0 <= i < j < |s| ==> s[i] != s[j]
  }

  /** `allTags`: the tags of all posts, each once, in ascending order. The
      nested loops fill the set in insertion order (a JavaScript `Set`),
      which is then sorted. */
  method AllTags(posts: seq<ListPost>) returns (r: seq<string>)
    ensures StrictlyAscending(r)
    ensures forall x :: x in r <==> HasTag(posts, x)
  {
    var seen: seq<string> := [];
    for i := 0 to |posts|
      invariant NoRepeats(seen)
      invariant forall x :: x in seen <==> HasTag(posts[..i], x)
    {
      var ts := TagsOf(posts[i]);
      for j := 0 to |ts|
        invariant NoRepeats(seen)
        invariant forall x :: x in seen <==> HasTag(posts[..i], x) || x in ts[..j]
      {
        if ts[j] !in seen {
          seen := seen + [ts[j]];
        }
        assert ts[..j + 1] == ts[..j] + [ts[j]];
      }
      assert ts[..|ts|] == ts;
      HasTagExtend(posts, i);
    }
    assert posts[..|posts|] == posts;
    r := Sort(seen);
    assert forall x :: x in r <==> x in multiset(r);
  }

  lemma HasTagExtend(posts: seq<ListPost>, i: nat)
    requires i < |posts|
    ensures forall x :: HasTag(posts[..i + 1], x) <==> HasTag(posts[..i], x) || x in TagsOf(posts[i])
  {
    forall x
      ensures HasTag(posts[..i + 1], x) <==> HasTag(posts[..i], x) || x in TagsOf(posts[i])
    {
      if HasTag(posts[..i + 1], x) {
        var k :| 0 <= k < i + 1 && x in TagsOf(posts[..i + 1][k]);
        if k < i {
          assert posts[..i][k] == posts[k];
        }
      }
      if HasTag(posts[..i], x) {
        var k :| 0 <= k < i && x in TagsOf(posts[..i][k]);
        assert posts[..i + 1][k] == posts[k];
      }
      if x in TagsOf(posts[i]) {
        assert posts[..i + 1][i] == posts[i];
      }
    }
  }

  /** Posts whose tags are null or absent add no tag. */
  lemma UntaggedAddsNothing(posts: seq<ListPost>, p: ListPost, x: string)
    requires p.tags.None?
    ensures HasTag(posts + [p], x) <==> HasTag(posts, x)
  {
    if HasTag(posts + [p], x) {
      var k :| 0 <= k < |posts| + 1 && x in TagsOf((posts + [p])[k]);
      assert k < |posts| && (posts + [p])[k] == posts[k];
    }
    if HasTag(posts, x) {
      var k :| 0 <= k < |posts| && x in TagsOf(posts[k]);
      assert (posts + [p])[k] == posts[k];
    }
  }

  /** Puts `x` into an ascending sequence that does not hold it. */
  function Insert(x: string, s: seq<string>): (r: seq<string>)
    requires StrictlyAscending(s) && x !in s
    ensures StrictlyAscending(r) && multiset(r) == multiset(s) + multiset{x}
    ensures |r| == |s| + 1 && r[0] == (if s == [] || Less(x, s[0]) then x else s[0])
  {
    if s == [] || Less(x, s[0]) then
      assert forall j :: 0 < j < |s| ==> Less(x, s[j]) by {
        forall j | 0 < j < |s| ensures Less(x, s[j]) { LessTransitive(x, s[0], s[j]); }
      }
      [x] + s
    else
      assert x != s[0];
      LessTotal(x, s[0]);
      var rest := Insert(x, s[1..]);
      assert s == [s[0]] + s[1..];
      assert forall j :: 0 <= j < |rest| ==> Less(s[0], rest[j]) by {
        forall j | 0 <= j < |rest| ensures Less(s[0], rest[j]) {
          if j > 0 { LessTransitive(s[0], rest[0], rest[j]); }
        }
      }
      [s[0]] + rest
  }

  /** `Array.from(set).sort()` on the set's elements. */
  function Sort(s: seq<string>): (r: seq<string>)
    requires NoRepeats(s)
    ensures StrictlyAscending(r) && multiset(r) == multiset(s)
  {
    if s == [] then []
    else
      NoRepeatsTail(s);
      var rest := Sort(s[1..]);
      assert s[0] !in rest by {
        assert multiset(rest) == multiset(s[1..]);
        assert s[0] !in multiset(s[1..]);
      }
      assert s == [s[0]] + s[1..];
      Insert(s[0], rest)
  }

  lemma NoRepeatsTail(s: seq<string>)
    requires NoRepeats(s) && s != []
    ensures NoRepeats(s[1..]) && s[0] !in s[1..]
  {
    var t := s[1..];
    forall i, j | 0 <= i < j < |t| ensures t[i] != t[j] {
      assert t[i] == s[i + 1] && t[j] == s[j + 1];
    }
    forall j | 0 <= j < |t| ensures t[j] != s[0] {
      assert t[j] == s[j + 1];
    }
  }

  // ------------------------------------------------------------- filtered

  /** The search text as compared: `query.trim().toLowerCase()`. */
  function Needle(query: string): string
  {
    Lower(Trim(query))
  }

  /** `matchesQuery`: no query, or the query in the title or the excerpt,
      both lower-cased, a missing excerpt counting as "". */
  predicate MatchesQuery(p: ListPost, q: string)
  {
    q == "" || Contains(Lower(p.title), q) || Contains(Lower(p.excerpt.GetOr("")), q)
  }

  /** `matchesTag`: no tag selected, or the post carries it. */
  predicate MatchesTag(p: ListPost, activeTag: string)
  {
    activeTag == "" || activeTag in TagsOf(p)
  }

  predicate Shown(p: ListPost, query: string, activeTag: string)
  {
    MatchesQuery(p, Needle(query)) && MatchesTag(p, activeTag)
  }

  /** `a` is `b` with some elements left out, order kept. */
  predicate Subsequence(a: seq<ListPost>, b: seq<ListPost>)
    decreases |b|
  {
    if a == [] then true
    else if b == [] then false
    else (a[0] == b[0] && Subsequence(a[1..], b[1..])) || Subsequence(a, b[1..])
  }

  /** `filtered`: the posts that match the query and the tag, in order. */
  function Filtered(posts: seq<ListPost>, query: string, activeTag: string): (r: seq<ListPost>)
    ensures forall p :: p in r <==> p in posts && Shown(p, query, activeTag)
  {
    if posts == [] then []
    else (if Shown(posts[0], query, activeTag) then [posts[0]] else [])
         + Filtered(posts[1..], query, activeTag)
  }

  lemma {:induction false} SubsequenceOfTail(a: seq<ListPost>, b: seq<ListPost>)
    requires b != [] && Subsequence(a, b[1..])
    ensures Subsequence(a, b)
  {
  }

  /** `filtered` keeps the posts' order. */
  lemma {:induction false} FilteredInOrder(posts: seq<ListPost>, query: string, activeTag: string)
    ensures Subsequence(Filtered(posts, query, activeTag), posts)
  {
    if posts != [] {
      FilteredInOrder(posts[1..], query, activeTag);
      var rest := Filtered(posts[1..], query, activeTag);
      if Shown(posts[0], query, activeTag) {
        var r := [posts[0]] + rest;
        assert r[1..] == rest;
      } else {
        assert Filtered(posts, query, activeTag) == rest;
        if rest != [] {
          SubsequenceOfTail(rest, posts);
        }
      }
    }
  }

  /** `filtered` keeps every shown post as often as the list holds it and
      drops every other post. */
  lemma {:induction false} FilteredCount(posts: seq<ListPost>, query: string, activeTag: string, p: ListPost)
    ensures multiset(Filtered(posts, query, activeTag))[p]
      == if Shown(p, query, activeTag) then multiset(posts)[p] else 0
  {
    if posts != [] {
      FilteredCount(posts[1..], query, activeTag, p);
      assert posts == [posts[0]] + posts[1..];
    }
  }

  /** Typing more of the query only narrows what it matches. */
  lemma LongerQueryNarrows(p: ListPost, q: string, x: string)
    requires MatchesQuery(p, q + x)
    ensures MatchesQuery(p, q)
  {
    if q + x != "" && q != "" {
      if Contains(Lower(p.title), q + x) {
        ContainsPrefix(Lower(p.title), q, x);
      } else {
        ContainsPrefix(Lower(p.excerpt.GetOr("")), q, x);
      }
    }
  }

  /** A blank search with no tag selected shows every post. */
  lemma {:induction false} BlankShowsAll(posts: seq<ListPost>, query: string)
    requires AllSpace(query)
    ensures Filtered(posts, query, "") == posts
  {
    AllSpaceTrimsToEmpty(query);
    if posts != [] {
      BlankShowsAll(posts[1..], query);
      assert posts == [posts[0]] + posts[1..];
    }
  }

  /** With a tag selected, every shown post carries it. */
  lemma ShownCarryTag(posts: seq<ListPost>, query: string, activeTag: string)
    requires activeTag != ""
    ensures forall p :: p in Filtered(posts, query, activeTag) ==> activeTag in TagsOf(p)
  {
  }

  /** The search ignores case: two queries that lower-case alike show the
      same posts. */
  lemma CaseInsensitive(posts: seq<ListPost>, q1: string, q2: string, activeTag: string)
    requires Lower(q1) == Lower(q2)
    ensures Filtered(posts, q1, activeTag) == Filtered(posts, q2, activeTag)
  {
    LowerTrim(q1);
    LowerTrim(q2);
    assert Needle(q1) == Needle(q2);
  }

  // ------------------------------------------------------------- tag row

  /** A tag button's click: the active tag is cleared, any other becomes
      active. */
  function Toggle(cur: string, t: string): (r: string)
    ensures r == "" || r == t
    ensures cur == t ==> r == ""
    ensures cur != t ==> r == t
  {
    if cur == t then "" else t
  }

  /** Clicking the same tag twice from no selection comes back to none. */
  lemma ToggleTwice(t: string)
    ensures Toggle(Toggle("", t), t) == ""
  {
  }

  /** Clicking a tag other than the active one selects it. */
  lemma ToggleSelects(cur: string, t: string)
    requires cur != t
    ensures Toggle(cur, t) == t
  {
  }

  // ---------------------------------------------------------------- load

  /** What `JSON.parse` gives for a non-empty response text. */
  datatype Parsed = Malformed(message: string) | NotArray | PostArray(items: seq<ListPost>)

  /** The outcome of `fetch("/api/posts")`. */
  datatype Fetched =
    | NetworkError(message: string)
    | Response(ok: bool, status: nat, text: string, parsed: Parsed)

  datatype Loaded = Posts(posts: seq<ListPost>) | Failed(message: string)

  /** `e.message || "Failed to load posts"`. */
  function FailureMessage(message: string): (r: string)
    ensures r != ""
    ensures message != "" ==> r == message
  {
    if message != "" then message else "Failed to load posts"
  }

  /** The effect's body: a non-OK status throws `HTTP <status>`, an empty
      text counts as `[]`, JSON that is not an array as `[]`; a throw
      becomes an error message. */
  function Load(f: Fetched): (r: Loaded)
    ensures f.NetworkError? ==> r == Failed(FailureMessage(f.message))
    ensures f.Response? && !f.ok ==> r == Failed("HTTP " + NatToString(f.status))
    ensures f.Response? && f.ok && (f.text == "" || f.parsed.NotArray?) ==> r == Posts([])
    ensures f.Response? && f.ok && f.text != "" && f.parsed.PostArray? ==> r == Posts(f.parsed.items)
    ensures f.Response? && f.ok && f.text != "" && f.parsed.Malformed? ==> r == Failed(FailureMessage(f.parsed.message))
    ensures r.Failed? ==> r.message != ""
  {
    match f
    case NetworkError(m) => Failed(FailureMessage(m))
    case Response(ok, status, text, parsed) =>
      if !ok then Failed(FailureMessage("HTTP " + NatToString(status)))
      else if text == "" then Posts([])
      else match parsed
        case Malformed(m) => Failed(FailureMessage(m))
        case NotArray => Posts([])
        case PostArray(items) => Posts(items)
  }

  /** The section's state. */
  class BlogListing {
    var posts: seq<ListPost>
    var loading: bool
    var error: Option<string>
    var query: string
    var activeTag: string

    constructor ()
      ensures posts == [] && loading && error == None && query == "" && activeTag == ""
    {
      posts := [];
      loading := true;
      error := None;
      query := "";
      activeTag := "";
    }

    /** The posts on screen. */
    function Visible(): seq<ListPost>
      reads this
    {
      Filtered(posts, query, activeTag)
    }

    /** The mount effect once `fetch` settles; `loading` ends whatever
        happened. */
    method Finish(f: Fetched)
      modifies this
      ensures !loading && query == old(query) && activeTag == old(activeTag)
      ensures Load(f).Posts? ==> posts == Load(f).posts && error == old(error)
      ensures Load(f).Failed? ==> posts == old(posts) && error == Some(Load(f).message)
    {
      var outcome := Load(f);
      match outcome {
        case Posts(ps) => posts := ps;
        case Failed(m) => error := Some(m);
      }
      loading := false;
    }

    /** The search box's `onChange`. */
    method SetQuery(value: string)
      modifies this
      ensures query == value && posts == old(posts) && activeTag == old(activeTag)
      ensures error == old(error) && loading == old(loading)
    {
      query := value;
    }

    /** A tag button. */
    method ClickTag(t: string)
      modifies this
      ensures activeTag == Toggle(old(activeTag), t)
      ensures posts == old(posts) && query == old(query)
      ensures error == old(error) && loading == old(loading)
    {
      activeTag := Toggle(activeTag, t);
    }

    /** The "clear" button. */
    method ClearTag()
      modifies this
      ensures activeTag == "" && Visible() == Filtered(posts, query, "")
      ensures posts == old(posts) && query == old(query)
      ensures error == old(error) && loading == old(loading)
    {
      activeTag := "";
    }
  }
}
