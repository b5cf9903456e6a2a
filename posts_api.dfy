/** The collection route of the posts API: `GET` lists the published posts
    newest first, `POST` creates a post under a slug no other post has. The
    persistence store is a sequence of posts held by a `PostStore`. */
module PostsApi {
  import opened Wrappers
  import opened Json
  import opened Text
  import opened Slug

  /** The fields `POST` destructures from the request body. */
  datatype PostInput = PostInput(
    title: Value, date: Value, author: Value, tags: Value,
    coverUrl: Value, excerpt: Value, content: Value, published: Value)

  /** A stored post. Dates are instants (milliseconds since the epoch). */
  datatype Post = Post(
    id: string, title: Value, slug: string, date: int, author: Value,
    tags: seq<Value>, coverUrl: Value, excerpt: Value, content: Value,
    published: bool)

  // ------------------------------------------------------------------ POST

  /** `slugify(title || "post")`. `None` when the title is truthy but not a
      string: `toLowerCase` is then not a function and the handler fails. */
  function BaseSlug(title: Value): (r: Option<string>)
    ensures r.Some? <==> !Truthy(title) || title.Str?
    ensures r.Some? ==> IsSlug(r.value)
  {
    if !Truthy(title) then Some(Slugify("post"))
    else if title.Str? then Some(Slugify(title.s))
    else None
  }

  /** A missing, null, false, zero or empty title slugs as "post". */
  lemma FalsyTitleBase(title: Value)
    requires !Truthy(title)
    ensures BaseSlug(title) == Some("post")
  {
    FallbackSlug();
  }

  /** A title with no letter, digit, space or hyphen is truthy, so it does
      not fall back to "post": its base slug is empty. */
  lemma PunctuationTitleBase(t: string)
    requires t != [] && forall i :: 0 <= i < |t| ==> !SlugChar(LowerChar(t[i]))
    ensures BaseSlug(Str(t)) == Some("")
  {
    PunctuationOnly(t);
  }

  /** The stored tags: an array is kept as it is, a string is split at
      commas into trimmed non-empty labels, anything else becomes `[]`. */
  function NormaliseTags(tags: Value): (r: seq<Value>)
    ensures tags.Arr? ==> r == tags.items
    ensures tags.Str? ==> r == Labels(ParseList(tags.s))
    ensures tags.Str? ==> forall i :: 0 <= i < |r| ==>
      r[i].Str? && r[i].s != "" && Trimmed(r[i].s) && ',' !in r[i].s
    ensures !tags.Arr? && !tags.Str? ==> r == []
  {
    match tags
    case Arr(items) => items
    case Str(s) => Labels(ParseList(s))
    case _ => []
  }

  /** String values, one per label. */
  function Labels(xs: seq<string>): (r: seq<Value>)
    ensures |r| == |xs| && forall i :: 0 <= i < |xs| ==> r[i] == Str(xs[i])
  {
    seq(|xs|, i requires 0 <= i < |xs| => Str(xs[i]))
  }

  /** The tag text the admin editor sends, labels joined by ", ", comes back
      as the same labels. */
  lemma NormaliseJoinedTags(xs: seq<string>)
    requires ListItems(xs)
    ensures NormaliseTags(Str(Join(xs, ", "))) == Labels(xs)
  {
    ParseJoin(xs);
  }

  /** `published = true` then `!!published`: the default applies only when
      the field is absent, so `null` unpublishes. */
  function PublishedFlag(published: Value): (r: bool)
    ensures published.Absent? ==> r
    ensures published.Null? ==> !r
    ensures !published.Absent? ==> (r <==> Truthy(published))
  {
    if published.Absent? then true else Truthy(published)
  }

  /** `date ? new Date(date) : new Date()`: `parsed` is what `new Date(date)`
      gives (`None` for an invalid date, which the store refuses), `now` the
      clock. */
  function StoredDate(date: Value, parsed: Option<int>, now: int): (r: Option<int>)
    ensures !Truthy(date) ==> r == Some(now)
    ensures Truthy(date) ==> r == parsed
  {
    if Truthy(date) then parsed else Some(now)
  }

  /** The record `POST` asks the store to create. */
  function NewPost(input: PostInput, id: string, slug: string, date: int): Post
  {
    Post(id, input.title, slug, date, input.author, NormaliseTags(input.tags),
         input.coverUrl, input.excerpt, input.content, PublishedFlag(input.published))
  }

  /** The reply to `POST`: 201 with the post, or 500 with an error. */
  datatype CreateReply = Created(post: Post) | CreateFailed
  {
    function Status(): nat
    {
      if Created? then 201 else 500
    }

    function Error(): Option<string>
    {
      if Created? then None else Some("Failed to create post")
    }
  }

  /** The uniqueness loop: try `base`, then `base-1`, `base-2`, … until a
      slug no post has. Returns the slug and its counter. */
  method FindFreeSlug(base: string, taken: set<string>) returns (slug: string, k: nat)
    ensures slug == Candidate(base, k) && FirstFree(base, taken, k)
    ensures k <= |taken|
  {
    slug := base;
    var i: nat := 1;
    while slug in taken
      invariant slug == Candidate(base, i - 1)
      invariant Tried(base, i - 1) <= taken
      decreases |taken - Tried(base, i - 1)|
    {
      TriedGrows(base, i - 1, taken);
      slug := base + "-" + NatToString(i);
      i := i + 1;
    }
    k := i - 1;
    assert forall j :: 0 <= j < k ==> Candidate(base, j) in Tried(base, k);
    FirstFreeBound(base, taken, k);
  }

  /** One more rejected candidate: the tried set grows by a taken slug it
      did not hold, so fewer taken slugs are left to try. */
  lemma TriedGrows(base: string, n: nat, taken: set<string>)
    requires Tried(base, n) <= taken && Candidate(base, n) in taken
    ensures Tried(base, n + 1) <= taken
    ensures |taken - Tried(base, n + 1)| < |taken - Tried(base, n)|
  {
    var x := Candidate(base, n);
    assert Tried(base, n + 1) == Tried(base, n) + {x};
    FirstFreeAfter(base, n);
    assert taken - Tried(base, n + 1) == (taken - Tried(base, n)) - {x};
  }

  /** Every stored post has its own id and its own slug. */
  ghost predicate Distinct(posts: seq<Post>)
  {
    forall i, j :: 0 <= i < j < |posts| ==> posts[i].slug != posts[j].slug && posts[i].id != posts[j].id
  }

  class PostStore {
    var posts: seq<Post>

    ghost predicate Valid()
      reads this
    {
      Distinct(posts)
    }

    function Slugs(): set<string>
      reads this
    {
      set p | p in posts :: p.slug
    }

    function Ids(): set<string>
      reads this
    {
      set p | p in posts :: p.id
    }

    constructor ()
      ensures Valid() && posts == []
    {
      posts := [];
    }

    /** `POST /api/posts`. `body` is `None` when the body does not parse
        or is `null`; any other body that is not an object is `Some` with
        every field `Absent`; `id` is the identifier the store assigns; `stored` says
        whether the store's `create` succeeded. Every failure leaves the
        store as it was and answers 500. */
    method Create(body: Option<PostInput>, id: string, parsedDate: Option<int>, now: int, stored: bool)
      returns (reply: CreateReply, ghost tries: nat)
      requires Valid() && id !in Ids()
      modifies this
      ensures Valid()
      ensures reply.Created? <==>
        body.Some? && BaseSlug(body.value.title).Some? &&
        StoredDate(body.value.date, parsedDate, now).Some? && stored
      ensures reply.CreateFailed? ==> posts == old(posts)
      ensures reply.Created? ==>
        var base := BaseSlug(body.value.title).value;
        FirstFree(base, old(Slugs()), tries) &&
        reply.post == NewPost(body.value, id, Candidate(base, tries),
                              StoredDate(body.value.date, parsedDate, now).value) &&
        posts == old(posts) + [reply.post]
    {
      tries := 0;
      if body.None? {
        return CreateFailed, tries;
      }
      var input := body.value;
      var base := BaseSlug(input.title);
      if base.None? {
        return CreateFailed, tries;
      }
      var slug, k := FindFreeSlug(base.value, Slugs());
      tries := k;
      var date := StoredDate(input.date, parsedDate, now);
      if date.None? || !stored {
        return CreateFailed, tries;
      }
      var post := NewPost(input, id, slug, date.value);
      forall i | 0 <= i < |posts|
        ensures posts[i].slug != slug && posts[i].id != id
      {
        assert posts[i] in posts;
      }
      posts := posts + [post];
      reply := Created(post);
    }
  }

  // ------------------------------------------------------------------- GET

  predicate NewestFirst(s: seq<Post>)
  {
    forall i, j :: 0 <= i < j < |s| ==> s[i].date >= s[j].date
  }

  /** The `where: { published: true }` filter. */
  function OnlyPublished(s: seq<Post>): (r: seq<Post>)
    ensures forall i :: 0 <= i < |r| ==> r[i].published
    ensures forall p :: p in r <==> p in s && p.published
  {
    if s == [] then []
    else (if s[0].published then [s[0]] else []) + OnlyPublished(s[1..])
  }

  /** The published posts keep their multiplicity; the drafts are gone. */
  lemma {:induction false} OnlyPublishedCount(s: seq<Post>, p: Post)
    ensures multiset(OnlyPublished(s))[p] == if p.published then multiset(s)[p] else 0
  {
    if s != [] {
      OnlyPublishedCount(s[1..], p);
      assert s == [s[0]] + s[1..];
    }
  }

  /** Puts `p` in front of the first post that is older than it. */
  function InsertByDate(p: Post, s: seq<Post>): (r: seq<Post>)
    ensures |r| == |s| + 1
    ensures r[0] == if s == [] || p.date >= s[0].date then p else s[0]
  {
    if s == [] || p.date >= s[0].date then [p] + s
    else [s[0]] + InsertByDate(p, s[1..])
  }

  /** Inserting into a newest-first sequence keeps it newest first and adds
      exactly `p`. */
  lemma {:induction false} InsertByDateSorted(p: Post, s: seq<Post>)
    requires NewestFirst(s)
    ensures NewestFirst(InsertByDate(p, s))
    ensures multiset(InsertByDate(p, s)) == multiset(s) + multiset{p}
  {
    if s == [] || p.date >= s[0].date {
      NewestFirstCons(p, s);
    } else {
      NewestFirstTail(s);
      InsertByDateSorted(p, s[1..]);
      var rest := InsertByDate(p, s[1..]);
      assert rest[0].date <= s[0].date;
      NewestFirstCons(s[0], rest);
      assert s == [s[0]] + s[1..];
    }
  }

  /** The `orderBy: { date: "desc" }` ordering. The store leaves the order
      of equal dates open; this is one admissible order. */
  function SortByDate(s: seq<Post>): (r: seq<Post>)
    ensures NewestFirst(r) && multiset(r) == multiset(s)
  {
    if s == [] then []
    else
      var rest := SortByDate(s[1..]);
      SortStep(s, rest);
      InsertByDate(s[0], rest)
  }

  lemma NewestFirstTail(s: seq<Post>)
    requires NewestFirst(s) && s != []
    ensures NewestFirst(s[1..]) && (|s| > 1 ==> s[1].date <= s[0].date)
  {
    var t := s[1..];
    forall i, j | 0 <= i < j < |t| ensures t[i].date >= t[j].date {
      assert t[i] == s[i + 1] && t[j] == s[j + 1];
    }
  }

  /** A post no older than the head of a newest-first sequence can go in front. */
  lemma NewestFirstCons(p: Post, s: seq<Post>)
    requires NewestFirst(s) && (s == [] || p.date >= s[0].date)
    ensures NewestFirst([p] + s)
  {
    var r := [p] + s;
    forall i, j | 0 <= i < j < |r| ensures r[i].date >= r[j].date {
      if i == 0 {
        assert r[j] == s[j - 1];
        if j > 1 { assert s[0].date >= s[j - 1].date; }
      } else {
        assert r[i] == s[i - 1] && r[j] == s[j - 1];
      }
    }
  }

  lemma SortStep(s: seq<Post>, rest: seq<Post>)
    requires s != [] && NewestFirst(rest) && multiset(rest) == multiset(s[1..])
    ensures NewestFirst(InsertByDate(s[0], rest))
    ensures multiset(InsertByDate(s[0], rest)) == multiset(s)
  {
    InsertByDateSorted(s[0], rest);
    assert s == [s[0]] + s[1..];
  }

  datatype ListReply = ListReply(status: nat, posts: seq<Post>)

  /** `GET /api/posts`. `result` is what the store returned, `None` when
      the query failed; a failure still answers 200, with no posts. */
  function ListPublished(result: Option<seq<Post>>): (r: ListReply)
    ensures r.status == 200
    ensures result.None? ==> r.posts == []
    ensures result.Some? ==> NewestFirst(r.posts) && multiset(r.posts) == multiset(OnlyPublished(result.value))
  {
    match result
    case None => ListReply(200, [])
    case Some(s) => ListReply(200, SortByDate(OnlyPublished(s)))
  }

  /** A post is listed exactly when it is stored and published. */
  lemma ListedIffPublished(s: seq<Post>, p: Post)
    ensures p in ListPublished(Some(s)).posts <==> p in s && p.published
  {
    var r := ListPublished(Some(s)).posts;
    assert p in r <==> p in multiset(r);
  }
}
