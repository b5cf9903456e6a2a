/** The admin blog page: the list of posts, the editor's draft, and the
    requests the page makes to the posts routes. */
module AdminBlog {
  import opened Wrappers
  import opened Text

  /** A post as the page holds it. `date` may be missing; `author`, `tags`,
      `coverUrl` and `excerpt` may be missing or null (both `None`). */
  datatype Post = Post(
    id: string, title: string, slug: string, date: Option<string>,
    author: Option<string>, tags: Option<seq<string>>, coverUrl: Option<string>,
    excerpt: Option<string>, content: string, published: bool)

  /** A draft without its `id` and `slug`: what the page sends to be saved. */
  datatype SaveBody = SaveBody(
    title: string, date: Option<string>, author: Option<string>,
    tags: Option<seq<string>>, coverUrl: Option<string>, excerpt: Option<string>,
    content: string, published: bool)

  /** A request to the posts routes. */
  datatype Call = Call(verb: string, url: string, body: Option<SaveBody>)

  const DefaultAuthor := "Nabil Najem"
  const PostsUrl := "/api/posts"

  /** `const { id, slug, ...body } = editing`. */
  function BodyOf(p: Post): (b: SaveBody)
    ensures b.title == p.title && b.date == p.date && b.author == p.author
    ensures b.tags == p.tags && b.coverUrl == p.coverUrl && b.excerpt == p.excerpt
    ensures b.content == p.content && b.published == p.published
  {
    SaveBody(p.title, p.date, p.author, p.tags, p.coverUrl, p.excerpt, p.content, p.published)
  }

  /** A body put back together with an `id` and a `slug`. */
  function WithKeys(b: SaveBody, id: string, slug: string): (p: Post)
    ensures p.id == id && p.slug == slug
  {
    Post(id, b.title, slug, b.date, b.author, b.tags, b.coverUrl, b.excerpt, b.content, b.published)
  }

  /** Removing `id` and `slug` loses nothing else: they and the body rebuild
      the draft, and a rebuilt draft gives back the body. */
  lemma BodyKeepsTheRest(p: Post, b: SaveBody, id: string, slug: string)
    ensures WithKeys(BodyOf(p), p.id, p.slug) == p
    ensures BodyOf(WithKeys(b, id, slug)) == b
  {
  }

  /** Drafts that differ only in `id` or `slug` send the same body. */
  lemma BodyIgnoresKeys(p: Post, id: string, slug: string)
    ensures BodyOf(p.(id := id, slug := slug)) == BodyOf(p)
  {
  }

  /** The request `savePost` makes: an update of `/api/posts/{id}` for a
      draft with an id, a creation at `/api/posts` for one without. */
  function SaveRequest(p: Post): (c: Call)
    ensures c.body == Some(BodyOf(p))
    ensures p.id != [] ==> c.verb == "PUT" && c.url == PostsUrl + "/" + p.id
    ensures p.id == [] ==> c.verb == "POST" && c.url == PostsUrl
  {
    if p.id != [] then Call("PUT", PostsUrl + "/" + p.id, Some(BodyOf(p)))
    else Call("POST", PostsUrl, Some(BodyOf(p)))
  }

  /** The address tells the drafts apart: two drafts saved to the same URL
      have the same id. */
  lemma SaveUrlIdentifiesPost(p: Post, q: Post)
    requires SaveRequest(p).url == SaveRequest(q).url
    ensures p.id == q.id
  {
    var u := SaveRequest(p).url;
    if p.id != [] && q.id != [] {
      assert p.id == u[|PostsUrl| + 1..];
      assert q.id == u[|PostsUrl| + 1..];
    }
  }

  /** `del`: after the visitor confirms, a delete of `/api/posts/{id}`. */
  function DeleteRequest(id: string, confirmed: bool): (r: Option<Call>)
    ensures r.Some? <==> confirmed
    ensures confirmed ==> r.value.verb == "DELETE" && r.value.body.None?
    ensures confirmed ==> r.value.url == PostsUrl + "/" + id
    ensures confirmed && id != [] ==>
      r.value.url == SaveRequest(Post(id, "", "", None, None, None, None, None, "", true)).url
  {
    if confirmed then Some(Call("DELETE", PostsUrl + "/" + id, None)) else None
  }

  /** `startNew`'s draft; `now` is `new Date().toISOString()`. */
  function NewDraft(now: string): (p: Post)
    ensures p.id == [] && p.slug == [] && p.title == [] && p.content == []
    ensures p.published && p.tags == Some([]) && p.author == Some(DefaultAuthor)
    ensures p.coverUrl == Some([]) && p.excerpt == Some([])
    ensures p.date.Some? && |p.date.value| <= 10 && StartsWith(now, p.date.value)
    ensures p.date == Some(Take(now, 10))
  {
    Post([], [], [], Some(Take(now, 10)), Some(DefaultAuthor), Some([]), Some([]), Some([]), [], true)
  }

  /** A new draft is saved by creation, never as an update. */
  lemma NewDraftIsCreated(now: string)
    ensures SaveRequest(NewDraft(now)).verb == "POST"
    ensures SaveRequest(NewDraft(now)).url == PostsUrl
  {
  }

  /** `startEdit`'s copy: the post with its date cut to the day. */
  function EditCopy(p: Post): (r: Post)
    ensures r.(date := p.date) == p
    ensures p.date.None? ==> r.date.None?
    ensures p.date.Some? ==> r.date.Some? && |r.date.value| <= 10 && StartsWith(p.date.value, r.date.value)
    ensures p.date.Some? ==> r.date == Some(Take(p.date.value, 10))
    ensures p.date.Some? && |p.date.value| <= 10 ==> r == p
  {
    match p.date
    case None => p
    case Some(d) => p.(date := Some(Take(d, 10)))
  }

  /** Opening a post for editing twice changes nothing more. */
  lemma EditCopyIdempotent(p: Post)
    ensures EditCopy(EditCopy(p)) == EditCopy(p)
  {
  }

  /** Editing keeps the id, so a post opened from the list is saved back to
      its own address. */
  lemma EditSavesInPlace(p: Post)
    requires p.id != []
    ensures SaveRequest(EditCopy(p)).verb == "PUT"
    ensures SaveRequest(EditCopy(p)).url == SaveRequest(p).url
  {
  }

  // ---------------------------------------------------------------- the editor's inputs

  /** The inputs that take text as typed. */
  datatype Input = Title | Date | Author | CoverUrl | Excerpt | Content

  function Edited(p: Post, input: Input, value: string): (r: Post)
    ensures r.id == p.id && r.slug == p.slug && r.tags == p.tags && r.published == p.published
    ensures input == Title ==> r == p.(title := value)
    ensures input == Content ==> r == p.(content := value)
    ensures input == Date ==> r == p.(date := Some(value))
    ensures input == Author ==> r == p.(author := Some(value))
    ensures input == CoverUrl ==> r == p.(coverUrl := Some(value))
    ensures input == Excerpt ==> r == p.(excerpt := Some(value))
    ensures input !in {Title, Content} ==> r.title == p.title && r.content == p.content
  {
    match input
    case Title => p.(title := value)
    case Date => p.(date := Some(value))
    case Author => p.(author := Some(value))
    case CoverUrl => p.(coverUrl := Some(value))
    case Excerpt => p.(excerpt := Some(value))
    case Content => p.(content := value)
  }

  /** The tag input's text: `(tags || []).join(", ")`. */
  function TagsText(p: Post): string
  {
    Join(p.tags.GetOr([]), ", ")
  }

  /** The tag input's `onChange`: split at commas, trim, drop the empties. */
  function WithTagsText(p: Post, text: string): (r: Post)
    ensures r == p.(tags := Some(ParseList(text)))
    ensures ListItems(r.tags.value)
  {
    p.(tags := Some(ParseList(text)))
  }

  /** Showing the tags in the input and reading them back keeps them, as
      long as each is non-empty, trimmed and free of commas. */
  lemma TagsRoundTrip(p: Post)
    requires p.tags.Some? && ListItems(p.tags.value)
    ensures WithTagsText(p, TagsText(p)) == p
  {
    ParseJoin(p.tags.value);
  }

  /** Reading a typed list twice gives what reading it once did. */
  lemma TagsTextStable(p: Post, text: string)
    ensures WithTagsText(WithTagsText(p, text), TagsText(WithTagsText(p, text))) == WithTagsText(p, text)
  {
    TagsRoundTrip(WithTagsText(p, text));
  }

  // ---------------------------------------------------------------- the page

  class AdminBlogPage {
    var posts: seq<Post>
    var openForm: bool
    var editing: Option<Post>

    constructor ()
      ensures posts == [] && !openForm && editing == None
    {
      posts := [];
      openForm := false;
      editing := None;
    }

    /** `load`: the list is replaced by what `/api/posts` returned. */
    method Load(data: seq<Post>)
      modifies this
      ensures posts == data && openForm == old(openForm) && editing == old(editing)
    {
      posts := data;
    }

    method StartNew(now: string)
      modifies this
      ensures editing == Some(NewDraft(now)) && openForm && posts == old(posts)
    {
      editing := Some(NewDraft(now));
      openForm := true;
    }

    method StartEdit(p: Post)
      modifies this
      ensures editing == Some(EditCopy(p)) && openForm && posts == old(posts)
    {
      editing := Some(EditCopy(p));
      openForm := true;
    }

    /** A text input of the open editor. */
    method Type(input: Input, value: string)
      requires editing.Some?
      modifies this
      ensures editing == Some(Edited(old(editing).value, input, value))
      ensures posts == old(posts) && openForm == old(openForm)
    {
      editing := Some(Edited(editing.value, input, value));
    }

    /** The tag input of the open editor. */
    method TypeTags(text: string)
      requires editing.Some?
      modifies this
      ensures editing == Some(WithTagsText(old(editing).value, text))
      ensures posts == old(posts) && openForm == old(openForm)
    {
      editing := Some(WithTagsText(editing.value, text));
    }

    /** The synchronous part of `savePost`: with no draft it does nothing;
        otherwise it yields the request to make. */
    method SavePost() returns (request: Option<Call>)
      ensures editing.None? ==> request.None?
      ensures editing.Some? ==> request == Some(SaveRequest(editing.value))
    {
      if editing.None? {
        return None;
      }
      request := Some(SaveRequest(editing.value));
    }

    /** The rest of `savePost`, once the route answers: an OK answer closes
        the editor and asks for the list again; any other leaves it open and
        the draft as it was. */
    method Saved(accepted: bool) returns (reload: bool)
      modifies this
      ensures reload == accepted && posts == old(posts)
      ensures accepted ==> !openForm && editing.None?
      ensures !accepted ==> openForm == old(openForm) && editing == old(editing)
    {
      if accepted {
        openForm := false;
        editing := None;
      }
      reload := accepted;
    }

    /** The rest of `del`, once the route answers: an OK answer asks for
        the list again; the page itself is left as it was either way. */
    method Deleted(accepted: bool) returns (reload: bool)
      ensures reload <==> accepted
    {
      reload := accepted;
    }

    /** The close and cancel buttons. */
    method Close()
      modifies this
      ensures !openForm && editing.None? && posts == old(posts)
    {
      openForm := false;
      editing := None;
    }
  }
}
