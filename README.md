# A verified model of a consulting site's blog, admin and contact logic

The site is a Next.js application. It has a public blog, an admin area for
writing posts, and a contact form that e-mails inquiries. This project models
its decision and string logic in Dafny and proves what that logic promises.

- **Access gate** (`middleware.ts`). Every request under `/admin` or
  `/api/posts` passes the gate. It is let through, redirected to
  `/admin/login?next=<path>`, or refused with 401. The outcome depends on the
  path, the HTTP method and the `admin` cookie. As written, the gate also
  guards the login page itself, so a visitor without the cookie is
  redirected in a loop and never sees the form (see "## Findings").
  `Gate.Middleware` models the gate as written; `Gate.IntendedMiddleware`
  leaves the login page open, and the login round trip is proved for it.
- **Login route.** It compares the submitted password with `ADMIN_PASSWORD`.
  On a match it sets the session cookie `admin=1`.
- **Login page.** After a successful login it sends the visitor to the `next`
  query parameter. Under the gate as written the page is reached only by a
  visitor who already holds the cookie.
- **Posts route.** `POST` makes a slug from the title and tries `base`,
  `base-1`, `base-2`, … until one is free. It also normalises the tags and
  applies the defaults. `GET` lists the published posts, newest first, and
  answers `[]` when the store fails.
- **Public blog list.** It shows a sorted index of all tags, a search and tag
  filter that keeps the order of the posts, and a tag toggle.
- **Post details dialog.** It shows the reading time, the paragraphs of the
  post, a fallback date and the tags, when the tags are an array.
- **Contact form.** It checks the inquiry on the client and tracks the state
  of a submission.
- **Contact route.** It drops spam silently. It refuses an inquiry with
  missing fields. While mail is not configured it fakes a successful send.
  Otherwise it builds the subject and the HTML body and sends the mail.
- **Admin editor.** It holds the draft defaults, builds the PUT or POST
  request without `id` and `slug`, and parses and joins the tag field.

Strings are `seq<char>`. Lower-casing and white space are ASCII: `\s` and
`trim` match tab, line feed, vertical tab, form feed, carriage return and
space. JSON request values are `Json.Value`, and JavaScript truthiness is
written out as `Json.Truthy`.

The following are parameters of the operations:

- environment variables;
- the clock;
- the outcome of `fetch` and of the store's `create`;
- whether the mail transport delivers.

Each asynchronous handler is split into two methods. The first runs up to the
request (`Submit`, `SavePost`). The second runs once the answer arrives
(`Settle`, `Saved`).

The slug fallback is applied before slugging, not after. Only a falsy
title is replaced by "post". A title made only of punctuation is truthy, so
it gets the empty base `""`, and its posts get the slugs `""`, `-1`, `-2`, ….
A non-empty slug for every title, as one might expect, is not what the code
does, and the model follows the code. `PostsApi.PunctuationTitleBase` and
`Slug.PunctuationOnly` state this.

Modules follow the source files:

| module | file |
|---|---|
| `Wrappers`, `Json` | shared: `Option`, JSON values and truthiness |
| `Text` | shared: the ASCII string built-ins the source uses |
| `Url` | shared: `URLSearchParams` |
| `Gate` | the gate |
| `LoginApi` | the login route |
| `AdminLogin` | the login page |
| `AuthFlow` | the gate, the login route and the login page together |
| `Slug` | `slugify` and the slug candidates |
| `PostsApi` | the posts route |
| `BlogPublic` | the public blog list |
| `BlogDetails` | the details dialog |
| `ContactForm` | the contact form |
| `ContactApi` | the contact route |
| `AdminBlog` | the admin editor |

## Model

| member | source | states |
|---|---|---|
| Url.Get | src/app/admin/login/page.tsx:14 | `get` answers nothing iff no pair carries the name, and otherwise a value of a pair with that name |
| Url.GetFirst | src/app/admin/login/page.tsx:14 | `get` answers the value of the first pair with the name |
| Url.Set | middleware.ts:18 | after `set`, the pair is present and every other pair is one of the query's pairs with another name |
| Url.Without | middleware.ts:18 | a pair is kept iff it is in the query and carries another name; no remaining pair carries the removed name |
| Url.WithoutConcat | middleware.ts:18 | removing a name works piece by piece and keeps the order of the pairs |
| Url.WithoutOne | middleware.ts:18 | a single pair is dropped iff it carries the name; with `WithoutConcat` this fixes `Without` on every query |
| Url.GetSet | middleware.ts:18 | after `searchParams.set`, `get` returns the value set, and the name occurs exactly once |
| Url.SetKeepsOthers | middleware.ts:18 | `set` leaves every pair with another name where it was |
| Url.SetTwice | middleware.ts:18 | a second `set` of the same name leaves the query as one `set` of the second value would |
| Gate.Middleware | middleware.ts:4-25 | pass iff the request needs no authentication or has `admin=1`; redirect iff it is an admin path without the cookie; 401 iff it is a non-GET posts path outside the admin area without the cookie; a redirect goes to `/admin/login` with `next` equal to the original path |
| Gate.UnguardedPasses | middleware.ts:6-11 | a path under neither prefix, or a GET outside the admin area, passes whatever the cookies |
| Gate.PostsApiReadable | middleware.ts:10 | a GET to a posts path passes without any cookie |
| Gate.LoggedInPasses | middleware.ts:13-24 | with `admin` exactly `"1"` every request passes |
| Gate.AdminRedirects | middleware.ts:15-19 | an admin path without the cookie redirects to the login page, sets `next` and keeps the rest of the query |
| Gate.PostsWriteRefused | middleware.ts:21 | a non-GET posts path without the cookie gets 401, never a redirect |
| Gate.PrefixClassification | middleware.ts:6-7 | the tests are raw prefixes: `/admin`, `/admin/login`, `/administrator` and `/api/posts/<id>` are all covered |
| Gate.LoginPageRedirectsToItself | middleware.ts:6-19 | as written, the login page itself, without the cookie, redirects to `/admin/login?next=/admin/login` |
| Gate.IntendedMiddleware | middleware.ts:6-21 | the gate with the login page left open: pass iff the request needs no authentication under that rule or has `admin=1`; redirect iff it is an admin path other than the login page without the cookie; 401 as before; the redirect carries `next`; the login page always passes |
| Gate.IntendedDiffersOnlyAtLogin | middleware.ts:6-21 | the intended gate and the gate as written differ exactly on the login page requested without the cookie |
| Gate.Gate | middleware.ts:27-29 | outside `config.matcher` every request passes; inside, the middleware decides |
| Gate.ScopeWithinPrefixes | middleware.ts:27-29 | every matched path falls under one of the two prefix tests |
| Gate.PrefixBeyondScope | middleware.ts:6 | `/administrator` passes the admin prefix test but lies outside the matcher, so it passes |
| LoginApi.SessionCookie | src/app/api/auth/login/route.ts:12-18 | the cookie is `admin=1`, httpOnly, SameSite lax, path `/`, max-age 21600, and secure exactly when `NODE_ENV` is `production` |
| LoginApi.Login | src/app/api/auth/login/route.ts:3-20 | 500 "Server misconfigured" without a secret; 401 "Invalid" when the password is not strictly equal to it; otherwise 200 `{ok}` with the session cookie; a cookie is set iff the status is 200 |
| LoginApi.MisconfiguredIgnoresPassword | src/app/api/auth/login/route.ts:5-9 | without a secret every password gets the same reply: the configuration is checked first |
| LoginApi.OnlyTheStringMatches | src/app/api/auth/login/route.ts:8-9 | a non-string password never matches and sets no cookie |
| AdminLogin.NextTarget | src/app/admin/login/page.tsx:14 | the `next` value when it is present and non-empty, otherwise `/admin/blog`; never empty |
| AdminLogin.LoginForm.constructor | src/app/admin/login/page.tsx:10-13 | the password starts empty, there is no error, and the query is kept |
| AdminLogin.LoginForm.SetPassword | src/app/admin/login/page.tsx:38 | the password becomes the typed value and the error is kept |
| AdminLogin.LoginForm.RequestPassword | src/app/admin/login/page.tsx:22 | the `password` value the form posts; `AuthFlow.TypedPasswordDecides` ties it to the route's answer |
| AdminLogin.LoginForm.OnSubmit | src/app/admin/login/page.tsx:16-26 | the error is cleared; on an OK answer the page navigates to the target, on any other answer it shows "Invalid password" and stays; a rejected `fetch` leaves the error cleared and does not navigate; the password is kept |
| AuthFlow.Store | src/app/api/auth/login/route.ts:12 | the jar holds the new cookie and keeps every other cookie |
| AuthFlow.IssuedCookieAdmits | src/app/api/auth/login/route.ts:12-18 | the cookie a successful login sets satisfies the gate's logged-in test, whatever else the jar holds |
| AuthFlow.RedirectLeadsBack | middleware.ts:15-19 | the gate's redirect lands on the login page, and the target the login page reads from it is the original path |
| AuthFlow.LoginPageLoops | middleware.ts:6-19 | as written, the request that follows the redirect is redirected again with `next=/admin/login`, and from the second hop on the redirect leads to the same request every time |
| AuthFlow.LoginRoundTrip | src/app/admin/login/page.tsx:14-24 | under the intended gate: blocked at admin path `p` (not the login page), redirected, the login page passes and targets `p`; after login with the right password the GET of `p` carrying the new cookie passes |
| AuthFlow.TypedPasswordDecides | src/app/admin/login/page.tsx:22 | the typed password is accepted by the login route exactly when the secret is set, non-empty and equal to it |
| AuthFlow.WrongPasswordStaysOut | src/app/api/auth/login/route.ts:8-9 | a wrong password sets no cookie, so the gate, as written and as intended, still redirects |
| Text.LowerChar | src/app/api/posts/route.ts:5 | an upper-case ASCII letter becomes the matching lower-case letter (code plus 32), everything else is kept, and white space stays white space |
| Text.Lower | src/components/BlogSectionPublic.tsx:53 | same length, lower-cased character by character |
| Text.LowerIdempotent | src/app/api/posts/route.ts:5 | lower-casing twice is lower-casing once |
| Text.TrimStart | src/components/ContactSection.tsx:35 | the result does not start with white space and is no longer than the input |
| Text.TrimStartSpec | src/components/ContactSection.tsx:35 | what is removed is white space, and what is kept is the end of the input |
| Text.TrimEnd | src/components/ContactSection.tsx:35 | the result does not end with white space and is no longer than the input |
| Text.TrimEndSpec | src/components/ContactSection.tsx:35 | what is removed is white space, and what is kept is the start of the input |
| Text.Trim | src/components/ContactSection.tsx:35 | the result neither starts nor ends with white space and is no longer than the input |
| Text.TrimWithout | src/app/admin/blog/page.tsx:193-194 | trimming adds no character |
| Text.TrimOfTrimmed | src/components/ContactSection.tsx:37 | trimming a trimmed string changes nothing |
| Text.TrimIdempotent | src/app/api/posts/route.ts:5 | trimming twice is trimming once |
| Text.TrimPadded | src/components/ContactSection.tsx:37 | white space around a trimmed text is exactly what `trim` removes |
| Text.AllSpaceTrimsToEmpty | src/components/BlogSectionPublic.tsx:53 | white space alone trims to the empty string |
| Text.LowerTrim | src/components/BlogSectionPublic.tsx:53 | trimming and lower-casing commute |
| Text.Contains | src/components/BlogSectionPublic.tsx:57-58 | `includes`: a held string is no longer than its holder; every prefix and suffix is held |
| Text.ContainsPrefix | src/components/BlogSectionPublic.tsx:57-58 | a string holding `a + b` holds `a` |
| Text.ContainsMiddle | src/app/api/contact/route.ts:46-54 | a string holds each of its middle parts |
| Text.ContainsExtended | src/app/api/contact/route.ts:46-54 | appending to a string keeps what it holds |
| Text.ContainsLast | src/app/api/contact/route.ts:46-54 | a string holds its own last part |
| Text.Take | src/app/admin/blog/page.tsx:38 | `slice(0, n)` is a prefix of at most `n` characters, exactly `n` when there are enough |
| Text.Split | src/app/api/posts/route.ts:43 | at least one piece, and no piece holds the separator |
| Text.Join | src/app/admin/blog/page.tsx:188 | `join`: the pieces with the separator between them; `JoinSplit` and `ParseJoin` read it back |
| Text.JoinSplit | src/app/api/posts/route.ts:43 | joining the pieces with the separator gives the text back |
| Text.Compact | src/components/BlogDetailsModal.tsx:144 | `filter(Boolean)` keeps only non-empty pieces of the input |
| Text.CompactSingle | src/components/BlogDetailsModal.tsx:144 | a single piece is kept iff it is non-empty |
| Text.CompactConcat | src/components/BlogDetailsModal.tsx:144 | the filter works piece by piece: it distributes over concatenation |
| Text.MapTrim | src/app/api/posts/route.ts:43 | each piece is trimmed and the count is kept |
| Text.ParseList | src/app/api/posts/route.ts:43 | every item is non-empty, trimmed and free of commas |
| Text.ParseListOnePiece | src/app/api/posts/route.ts:43 | text without a comma parses to its trimmed self, or to nothing when that is empty |
| Text.ParseListSeparated | src/app/api/posts/route.ts:43 | parsing works comma by comma: the items of `a,b` are those of `a` followed by those of `b` |
| Text.ParseJoin | src/app/admin/blog/page.tsx:188-195 | parsing a list joined with `", "` gives the list back when every item is non-empty, trimmed and comma-free |
| Text.NatToString | src/components/ContactSection.tsx:58 | a non-empty string of decimal digits |
| Text.DigitValue | src/components/ContactSection.tsx:58 | a digit's value is below ten and is written back as the same digit |
| Text.NatToStringValue | src/components/ContactSection.tsx:58 | the decimal text reads back as the number, and has no leading zero unless it is `0` |
| Text.NatToStringInjective | src/components/ContactSection.tsx:58 | different statuses print differently |
| Text.Less | src/components/BlogSectionPublic.tsx:49 | the code-unit order of `sort`; a proper prefix comes first |
| Text.LessIrreflexive | src/components/BlogSectionPublic.tsx:49 | the default sort order is irreflexive |
| Text.LessTransitive | src/components/BlogSectionPublic.tsx:49 | the default sort order is transitive |
| Text.LessTotal | src/components/BlogSectionPublic.tsx:49 | any two different strings are ordered one way or the other |
| Slug.Strip | src/app/api/posts/route.ts:5 | a character is in the result iff it is in the input and one of `a-z`, `0-9`, white space or `-`; no longer than the input |
| Slug.Hyphenate | src/app/api/posts/route.ts:5 | no white space remains; `HyphenateRun` and `HyphenateWithoutSpace` below fix the result on every string |
| Slug.HyphenateWithoutSpace | src/app/api/posts/route.ts:5 | a string without white space is left as it is |
| Slug.HyphenateRun | src/app/api/posts/route.ts:5 | a maximal white-space run of any length and any mix of white-space characters becomes exactly one `-`, and what precedes it is kept |
| Slug.Slugify | src/app/api/posts/route.ts:4-6 | the slug holds only `a-z`, `0-9` and `-` |
| Slug.SlugifyIdempotent | src/app/api/posts/route.ts:4-6 | slugifying a slug again changes nothing |
| Slug.SlugifyOfSlug | src/app/api/posts/route.ts:4-6 | every string of slug characters is its own slug |
| Slug.PunctuationOnly | src/app/api/posts/route.ts:5 | a title of punctuation and white space slugs to `""` |
| Slug.StripConcat | src/app/api/posts/route.ts:5 | the character filter distributes over concatenation |
| Slug.StripOne | src/app/api/posts/route.ts:5 | a single character is kept iff the pattern spares it; with `StripConcat` this fixes the filter on every string |
| Slug.TwoWords | src/app/api/posts/route.ts:4-6 | two words separated by punctuation and a space, such as "Hello, World!", become `hello-world` |
| Slug.SpacedSlugs | src/app/api/posts/route.ts:4-6 | two slug words around any run of white space, such as three spaces or a tab and a line feed, become the two words joined by one `-` |
| Slug.FallbackSlug | src/app/api/posts/route.ts:29 | the fallback title `post` is its own slug |
| Slug.Candidate | src/app/api/posts/route.ts:32 | each candidate starts with the base; suffixed candidates carry `-` right after it |
| Slug.CandidateInjective | src/app/api/posts/route.ts:32 | different counters give different candidates |
| Slug.TriedSize | src/app/api/posts/route.ts:32 | the first `n` candidates are `n` distinct slugs |
| Slug.FirstFreeAfter | src/app/api/posts/route.ts:32 | when the first `n` candidates are taken, the search stops at `n` |
| Slug.SecondPost | src/app/api/posts/route.ts:32 | the second post with a base gets `base-1` |
| Slug.FirstFreeUnique | src/app/api/posts/route.ts:30-32 | the search has a single possible outcome |
| Slug.FirstFreeBound | src/app/api/posts/route.ts:32 | the search stops within as many steps as there are taken slugs |
| PostsApi.BaseSlug | src/app/api/posts/route.ts:29 | a falsy title or a string title gives a slug base, and it is a slug; other truthy titles fail |
| PostsApi.FalsyTitleBase | src/app/api/posts/route.ts:29 | a missing, null, false, zero or empty title gives base `post` |
| PostsApi.PunctuationTitleBase | src/app/api/posts/route.ts:29 | a non-empty punctuation-only title gives the empty base: there is no fallback after slugging |
| PostsApi.NormaliseTags | src/app/api/posts/route.ts:40-44 | an array is stored unchanged; a string becomes exactly its comma-separated pieces, trimmed, with the empty ones dropped; anything else becomes `[]` |
| PostsApi.NormaliseJoinedTags | src/app/api/posts/route.ts:40-44 | tags joined with `", "` by the editor are stored as the same tags |
| PostsApi.PublishedFlag | src/app/api/posts/route.ts:27 | a missing `published` means true; `null` means false; any other value means its truthiness |
| PostsApi.StoredDate | src/app/api/posts/route.ts:38 | a falsy date is stored as now; a truthy one is parsed |
| PostsApi.FindFreeSlug | src/app/api/posts/route.ts:30-32 | the loop ends, within as many steps as there are taken slugs, at the first free candidate: `base` if it is free, else `base-k` for the least such `k` |
| PostsApi.PostStore.Create | src/app/api/posts/route.ts:24-57 | on success the store gains exactly the new post, which has the first free slug, the normalised fields and an id and slug no stored post has; every failure gives 500 and leaves the store as it was |
| PostsApi.OnlyPublished | src/app/api/posts/route.ts:12 | exactly the published posts |
| PostsApi.OnlyPublishedCount | src/app/api/posts/route.ts:12 | each published post appears as often as in the store, each draft not at all |
| PostsApi.InsertByDateSorted | src/app/api/posts/route.ts:13 | inserting into a newest-first list keeps it newest first and adds exactly the post |
| PostsApi.SortByDate | src/app/api/posts/route.ts:13 | the result is newest first and a permutation of the input |
| PostsApi.ListPublished | src/app/api/posts/route.ts:9-21 | always 200; after a store failure the list is `[]`; otherwise it is the published posts, newest first, as a permutation |
| PostsApi.ListedIffPublished | src/app/api/posts/route.ts:11-15 | a post is listed iff it is stored and published |
| BlogPublic.AllTags | src/components/BlogSectionPublic.tsx:46-50 | every tag of every post appears exactly once, in ascending order, and nothing else does |
| BlogPublic.UntaggedAddsNothing | src/components/BlogSectionPublic.tsx:48 | a post whose tags are null or absent adds no tag |
| BlogPublic.Insert | src/components/BlogSectionPublic.tsx:49 | inserting a new tag keeps the list strictly ascending and adds exactly that tag |
| BlogPublic.Sort | src/components/BlogSectionPublic.tsx:49 | the elements of the set sorted ascending, a permutation of them |
| BlogPublic.MatchesQuery | src/components/BlogSectionPublic.tsx:55-58 | no query, or the query inside the lower-cased title or excerpt; `LongerQueryNarrows` and `CaseInsensitive` state its properties |
| BlogPublic.LongerQueryNarrows | src/components/BlogSectionPublic.tsx:55-58 | a post that matches a query also matches every prefix of it |
| BlogPublic.MatchesTag | src/components/BlogSectionPublic.tsx:59 | no tag selected, or the post's tags hold it; `ShownCarryTag` states its effect on the list |
| BlogPublic.Filtered | src/components/BlogSectionPublic.tsx:52-62 | a post is kept iff it matches the query and the tag |
| BlogPublic.FilteredCount | src/components/BlogSectionPublic.tsx:54-61 | a shown post appears as often as in the list, any other not at all |
| BlogPublic.FilteredInOrder | src/components/BlogSectionPublic.tsx:54 | the kept posts are an order-preserving subsequence of the posts |
| BlogPublic.BlankShowsAll | src/components/BlogSectionPublic.tsx:53-60 | a blank or white-space query with no tag shows every post |
| BlogPublic.ShownCarryTag | src/components/BlogSectionPublic.tsx:59 | with a tag selected, every shown post carries it |
| BlogPublic.CaseInsensitive | src/components/BlogSectionPublic.tsx:53-58 | queries that lower-case alike show the same posts |
| BlogPublic.Toggle | src/components/BlogSectionPublic.tsx:96 | clicking the active tag clears it; clicking any other tag makes it active |
| BlogPublic.ToggleTwice | src/components/BlogSectionPublic.tsx:96 | clicking the same tag twice from no selection restores no selection |
| BlogPublic.ToggleSelects | src/components/BlogSectionPublic.tsx:96 | clicking a tag other than the active one selects it |
| BlogPublic.FailureMessage | src/components/BlogSectionPublic.tsx:36 | the error's message, or "Failed to load posts" when it is empty |
| BlogPublic.Load | src/components/BlogSectionPublic.tsx:28-36 | a network error gives its message; a failed status gives `HTTP <status>`; an empty body or non-array JSON gives `[]`; malformed JSON gives the parser's message; an array is used as it is; a failure message is never empty |
| BlogPublic.BlogListing.constructor | src/components/BlogSectionPublic.tsx:19-23 | no posts, loading, no error, empty query, no tag |
| BlogPublic.BlogListing.Finish | src/components/BlogSectionPublic.tsx:25-44 | loading ends; loaded posts replace the list, a failure keeps the list and sets the error |
| BlogPublic.BlogListing.SetQuery | src/components/BlogSectionPublic.tsx:84 | the query becomes the typed text and nothing else changes |
| BlogPublic.BlogListing.ClickTag | src/components/BlogSectionPublic.tsx:96 | the active tag toggles and nothing else changes |
| BlogPublic.BlogListing.ClearTag | src/components/BlogSectionPublic.tsx:107-113 | no tag is active and the visible posts are those the query alone keeps |
| BlogDetails.WordCount | src/components/BlogDetailsModal.tsx:25 | the number of runs of non-white-space characters; `WordCountOfWords`, `MixedWhiteSpace` and `BlankCountsZero` state its value |
| BlogDetails.SplitSpaceRuns | src/components/BlogDetailsModal.tsx:25 | at least one piece, none holding white space; `SplitAtRun` and `SplitNoSpace` below fix the pieces on every string |
| BlogDetails.SplitNoSpace | src/components/BlogDetailsModal.tsx:25 | a text without white space is one piece |
| BlogDetails.SplitAtRun | src/components/BlogDetailsModal.tsx:25 | a maximal white-space run of any length and mix is one split point: the word before it is a piece and the rest is split on |
| BlogDetails.SplitInterleaved | src/components/BlogDetailsModal.tsx:25 | words separated by arbitrary non-empty white-space runs split back into exactly those words |
| BlogDetails.SplitJoinedWords | src/components/BlogDetailsModal.tsx:25 | words joined by single spaces split back into the same words |
| BlogDetails.WordCountOfWords | src/components/BlogDetailsModal.tsx:25 | `n` words separated by arbitrary white-space runs, with any white space before and after, count `n` |
| BlogDetails.MixedWhiteSpace | src/components/BlogDetailsModal.tsx:25 | `"a \t\n b"` counts two words |
| BlogDetails.BlankCountsZero | src/components/BlogDetailsModal.tsx:25 | missing, empty and white-space text counts no words |
| BlogDetails.Minutes | src/components/BlogDetailsModal.tsx:26 | at least one minute |
| BlogDetails.ReadingTime | src/components/BlogDetailsModal.tsx:24-27 | at least one minute for every input, missing text included |
| BlogDetails.RoundByDivision | src/components/BlogDetailsModal.tsx:26 | `Math.round(w / 200)` equals `(w + 100) div 200` |
| BlogDetails.MinutesInIntegers | src/components/BlogDetailsModal.tsx:26 | the minutes are `max(1, (w + 100) div 200)` |
| BlogDetails.MinutesMonotone | src/components/BlogDetailsModal.tsx:26 | more words never take less time |
| BlogDetails.MinuteSteps | src/components/BlogDetailsModal.tsx:26 | 0 and 299 words take one minute, 300 take two, 500 take three |
| BlogDetails.SplitBlankLines | src/components/BlogDetailsModal.tsx:143 | at least one piece, none holding two newlines in a row |
| BlogDetails.SplitParagraph | src/components/BlogDetailsModal.tsx:143 | a piece without a blank line stays whole, also when it ends in one line feed (`"b\n"`) |
| BlogDetails.SplitAtBlankLine | src/components/BlogDetailsModal.tsx:143 | two newlines between a paragraph and the rest split there |
| BlogDetails.Newlines | src/components/BlogDetailsModal.tsx:143 | a run of `n` line feeds |
| BlogDetails.DropNewlineRun | src/components/BlogDetailsModal.tsx:143 | a run of line feeds is skipped whole, up to the first other character |
| BlogDetails.SplitAtBlankRun | src/components/BlogDetailsModal.tsx:143 | any run of two or more newlines (`\n{2,}`) between a paragraph and the rest is one separator |
| BlogDetails.Body | src/components/BlogDetailsModal.tsx:142 | the content when it is non-empty, else the excerpt, else `""` |
| BlogDetails.Paragraphs | src/components/BlogDetailsModal.tsx:142-144 | every paragraph is non-empty and holds no blank line |
| BlogDetails.ParagraphsAcrossRun | src/components/BlogDetailsModal.tsx:142-144 | two paragraphs separated by any run of two or more newlines show as exactly those two |
| BlogDetails.SplitJoinedParagraphs | src/components/BlogDetailsModal.tsx:143 | paragraphs joined by blank lines split back into the same paragraphs |
| BlogDetails.ParagraphsRoundTrip | src/components/BlogDetailsModal.tsx:142-144 | a body written as paragraphs separated by blank lines is shown as exactly those paragraphs |
| BlogDetails.DisplayDate | src/components/BlogDetailsModal.tsx:102 | the first 10 characters of the date when it is non-empty, else of `createdAt` when it is given, else `""` |
| BlogDetails.ShownTags | src/components/BlogDetailsModal.tsx:63-66 | the tags when they are an array, otherwise none |
| ContactForm.With | src/components/ContactSection.tsx:29-32 | the named field takes the value and every other field is kept |
| ContactForm.EmailValid | src/components/ContactSection.tsx:36 | the e-mail test; `EmailValidIff` proves it equal to the pattern's shape in both directions |
| ContactForm.EmailValidIff | src/components/ContactSection.tsx:36 | the executable e-mail test accepts exactly what the regular expression matches |
| ContactForm.AcceptedEmailShape | src/components/ContactSection.tsx:36 | an accepted address has one `@`, no white space, and a `.` after the `@` with text on both sides |
| ContactForm.Validate | src/components/ContactSection.tsx:34-41 | no error iff the trimmed name is non-empty, the e-mail matches, the trimmed message has at least 10 characters and the honeypot is empty; the name error comes first, then the e-mail error, then the message error |
| ContactForm.SpamReportedLast | src/components/ContactSection.tsx:35-39 | a filled honeypot is reported as spam iff every other check passes; a bot with a blank name gets the name error |
| ContactForm.MessageBoundary | src/components/ContactSection.tsx:37 | with white space around it, a 9-character message is too short and a 10-character one passes |
| ContactForm.BlankIsRejected | src/components/ContactSection.tsx:60 | the reset form is blank in every field and fails on the name |
| ContactForm.FailureText | src/components/ContactSection.tsx:58-62 | `HTTP <status>` for a failed response, else the thrown message, else "Failed to send message."; never empty |
| ContactForm.ContactSection.constructor | src/components/ContactSection.tsx:17-27 | a blank form, not submitting, not ok, no error |
| ContactForm.ContactSection.OnChange | src/components/ContactSection.tsx:29-32 | the edited field takes its value and the flags are kept |
| ContactForm.ContactSection.Submit | src/components/ContactSection.tsx:43-51 | the error becomes the validation result; a request is made iff there is none, and only then does `submitting` become true |
| ContactForm.ContactSection.Settle | src/components/ContactSection.tsx:52-65 | `submitting` ends false; on success `ok` is set and the form is reset; otherwise the failure text is shown and the inputs are kept |
| ContactApi.ReplaceNewlines | src/app/api/contact/route.ts:53 | the result is no shorter than the message |
| ContactApi.ReplaceRemovesNewlines | src/app/api/contact/route.ts:53 | no line feed is left |
| ContactApi.ReplaceKeepsPlain | src/app/api/contact/route.ts:53 | a message without line feeds is inserted as it is |
| ContactApi.ReplaceIsSplitJoin | src/app/api/contact/route.ts:53 | replacing every line feed is splitting into lines and joining them with `<br/>` |
| ContactApi.ReplaceConcat | src/app/api/contact/route.ts:53 | the replacement distributes over concatenation |
| ContactApi.MessageLines | src/app/api/contact/route.ts:53 | two lines joined by a line feed come out joined by `<br/>` |
| ContactApi.OptionalLine | src/app/api/contact/route.ts:50-51 | the labelled line when the field is given, nothing otherwise |
| ContactApi.Subject | src/app/api/contact/route.ts:45 | "New inquiry from " followed by the name |
| ContactApi.EmptyOptionalIsAbsent | src/app/api/contact/route.ts:50-51 | an empty company or phone gives the same body as a missing one |
| ContactApi.Html | src/app/api/contact/route.ts:46-54 | the HTML body: heading, name and e-mail lines, optional company and phone lines, then the message paragraph; its contents are stated by `HtmlMentions` and `HtmlEndsWithMessage` |
| ContactApi.HtmlHoldsMessage | src/app/api/contact/route.ts:53 | the body holds the message with its line feeds turned into `<br/>` |
| ContactApi.HeadingHoldsSender | src/app/api/contact/route.ts:48-49 | the heading holds the name line and the e-mail line |
| ContactApi.HtmlMentions | src/app/api/contact/route.ts:46-54 | the body holds the name line, the e-mail line and the converted message |
| ContactApi.HtmlEndsWithMessage | src/app/api/contact/route.ts:46-54 | the body ends with one paragraph of the message's lines joined by `<br/>` |
| ContactApi.FromHeader | src/app/api/contact/route.ts:57 | `"Website" <SMTP_FROM>`, or `SMTP_USER` when `SMTP_FROM` is not set |
| ContactApi.Compose | src/app/api/contact/route.ts:56-61 | sent to `CONTACT_TO` from the header above, with that subject and body |
| ContactApi.Handle | src/app/api/contact/route.ts:13-68 | a mail is sent iff the body parses, the honeypot is empty, the three fields are given and mail is configured; the replies are, in order: 500 for an unparsable body, 200 for spam, 400 "Missing fields", 200 mock, then 200 or 500 by delivery |
| ContactApi.SpamAlwaysAccepted | src/app/api/contact/route.ts:18-21 | a filled honeypot gets 200 and no mail, whatever else the body holds or lacks |
| ContactApi.MockIgnoresTransport | src/app/api/contact/route.ts:24-33 | without mail settings a complete inquiry gets the mock reply whatever the transport would do |
| ContactApi.StatusesOfHandle | src/app/api/contact/route.ts:13-68 | 200 iff accepted; 400 iff "Missing fields"; 500 iff "Failed to send" |
| AdminBlog.BodyOf | src/app/admin/blog/page.tsx:55 | every field of the draft except `id` and `slug` |
| AdminBlog.BodyKeepsTheRest | src/app/admin/blog/page.tsx:55 | the body together with `id` and `slug` rebuilds the draft: nothing else is lost |
| AdminBlog.BodyIgnoresKeys | src/app/admin/blog/page.tsx:55 | drafts that differ only in `id` or `slug` send the same body |
| AdminBlog.SaveRequest | src/app/admin/blog/page.tsx:55-61 | PUT `/api/posts/{id}` for a non-empty id, POST `/api/posts` otherwise, with the body above |
| AdminBlog.SaveUrlIdentifiesPost | src/app/admin/blog/page.tsx:57 | two drafts saved to the same URL have the same id |
| AdminBlog.DeleteRequest | src/app/admin/blog/page.tsx:70-72 | a DELETE without a body to `/api/posts/<id>` iff the visitor confirms; for a non-empty id that is the URL the post is saved to |
| AdminBlog.NewDraft | src/app/admin/blog/page.tsx:33-45 | empty id, slug, title and content; published; no tags; author "Nabil Najem"; empty cover and excerpt; the date is the first 10 characters of now's ISO text |
| AdminBlog.NewDraftIsCreated | src/app/admin/blog/page.tsx:56-57 | a new draft is saved by POST to `/api/posts` |
| AdminBlog.EditCopy | src/app/admin/blog/page.tsx:49 | every field is kept except the date, which becomes its first 10 characters; a missing date stays missing |
| AdminBlog.EditCopyIdempotent | src/app/admin/blog/page.tsx:49 | copying for editing twice changes nothing more |
| AdminBlog.EditSavesInPlace | src/app/admin/blog/page.tsx:48-57 | a post opened for editing is saved by PUT to its own URL |
| AdminBlog.Edited | src/app/admin/blog/page.tsx:155-215 | each text input sets its own field to the typed value (the optional fields to `Some` of it) and changes nothing else |
| AdminBlog.TagsText | src/app/admin/blog/page.tsx:188 | the tag input's text, the tags joined by `", "`; `TagsRoundTrip` reads it back |
| AdminBlog.WithTagsText | src/app/admin/blog/page.tsx:189-196 | the tags become the parsed items: non-empty, trimmed and comma-free |
| AdminBlog.TagsRoundTrip | src/app/admin/blog/page.tsx:188-195 | a tag list shown in the input and read back is unchanged |
| AdminBlog.TagsTextStable | src/app/admin/blog/page.tsx:188-195 | reading typed tags a second time gives what the first reading gave |
| AdminBlog.AdminBlogPage.constructor | src/app/admin/blog/page.tsx:20-22 | no posts, the form closed, no draft |
| AdminBlog.AdminBlogPage.Load | src/app/admin/blog/page.tsx:24-28 | the list becomes the fetched posts |
| AdminBlog.AdminBlogPage.StartNew | src/app/admin/blog/page.tsx:33-47 | the draft is the new draft and the form opens |
| AdminBlog.AdminBlogPage.StartEdit | src/app/admin/blog/page.tsx:48-51 | the draft is the edit copy and the form opens |
| AdminBlog.AdminBlogPage.Type | src/app/admin/blog/page.tsx:155-215 | the draft takes the typed value in that input's field |
| AdminBlog.AdminBlogPage.TypeTags | src/app/admin/blog/page.tsx:189-196 | the draft's tags become the parsed tag text |
| AdminBlog.AdminBlogPage.SavePost | src/app/admin/blog/page.tsx:53-62 | no request without a draft; otherwise the save request for the draft |
| AdminBlog.AdminBlogPage.Saved | src/app/admin/blog/page.tsx:63-67 | an OK answer closes the form, clears the draft and reloads; any other answer changes nothing |
| AdminBlog.AdminBlogPage.Deleted | src/app/admin/blog/page.tsx:73 | the list is asked for again exactly when the DELETE was answered OK; the page state is not changed |
| AdminBlog.AdminBlogPage.Close | src/app/admin/blog/page.tsx:142-145 | the form closes and the draft is cleared |

## Findings

| source | as written | input that shows it | evidently intended | confidence | as-written member | corrected member |
|---|---|---|---|---|---|---|
| middleware.ts:6-19 | `isAdminArea` is `startsWith("/admin")`, which also covers `/admin/login`, so the login page is guarded like every other admin page | a GET of `/admin/blog` without the `admin` cookie: it is redirected to `/admin/login?next=/admin/blog`, that request is redirected to `/admin/login?next=/admin/login`, and that one to itself again | the login page is reachable without the cookie, so the visitor can log in and return to `/admin/blog` | not executed | AuthFlow.LoginPageLoops | Gate.IntendedMiddleware, AuthFlow.LoginRoundTrip |

`Gate.Middleware` and `Gate.Gate` keep the gate as written. The login flow
in `AuthFlow` (`LoginRoundTrip` and `WrongPasswordStaysOut`) is stated for
`Gate.IntendedMiddleware`. `Gate.IntendedDiffersOnlyAtLogin` shows that the
two gates differ only on the login page requested without the cookie.

## Left out

- Persistence: the Prisma client. The store is a sequence of posts whose
  slugs form the taken set. `src/lib/prisma` and the health route are not
  part of this model.
- The `/api/posts/[id]` route: reading, updating and deleting one post. The
  admin page's requests to it are modelled, the route itself is not.
- The check-then-create race between the slug search and `create`.
  Creations are modelled one at a time.
- Dates and clocks. `new Date()`, `new Date(date)` and `toISOString` become
  parameters: an instant `now`, the parsed date (`None` for an invalid
  date, which makes the store fail) and the ISO text of now.
- PostsApi.SortByDate: the store's order among posts with the same date is
  not modelled. Any newest-first permutation is allowed.
- Environment variables (`ADMIN_PASSWORD`, `NODE_ENV`, `SMTP_*`,
  `CONTACT_TO`) are parameters. `SMTP_PORT` and `SMTP_SECURE` only configure
  the transport and are left out with it.
- Mail transport: `createTransport` and `sendMail` are left out.
  `ContactApi.Handle` takes whether the delivery succeeds. It also returns
  the mail that would be sent.
- Browser effects are left out: `fetch`, React rendering and effects, the
  `mounted` cancellation flag, console logging, and `confirm`. Each
  asynchronous handler becomes two methods. Their inputs are the request
  outcome, the confirmation and the parsed JSON. `router.push` is kept only
  as the target it is given.
- ContactApi.Handle: the payload fields are strings or missing. A
  non-string JSON value (a number, an object) in a field is not modelled;
  such values would be used through their truthiness and string conversion.
- LoginApi.Login: a body that is not valid JSON makes the route throw
  before the secret is checked. This is not modelled. The password is the
  body's `password` value, `Absent` when it is missing.
- ContactForm.OnChange: inputs are named by the six known fields. An input
  with another `name` would add a property the form never reads.
- Unicode: lower-casing, `\s` and `trim` are ASCII only.
- BlogDetails.ReadingTime: the division `words / 200` is a real division,
  not a floating-point one. The two round alike for word counts of any
  realistic size.
- Url: query names and values are decoded text. Percent-encoding is not
  modelled.
- React's rendering of the strings is not modelled: it escapes HTML in the
  page, and the e-mail body is built from raw template strings.
- Static pages, animation, the navigation bar, the footer and the modal's
  scroll lock hold no logic of the kind modelled here.
- PostsApi.PostStore.Create: the id the store assigns is a parameter, and
  the method requires it to be new. The store's id generation is not part
  of this model.
- AdminBlog.BodyOf: the draft has exactly the fields of the page's `Post`
  type. Posts loaded from the route also carry `createdAt` and
  `updatedAt`, and the spread in `savePost` would send those back too. That
  is not modelled.
- AdminBlog.AdminBlogPage.Load: the page loads the public `GET /api/posts`,
  which lists only published posts, so the editor never shows an
  unpublished post. The model keeps this: `Load` takes whatever list the
  route returned. A failed or non-JSON answer is not modelled.
