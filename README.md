# Yatube posts core, modelled in Dafny

Yatube is a small blogging site. Users write posts, optionally filed under a
group and carrying an image. They comment on posts and follow other authors
to get a personal feed. This project models the logic under the web glue of
`yatube/posts`:

- the request handlers of `views.py`, as state transitions of an in-memory
  store (class `Views.Store`) holding the users, groups, posts, comments and
  Follow rows;
- the pagination helper `get_page` of `utils.py`, as the pure function
  `Pagination.GetPage`, including the contract of Django's
  `Paginator.get_page` that it relies on and Python's `int()` applied to the
  `page` query parameter (`PyInt.ParseInt`).

Each handler takes the current user as `Option<Username>` (`None` is an
anonymous request) and returns a `Views.Response`. A response is a redirect
(to login, to a profile or to a post's page), not-found, a server error, or a
rendered page with the context values the handler computes.
`@login_required` handlers answer an anonymous request with `RedirectLogin`
and change nothing.

Modules, one per concern:

| file | module | models |
|---|---|---|
| wrappers.dfy | `Wrappers` | `Option` |
| entities.dfy | `Entities` | the Post, Comment and Follow records |
| pyint.dfy | `PyInt` | Python's `int(str)` in base 10, and `str(int)` |
| pagination.dfy | `Pagination` | `SORT_POST`, `Paginator.num_pages`, `validate_number`, `page`, `get_page` |
| follows.dfy | `FollowTable` | `get_or_create` and `filter(...).delete()` on the Follow table, and the author list of `follow_index` |
| feeds.dfy | `Feeds` | the post querysets: by group, by author, by a list of authors |
| views.dfy | `Views` | the handlers, the store's constraints, and `post_detail`'s lookup |

Ordering. The Post model orders posts newest first. `models.py` is not part
of this model, so the post table is a sequence kept in that display order,
and `post_create` puts the new post at the front. Every feed is a filter of
that sequence that keeps its order (`Feeds.SelectAppend`).

The Follow table is a sequence of rows. Its two constraints are stated in
`FollowTable.WellFormed`: no pair appears twice, and nobody follows
themselves. `Views.Consistent` adds unique post keys below the next key and
the foreign keys: every post's author and group, every comment's post and
author, and both users of every Follow row exist. A signed-in viewer always
has a user row, so the handlers that store the viewer require it. The post
form's group field accepts only an existing group or none
(`Views.KnownGroup`). Every state-changing handler keeps these constraints. Each handler's `modifies` frame names the one table it
may change, so the other tables stay as they were.

Behaviour of the code that a reader might expect otherwise:

- Page numbers below 1. Django's `Paginator.get_page` gives the last page
  for a zero or negative page number, as for one past the end. Clamping to
  the nearest page would give page 1 for `?page=0`; Django gives the last
  page, and so does the model.
- Anonymous profile views. `profile` starts `following` at `True` and only
  recomputes it for an authenticated viewer, so an anonymous viewer gets
  `True`, not `False`.
- Profile counts. `profile` reports only `posts_count`. It computes no
  follower or following counts.
- Template flags. `post_create` renders its form with `is_edit = True` and
  `post_edit` with `is_edit = False`. `ShowForm(isEdit)` records this as
  written.
- Whitespace around `?page=`. Python's `int()` strips the ASCII blanks (tab,
  line feed, vertical tab, form feed, carriage return, space) and every
  non-ASCII `str.isspace()` character. It does not strip U+001C..U+001F,
  although `str.isspace()` accepts them, so `?page=%1C2` shows page 1.

## Model

| member | source | states |
|---|---|---|
| PyInt.StripLeft | yatube/posts/utils.py:9-10 | `int()` drops exactly the leading whitespace (ASCII blanks and non-ASCII `str.isspace()` characters, not U+001C..U+001F): the result is a suffix, every dropped character is such whitespace, and the result does not start with one |
| PyInt.StripRight | yatube/posts/utils.py:9-10 | `int()` drops exactly the trailing whitespace, in the same three parts |
| PyInt.ParseInt | yatube/posts/utils.py:9-10 | Python's `int()` on the `page` value; its meaning is stated by `ParseIntToString` (the round trip with `str`) and `NoDigitNoInt` (a value without digits is rejected) |
| PyInt.IntToString | yatube/posts/tests/test_views.py:163-170 | `str(k)` of an integer; `ParseIntToString` states that `int()` reads it back as `k` |
| PyInt.NatToString | yatube/posts/tests/test_views.py:163-170 | `str(k)` of a page number is a non-empty run of decimal digits |
| PyInt.NatToStringIsRun | yatube/posts/tests/test_views.py:163-170 | `str(k)` is a valid digit run whose value is `k` |
| PyInt.ParseNatToString | yatube/posts/tests/test_views.py:163-170 | `int(str(n)) == n` for a natural number |
| PyInt.ParseNegNatToString | yatube/posts/utils.py:9-10 | `int("-" + str(n)) == -n` |
| PyInt.ParseIntToString | yatube/posts/tests/test_views.py:276-283 | `int(str(k)) == k` for every integer, so `?page=k` names page number `k` |
| PyInt.NoDigitNoInt | yatube/posts/utils.py:9-10 | a `page` value with no decimal digit in it is not an integer |
| Pagination.NumPages | yatube/posts/utils.py:8 | the page count is the fewest pages of `SORT_POST` = 10 rows that hold every row, and at least 1 |
| Pagination.ValidateNumber | yatube/posts/utils.py:10 | PageNotAnInteger exactly when the value is missing or `int()` rejects it; EmptyPage exactly for an integer outside 1 to the page count; otherwise the number is `int(page)` itself |
| Pagination.PageNumber | yatube/posts/utils.py:9-10 | a missing or non-integer `page` gives page 1; an integer in range gives that page; any other integer gives the last page |
| Pagination.PageOf | yatube/posts/utils.py:10 | every page but the last holds 10 rows, and row `i` of page `k` is input row `(k - 1) * 10 + i` |
| Pagination.GetPage | yatube/posts/utils.py:7-11 | the page shown holds at most 10 rows, is the page of the settled number, and has a next page exactly when rows remain after it |
| Pagination.PagesPrefix | yatube/posts/tests/test_views.py:161-178 | pages 1 to `k` together are exactly the first `min(10 k, n)` rows, in order |
| Pagination.PagesCoverItems | yatube/posts/tests/test_views.py:161-178 | concatenating pages 1 to the page count gives back the whole input |
| Pagination.PageNumberOf | yatube/posts/utils.py:9-10 | `?page=k` for an existing page settles on page `k` |
| Pagination.RequestedPage | yatube/posts/tests/test_views.py:161-178 | `?page=k` for an existing page shows input rows `(k - 1) * 10` up to `min(10 k, n)` |
| Pagination.OutOfRangePage | yatube/posts/utils.py:10 | `?page=k` below 1 or past the end shows the last page instead of failing |
| Pagination.FirstPageByDefault | yatube/posts/utils.py:9-10 | a `page` value without digits shows the same page as no parameter: the first 10 rows |
| Pagination.ThirteenRowsTwoPages | yatube/posts/tests/test_views.py:262-283 | 13 rows make 2 pages |
| Pagination.ThirteenItemsFirstPage | yatube/posts/tests/test_views.py:262-283 | with 13 rows, `?page=1` shows the first 10 |
| Pagination.ThirteenItemsSecondPage | yatube/posts/tests/test_views.py:262-283 | with 13 rows, `?page=2` shows the last 3 |
| Pagination.ThirteenItemsThirdPage | yatube/posts/utils.py:10 | with 13 rows, `?page=3` shows the same page as `?page=2` |
| Pagination.PageRowsFromItems | yatube/posts/utils.py:10 | every row on a page is a row of the paginated queryset |
| Pagination.PageOfRowsFromItems | yatube/posts/utils.py:10 | every row of `Paginator.page(k)` is a row of the input |
| Pagination.FirstRowOnFirstPage | yatube/posts/utils.py:9-10 | the first row of a non-empty queryset opens the default page |
| FollowTable.UniqueAtMostOnce | yatube/posts/views.py:187 | under the unique pair constraint a row occurs at most once |
| FollowTable.GetOrCreate | yatube/posts/views.py:187 | `get_or_create` leaves the row present, creates it only when absent, and leaves every other row's count alone |
| FollowTable.FollowUpdate | yatube/posts/views.py:186-187 | following oneself changes nothing; otherwise the edge is present afterwards and no other row changes |
| FollowTable.FollowOnce | yatube/posts/views.py:186-187 | after a follow the edge occurs exactly once and both table constraints still hold |
| FollowTable.FollowIdempotent | yatube/posts/views.py:187 | following twice leaves the table as following once |
| FollowTable.Delete | yatube/posts/views.py:197 | after `filter(user, author).delete()` no such row remains, and every other row is still there |
| FollowTable.DeleteCounts | yatube/posts/views.py:197 | the delete removes every copy of the edge and keeps every other row as often as before |
| FollowTable.DeleteAbsent | yatube/posts/views.py:197 | unfollowing an absent edge changes nothing |
| FollowTable.DeleteAppend | yatube/posts/views.py:197 | deleting from two tables in a row is deleting from each |
| FollowTable.DeleteWellFormed | yatube/posts/views.py:197 | unfollowing keeps both table constraints |
| FollowTable.FollowThenUnfollow | yatube/posts/views.py:187-197 | unfollowing right after following leaves the table as unfollowing alone would |
| FollowTable.FollowedAuthors | yatube/posts/views.py:161-165 | the list `follow_index` builds holds exactly the authors the viewer follows |
| Feeds.Select | yatube/posts/views.py:26 | a queryset filter over the post table; its meaning is stated by `SelectMembers`, `SelectAppend` and `SelectMultiset` |
| Feeds.GroupFeed | yatube/posts/views.py:26 | `group.posts.all()`: the posts filed under the group, in table order (`SelectMembers`, `GroupIsolation`) |
| Feeds.AuthorFeed | yatube/posts/views.py:42 | `author.posts.all()`: the author's posts, in table order (`SelectMembers`, `SelectMultiset`) |
| Feeds.FollowFeed | yatube/posts/views.py:167 | `Post.objects.filter(author__in=...)` over the followed authors (`FollowFeedMembers`) |
| Feeds.SelectMembers | yatube/posts/views.py:26 | a filtered queryset holds exactly the posts that match its lookup |
| Feeds.SelectAppend | yatube/posts/views.py:42 | filtering distributes over concatenation, so it keeps table order |
| Feeds.SelectMultiset | yatube/posts/views.py:42-43 | each matching post occurs as often as in the table and no other post occurs, so `posts_count` is the number of the author's posts |
| Feeds.FollowFeedMembers | yatube/posts/views.py:161-167 | a post is in the follow feed exactly when the viewer follows its author |
| Feeds.GroupIsolation | yatube/posts/views.py:24-28 | a post in one group is not in another group's feed |
| Views.FindPost | yatube/posts/views.py:122 | the lookup by primary key finds a post with that key, or there is none |
| Views.EditPost | yatube/posts/views.py:127-134 | saving the edit form rewrites text, group and image of the post with that key only, and keeps every key and author |
| Views.EditKeepsIds | yatube/posts/views.py:133-134 | an edit keeps the set of post keys |
| Views.EditConsistent | yatube/posts/views.py:133-134 | an edit with an existing group or none keeps the store's constraints, foreign keys included |
| Views.CreateConsistent | yatube/posts/views.py:107-110 | a new post under the next key, by an existing user, with an existing group or none, has a fresh key and keeps the store's constraints |
| Views.CommentsOf | yatube/posts/views.py:83 | `post.comments.all()` holds every comment row on that post as often as the table does, and no other comment |
| Views.DetailPageAsWritten | yatube/posts/views.py:72-97 | as written: a server error exactly when the key is unknown (line 74) or the post's author has no user row (line 76); otherwise the detail page with the post with that key, its comments (`CommentsOf`) and its author's post count; line 77 never answers not-found |
| Views.DetailPage | yatube/posts/views.py:72-97 | corrected lookup: not-found exactly for an unknown key; a server error exactly when the post's author has no user row, as line 76 still raises; otherwise the detail page with the post with that key, its comments (`CommentsOf`) and its author's post count |
| Views.DetailPageConsistent | yatube/posts/views.py:76-77 | under the foreign keys reading the author never fails: the corrected page is never a server error, and the page as written is one exactly for an unknown key |
| Views.PostDetailMissingPost | yatube/posts/views.py:74 | the two detail pages agree on existing posts and differ on every missing one |
| Views.PostDetailCounterexample | yatube/posts/views.py:74 | with no posts, `/posts/1/` fails as written where not-found is intended |
| Views.NewPostReachesFollowers | yatube/posts/tests/test_views.py:345-381 | a new post is on the first page of a follower's feed and on no page of a non-follower's feed |
| Views.NewPostVisibility | yatube/posts/tests/test_views.py:230-254 | a new post in a group opens page 1 of that group's feed and of its author's profile, and is on no page of another group or another author |
| Views.Store.constructor | yatube/posts/views.py:6 | a fresh store holds no posts, comments or follow rows and meets the constraints |
| Views.Store.Index | yatube/posts/views.py:11-19 | `index` shows the requested page of the whole post table |
| Views.Store.GroupPosts | yatube/posts/views.py:22-35 | not-found exactly for an unknown slug; otherwise the requested page of that group's posts, all of them posts of the group |
| Views.Store.Profile | yatube/posts/views.py:38-69 | not-found exactly for an unknown username; otherwise the author's posts paginated, their number, and `following`: the edge exists for a signed-in viewer, and true for an anonymous one |
| Views.Store.PostDetail | yatube/posts/views.py:72-97 | the store serves the corrected lookup of the Findings row (`Views.DetailPage`), not the server error of views.py:74: not-found exactly for an unknown key; otherwise, since every author has a user row, the detail page with the post with that key, its comments (`CommentsOf`) and its author's post count |
| Views.Store.FollowIndex | yatube/posts/views.py:158-178 | anonymous: redirect to login; otherwise the requested page of the posts by followed authors, in table order |
| Views.Store.ProfileFollow | yatube/posts/views.py:181-189 | anonymous: login redirect, nothing changes; unknown author: not-found; otherwise redirect to the profile and the Follow table becomes `FollowUpdate` of the old one; the constraints hold |
| Views.Store.ProfileUnfollow | yatube/posts/views.py:192-199 | anonymous: login redirect; unknown author: not-found; otherwise redirect to the profile and the edge is deleted; the constraints hold |
| Views.Store.PostCreate | yatube/posts/views.py:100-117 | anonymous, or a form that is invalid or names an unknown group: no change; a valid form adds exactly one post, by the current user, under a fresh key, at the front, and redirects to the user's profile |
| Views.Store.PostEdit | yatube/posts/views.py:120-142 | a non-author is redirected to the post's page and no post changes; the author's valid form, with an existing group or none, rewrites that post in place, keeps the number of posts, and redirects to the post's page |
| Views.Store.AddComment | yatube/posts/views.py:145-155 | anonymous: no change; unknown post: not-found; a valid form appends exactly one comment by the current user on that post; the answer is the post's page either way |
| Views.SubscriptionScenario | yatube/posts/tests/test_views.py:345-381 | follow, then a post by the author: the follower's feed shows it and another user's feed does not |

## Findings

| source | as written | input that shows it | evidently intended | confidence | as-written member | corrected member |
|---|---|---|---|---|---|---|
| yatube/posts/views.py:74 | `post_detail` looks the post up with `Post.objects.get`, which raises for an unknown key; the exception becomes a server error | `GET /posts/1/` when no post has key 1 (`Views.PostDetailCounterexample`) | not-found, as every other handler answers through `get_object_or_404` | high; not executed | Views.DetailPageAsWritten | Views.DetailPage |

## Left out

- The 20-second page cache on `index` (`cache_page`): a time-based framework cache with no application logic.
- Template rendering, URL strings, the login redirect's `next` parameter and HTTP status codes: responses are abstract values.
- The debug `print` calls in `profile` and `follow_index`: they produce no state or response.
- Form validation: `PostForm` and `CommentForm` are not part of this model. Each handler takes the verdict on the form's text and image fields as a boolean and its cleaned values as inputs. The group field's check is modelled (`Views.KnownGroup`).
- Image upload and media storage: an image is an optional file name.
- The comment `post_detail` saves from its own form: it sets no author, so the database would refuse it. Only the read side of `post_detail` is modelled.
- Authentication and sessions: the current user is an `Option<Username>`. The user and group tables are fixed inputs, identified by username and slug. Group titles and descriptions only feed templates.
- Creation timestamps: the newest-first order is the position in the post sequence.
- Page metadata other than the number, the page count, `has_next` and `has_previous`.
- Concurrency between requests: delegated to the database.
- PyInt.ParseInt: does not accept non-ASCII decimal digits. Python's `int()` accepts them. The model treats such a value as a non-integer and shows page 1.
- PyInt.ParseInt: does not model the limit of newer Python versions on integer strings longer than 4300 digits. That limit also raises ValueError and also leads to page 1.
