/**
 * The request handlers of yatube/posts/views.py over an in-memory store of
 * users, groups, posts, comments and follow rows. Each handler takes the
 * current user (`None` for an anonymous request) and returns the response it
 * chooses; the handlers marked `@login_required` answer an anonymous request
 * with a redirect to the login page and change nothing. The post table is
 * kept newest first, the display order of the Post model.
 */
module Views {
  import opened Wrappers
  import opened Entities
  import opened Pagination
  import opened Feeds
  import FollowTable

  /** What a handler answers: a redirect, a not-found or server error, or a rendered page with its context. */
  datatype Response =
    | RedirectLogin
    | RedirectProfile(username: Username)
    | RedirectDetail(postId: nat)
    | NotFound
    | ServerError
    | ShowForm(isEdit: bool)
    | ShowFeed(page: Page<Post>)
    | ShowGroup(group: Slug, page: Page<Post>)
    | ShowProfile(author: Username, page: Page<Post>, postsCount: nat, following: bool)
    | ShowDetail(post: Post, postsCount: nat, comments: seq<Comment>)

  /** The post with primary key `id`, if there is one. */
  function FindPost(posts: seq<Post>, id: nat): (r: Option<Post>)
    ensures r.Some? ==> r.value in posts && r.value.id == id
    ensures r.None? ==> forall p :: p in posts ==> p.id != id
  {
    if posts == [] then None
    else if posts[0].id == id then Some(posts[0])
    else FindPost(posts[1..], id)
  }

  /** `form.save()` on the post with primary key `id`: its text, group and image take the form's values; its key and author stay. */
  function EditPost(posts: seq<Post>, id: nat, text: string, group: Option<Slug>, image: Option<string>): (r: seq<Post>)
    ensures |r| == |posts|
    ensures forall i :: 0 <= i < |posts| ==> r[i].id == posts[i].id && r[i].author == posts[i].author
    ensures forall i :: 0 <= i < |posts| && posts[i].id == id ==>
              r[i].text == text && r[i].group == group && r[i].image == image
    ensures forall i :: 0 <= i < |posts| && posts[i].id != id ==> r[i] == posts[i]
  {
    if posts == [] then []
    else
      var p := posts[0];
      [if p.id == id then p.(text := text, group := group, image := image) else p]
        + EditPost(posts[1..], id, text, group, image)
  }

  /** `PostForm`'s group choice field: no group, or one of the existing groups. */
  predicate KnownGroup(groups: set<Slug>, group: Option<Slug>) {
    group.None? || group.value in groups
  }

  /**
   * The database constraints: the Follow table's, unique post keys below the
   * next key, and the foreign keys: every post's author and group, every
   * comment's post and author, and both users of every Follow row exist.
   */
  predicate Consistent(users: set<Username>, groups: set<Slug>, posts: seq<Post>, comments: seq<Comment>,
                       follows: seq<Follow>, nextPostId: nat) {
    && FollowTable.WellFormed(follows)
    && (forall f :: f in follows ==> f.user in users && f.author in users)
    && (forall i, j :: 0 <= i < j < |posts| ==> posts[i].id != posts[j].id)
    && (forall i :: 0 <= i < |posts| ==> posts[i].id < nextPostId)
    && (forall p :: p in posts ==> p.author in users && KnownGroup(groups, p.group))
    && (forall c :: c in comments ==> c.post in PostIds(posts) && c.author in users)
  }

  /** Editing keeps every primary key where it was, so keys stay unique and below the next key. */
  lemma EditKeepsIds(posts: seq<Post>, id: nat, text: string, group: Option<Slug>, image: Option<string>)
    ensures PostIds(EditPost(posts, id, text, group, image)) == PostIds(posts)
  {
    var r := EditPost(posts, id, text, group, image);
    forall x | x in PostIds(r) ensures x in PostIds(posts) {
      var p :| p in r && p.id == x;
      var i :| 0 <= i < |r| && r[i] == p;
      assert posts[i] in posts;
    }
    forall x | x in PostIds(posts) ensures x in PostIds(r) {
      var p :| p in posts && p.id == x;
      var i :| 0 <= i < |posts| && posts[i] == p;
      assert r[i] in r;
    }
  }

  lemma EditConsistent(users: set<Username>, groups: set<Slug>, posts: seq<Post>, comments: seq<Comment>,
                       follows: seq<Follow>, next: nat, id: nat, text: string, group: Option<Slug>, image: Option<string>)
    requires Consistent(users, groups, posts, comments, follows, next) && KnownGroup(groups, group)
    ensures Consistent(users, groups, EditPost(posts, id, text, group, image), comments, follows, next)
  {
    var r := EditPost(posts, id, text, group, image);
    EditKeepsIds(posts, id, text, group, image);
    forall q | q in r ensures q.author in users && KnownGroup(groups, q.group) {
      var i :| 0 <= i < |r| && r[i] == q;
      assert posts[i] in posts;
    }
  }

  /** A new post under the next key keeps the keys unique and the comments attached. */
  lemma CreateConsistent(users: set<Username>, groups: set<Slug>, posts: seq<Post>, comments: seq<Comment>,
                         follows: seq<Follow>, next: nat, p: Post)
    requires Consistent(users, groups, posts, comments, follows, next)
    requires p.id == next && p.author in users && KnownGroup(groups, p.group)
    ensures next !in PostIds(posts)
    ensures Consistent(users, groups, [p] + posts, comments, follows, next + 1)
  {
    assert PostIds([p] + posts) == {p.id} + PostIds(posts);
  }

  /** `post.comments.all()`: every comment row on the post with primary key `id`, in table order. */
  function CommentsOf(comments: seq<Comment>, id: nat): (r: seq<Comment>)
    ensures forall c :: c in r <==> c in comments && c.post == id
    ensures forall c :: multiset(r)[c] == if c.post == id then multiset(comments)[c] else 0
  {
    if comments == [] then []
    else
      assert comments == [comments[0]] + comments[1..];
      (if comments[0].post == id then [comments[0]] else []) + CommentsOf(comments[1..], id)
  }

  /**
   * The read side of `post_detail` as written: `Post.objects.get` raises for
   * an unknown key, and `post.author` raises when the author's user row is
   * missing; either uncaught exception becomes a server error. The
   * `get_object_or_404` on the username just read from that row never
   * answers not-found.
   */
  function DetailPageAsWritten(users: set<Username>, posts: seq<Post>, comments: seq<Comment>, id: nat): (r: Response)
    ensures r == ServerError <==> FindPost(posts, id).None? || FindPost(posts, id).value.author !in users
    ensures r != ServerError ==>
              r.ShowDetail? && r.post in posts && r.post.id == id && r.post.author in users
              && r.comments == CommentsOf(comments, id)
              && r.postsCount == |AuthorFeed(posts, r.post.author)|
  {
    match FindPost(posts, id)
    case None => ServerError
    case Some(p) =>
      if p.author !in users then ServerError
      else ShowDetail(p, |AuthorFeed(posts, p.author)|, CommentsOf(comments, id))
  }

  /**
   * The read side of `post_detail` with the post looked up as the other
   * handlers do, with `get_object_or_404`: not-found for an unknown key, and
   * otherwise as written: the post, its author's post count and its comments,
   * or a server error when the author's user row is missing.
   */
  function DetailPage(users: set<Username>, posts: seq<Post>, comments: seq<Comment>, id: nat): (r: Response)
    ensures r == NotFound <==> (forall p :: p in posts ==> p.id != id)
    ensures r == ServerError <==> FindPost(posts, id).Some? && FindPost(posts, id).value.author !in users
    ensures r != NotFound && r != ServerError ==>
              r.ShowDetail? && r.post in posts && r.post.id == id && r.post.author in users
              && r.comments == CommentsOf(comments, id)
              && r.postsCount == |AuthorFeed(posts, r.post.author)|
  {
    match FindPost(posts, id)
    case None => NotFound
    case Some(p) =>
      if p.author !in users then ServerError
      else ShowDetail(p, |AuthorFeed(posts, p.author)|, CommentsOf(comments, id))
  }

  /** The two agree on every existing post; for a missing one the code as written fails with a server error where not-found is meant. */
  lemma PostDetailMissingPost(users: set<Username>, posts: seq<Post>, comments: seq<Comment>, id: nat)
    ensures FindPost(posts, id).Some? ==>
              DetailPageAsWritten(users, posts, comments, id) == DetailPage(users, posts, comments, id)
    ensures FindPost(posts, id).None? ==>
              DetailPageAsWritten(users, posts, comments, id) == ServerError && DetailPage(users, posts, comments, id) == NotFound
  {
  }

  /**
   * Under the foreign keys every post's author has a user row, so reading
   * `post.author` never fails: the page as written fails exactly for an
   * unknown key, and the corrected page never fails.
   */
  lemma DetailPageConsistent(users: set<Username>, groups: set<Slug>, posts: seq<Post>, comments: seq<Comment>,
                             follows: seq<Follow>, next: nat, id: nat)
    requires Consistent(users, groups, posts, comments, follows, next)
    ensures DetailPage(users, posts, comments, id) != ServerError
    ensures DetailPageAsWritten(users, posts, comments, id) == ServerError <==> (forall p :: p in posts ==> p.id != id)
  {
    match FindPost(posts, id)
    case None =>
    case Some(p) => assert p.author in users;
  }

  /** The smallest witness: with no posts at all, `/posts/1/` fails as written instead of answering not-found. */
  lemma PostDetailCounterexample()
    ensures DetailPageAsWritten({}, [], [], 1) == ServerError
    ensures DetailPage({}, [], [], 1) == NotFound
  {
  }

  /**
   * A new post by an author reaches the first page of every follower's feed
   * and no page of a non-follower's feed.
   */
  lemma NewPostReachesFollowers(posts: seq<Post>, rows: seq<Follow>, p: Post, follower: Username, other: Username, page: Option<string>)
    requires Follow(follower, p.author) in rows && Follow(other, p.author) !in rows
    ensures p in GetPage(FollowFeed([p] + posts, rows, follower), None).objectList
    ensures p !in GetPage(FollowFeed([p] + posts, rows, other), page).objectList
  {
    var q := AuthorIn(FollowTable.FollowedAuthors(rows, follower));
    SelectAppend([p], posts, q);
    FirstRowOnFirstPage(FollowFeed([p] + posts, rows, follower));
    if p in GetPage(FollowFeed([p] + posts, rows, other), page).objectList {
      PageRowsFromItems(FollowFeed([p] + posts, rows, other), page, p);
      FollowFeedMembers([p] + posts, rows, other, p);
      assert false;
    }
  }

  /**
   * A new post filed under a group opens the first page of that group's feed
   * and of its author's profile, and shows on no page of another group or
   * another author.
   */
  lemma NewPostVisibility(posts: seq<Post>, p: Post, g: Slug, otherGroup: Slug, otherAuthor: Username, page: Option<string>)
    requires p.group == Some(g) && otherGroup != g && otherAuthor != p.author
    ensures GetPage(GroupFeed([p] + posts, g), None).objectList[0] == p
    ensures GetPage(AuthorFeed([p] + posts, p.author), None).objectList[0] == p
    ensures p !in GetPage(GroupFeed([p] + posts, otherGroup), page).objectList
    ensures p !in GetPage(AuthorFeed([p] + posts, otherAuthor), page).objectList
  {
    SelectAppend([p], posts, GroupIs(g));
    SelectAppend([p], posts, AuthorIs(p.author));
    FirstRowOnFirstPage(GroupFeed([p] + posts, g));
    FirstRowOnFirstPage(AuthorFeed([p] + posts, p.author));
    if p in GetPage(GroupFeed([p] + posts, otherGroup), page).objectList {
      PageRowsFromItems(GroupFeed([p] + posts, otherGroup), page, p);
      SelectMembers([p] + posts, GroupIs(otherGroup), p);
      assert false;
    }
    if p in GetPage(AuthorFeed([p] + posts, otherAuthor), page).objectList {
      PageRowsFromItems(AuthorFeed([p] + posts, otherAuthor), page, p);
      SelectMembers([p] + posts, AuthorIs(otherAuthor), p);
      assert false;
    }
  }

  /** The blog's tables. */
  class Store {
    var users: set<Username>
    var groups: set<Slug>
    var posts: seq<Post>
    var comments: seq<Comment>
    var follows: seq<Follow>
    /** The primary key the next post gets. */
    var nextPostId: nat

    ghost predicate Valid()
      reads this
    {
      Consistent(users, groups, posts, comments, follows, nextPostId)
    }

    constructor (users: set<Username>, groups: set<Slug>)
      ensures Valid()
      ensures this.users == users && this.groups == groups
      ensures posts == [] && comments == [] && follows == []
    {
      this.users := users;
      this.groups := groups;
      posts, comments, follows := [], [], [];
      nextPostId := 1;
    }

    /** `index`: the whole post table, paginated. */
    function Index(page: Option<string>): (r: Response)
      reads this
      ensures r.ShowFeed? && r.page.numPages == NumPages(|posts|)
      ensures r.page == GetPage(posts, page)
    {
      ShowFeed(GetPage(posts, page))
    }

    /** `group_posts`: not-found for an unknown slug, else that group's posts, paginated. */
    function GroupPosts(slug: Slug, page: Option<string>): (r: Response)
      reads this
      ensures r == NotFound <==> slug !in groups
      ensures slug in groups ==> r == ShowGroup(slug, GetPage(GroupFeed(posts, slug), page))
      ensures r.ShowGroup? ==> forall p :: p in r.page.objectList ==> p in posts && p.group == Some(slug)
    {
      if slug !in groups then NotFound
      else
        var r := ShowGroup(slug, GetPage(GroupFeed(posts, slug), page));
        assert forall p :: p in r.page.objectList ==> p in GroupFeed(posts, slug) by {
          forall p | p in r.page.objectList ensures p in GroupFeed(posts, slug) {
            PageRowsFromItems(GroupFeed(posts, slug), page, p);
          }
        }
        assert forall p :: p in GroupFeed(posts, slug) ==> p in posts && p.group == Some(slug) by {
          forall p | p in GroupFeed(posts, slug) ensures p in posts && p.group == Some(slug) {
            SelectMembers(posts, GroupIs(slug), p);
          }
        }
        r
    }

    /**
     * `profile`: not-found for an unknown username; else the author's posts,
     * paginated, their number, and whether the viewer follows the author
     * (always true for an anonymous viewer).
     */
    method Profile(viewer: Option<Username>, username: Username, page: Option<string>) returns (r: Response)
      ensures r == NotFound <==> username !in users
      ensures username in users ==>
                r == ShowProfile(username, GetPage(AuthorFeed(posts, username), page), |AuthorFeed(posts, username)|,
                                 viewer.None? || Follow(viewer.value, username) in follows)
    {
      if username !in users {
        return NotFound;
      }
      var postsList := AuthorFeed(posts, username);
      var postsCount := |postsList|;
      var pageObj := GetPage(postsList, page);
      var following := true;
      if viewer.Some? {
        if Follow(viewer.value, username) in follows {
          following := true;
        } else {
          following := false;
        }
      }
      r := ShowProfile(username, pageObj, postsCount, following);
    }

    /**
     * `post_detail` (read side), served with the corrected lookup `DetailPage`:
     * an unknown key answers not-found. The code as written answers it with a
     * server error instead; `DetailPageAsWritten` models that. The author
     * lookup always succeeds, as every post's author has a user row, so no
     * request for an existing post fails.
     */
    function PostDetail(postId: nat): (r: Response)
      requires Valid()
      reads this
      ensures r == NotFound <==> (forall p :: p in posts ==> p.id != postId)
      ensures r != NotFound ==>
                r.ShowDetail? && r.post in posts && r.post.id == postId
                && r.comments == CommentsOf(comments, postId)
                && r.postsCount == |AuthorFeed(posts, r.post.author)|
    {
      DetailPageConsistent(users, groups, posts, comments, follows, nextPostId, postId);
      DetailPage(users, posts, comments, postId)
    }

    /**
     * `follow_index`: the viewer's feed, the posts by every author the viewer
     * follows, paginated; the author list is collected row by row.
     */
    method FollowIndex(viewer: Option<Username>, page: Option<string>) returns (r: Response)
      ensures viewer.None? ==> r == RedirectLogin
      ensures viewer.Some? ==> r == ShowFeed(GetPage(FollowFeed(posts, follows, viewer.value), page))
    {
      if viewer.None? {
        return RedirectLogin;
      }
      var v := viewer.value;
      var followingUsername: seq<Username> := [];
      var i := 0;
      while i < |follows|
        invariant 0 <= i <= |follows|
        invariant followingUsername == FollowTable.FollowedAuthors(follows[..i], v)
      {
        if follows[i].user == v {
          followingUsername := followingUsername + [follows[i].author];
        }
        assert follows[..i + 1][..i] == follows[..i];
        i := i + 1;
      }
      assert follows[..i] == follows;
      var postsList := Select(posts, AuthorIn(followingUsername));
      r := ShowFeed(GetPage(postsList, page));
    }

    /** `profile_follow`: adds the (viewer, author) row unless it exists or the viewer is the author, then redirects to the profile. */
    method ProfileFollow(viewer: Option<Username>, username: Username) returns (r: Response)
      requires Valid()
      requires viewer.Some? ==> viewer.value in users
      modifies this`follows
      ensures Valid()
      ensures viewer.None? ==> r == RedirectLogin && follows == old(follows)
      ensures viewer.Some? && username !in users ==> r == NotFound && follows == old(follows)
      ensures viewer.Some? && username in users ==>
                r == RedirectProfile(username)
                && follows == FollowTable.FollowUpdate(old(follows), viewer.value, username)
    {
      if viewer.None? {
        return RedirectLogin;
      }
      if username !in users {
        return NotFound;
      }
      var v := viewer.value;
      if v != username {
        FollowTable.FollowOnce(follows, v, username);
        var rows := FollowTable.GetOrCreate(follows, Follow(v, username));
        forall f | f in rows ensures f.user in users && f.author in users {
          if f != Follow(v, username) {
            assert multiset(rows)[f] == multiset(follows)[f];
          }
        }
        follows := rows;
      }
      r := RedirectProfile(username);
    }

    /** `profile_unfollow`: deletes the (viewer, author) row if there is one, then redirects to the profile. */
    method ProfileUnfollow(viewer: Option<Username>, username: Username) returns (r: Response)
      requires Valid()
      modifies this`follows
      ensures Valid()
      ensures viewer.None? ==> r == RedirectLogin && follows == old(follows)
      ensures viewer.Some? && username !in users ==> r == NotFound && follows == old(follows)
      ensures viewer.Some? && username in users ==>
                r == RedirectProfile(username)
                && follows == FollowTable.Delete(old(follows), Follow(viewer.value, username))
    {
      if viewer.None? {
        return RedirectLogin;
      }
      if username !in users {
        return NotFound;
      }
      FollowTable.DeleteWellFormed(follows, Follow(viewer.value, username));
      follows := FollowTable.Delete(follows, Follow(viewer.value, username));
      r := RedirectProfile(username);
    }

    /**
     * `post_create`: a valid form adds one post by the current user, newest
     * first, and redirects to the user's profile; an invalid one shows the
     * form again. `valid` is the verdict on the text and image fields; the
     * group field accepts only an existing group or none.
     */
    method PostCreate(viewer: Option<Username>, valid: bool, text: string, group: Option<Slug>, image: Option<string>)
      returns (r: Response)
      requires Valid()
      requires viewer.Some? ==> viewer.value in users
      modifies this`posts, this`nextPostId
      ensures Valid()
      ensures viewer.None? ==> r == RedirectLogin
      ensures viewer.Some? && !(valid && KnownGroup(groups, group)) ==> r == ShowForm(true)
      ensures viewer.None? || !(valid && KnownGroup(groups, group)) ==>
                posts == old(posts) && nextPostId == old(nextPostId)
      ensures viewer.Some? && valid && KnownGroup(groups, group) ==>
                r == RedirectProfile(viewer.value)
                && old(nextPostId) !in PostIds(old(posts))
                && posts == [Post(old(nextPostId), text, viewer.value, group, image)] + old(posts)
                && nextPostId == old(nextPostId) + 1
    {
      if viewer.None? {
        return RedirectLogin;
      }
      if !(valid && KnownGroup(groups, group)) {
        return ShowForm(true);
      }
      var post := Post(nextPostId, text, viewer.value, group, image);
      CreateConsistent(users, groups, posts, comments, follows, nextPostId, post);
      posts := [post] + posts;
      nextPostId := nextPostId + 1;
      r := RedirectProfile(viewer.value);
    }

    /**
     * `post_edit`: only the author may edit. Anyone else is sent to the
     * post's page with nothing changed; the author's valid form rewrites the
     * post in place and redirects to its page. As in `post_create`, the
     * group field accepts only an existing group or none.
     */
    method PostEdit(viewer: Option<Username>, postId: nat, valid: bool, text: string, group: Option<Slug>, image: Option<string>)
      returns (r: Response)
      requires Valid()
      modifies this`posts
      ensures Valid()
      ensures viewer.None? ==> r == RedirectLogin && posts == old(posts)
      ensures viewer.Some? && FindPost(old(posts), postId).None? ==> r == NotFound && posts == old(posts)
      ensures viewer.Some? && FindPost(old(posts), postId).Some? ==>
                var author := FindPost(old(posts), postId).value.author;
                && (author != viewer.value ==> r == RedirectDetail(postId) && posts == old(posts))
                && (author == viewer.value && !(valid && KnownGroup(groups, group)) ==>
                      r == ShowForm(false) && posts == old(posts))
                && (author == viewer.value && valid && KnownGroup(groups, group) ==>
                      r == RedirectDetail(postId) && posts == EditPost(old(posts), postId, text, group, image))
    {
      if viewer.None? {
        return RedirectLogin;
      }
      var found := FindPost(posts, postId);
      if found.None? {
        return NotFound;
      }
      if found.value.author != viewer.value {
        return RedirectDetail(postId);
      }
      if !(valid && KnownGroup(groups, group)) {
        return ShowForm(false);
      }
      EditConsistent(users, groups, posts, comments, follows, nextPostId, postId, text, group, image);
      posts := EditPost(posts, postId, text, group, image);
      r := RedirectDetail(postId);
    }

    /**
     * `add_comment`: a valid form adds one comment by the current user on an
     * existing post; either way the answer is the post's page.
     */
    method AddComment(viewer: Option<Username>, postId: nat, valid: bool, text: string) returns (r: Response)
      requires Valid()
      requires viewer.Some? ==> viewer.value in users
      modifies this`comments
      ensures Valid()
      ensures viewer.None? ==> r == RedirectLogin && comments == old(comments)
      ensures viewer.Some? && FindPost(posts, postId).None? ==> r == NotFound && comments == old(comments)
      ensures viewer.Some? && FindPost(posts, postId).Some? ==>
                r == RedirectDetail(postId)
                && comments == if valid then old(comments) + [Comment(postId, viewer.value, text)] else old(comments)
    {
      if viewer.None? {
        return RedirectLogin;
      }
      if FindPost(posts, postId).None? {
        return NotFound;
      }
      if valid {
        comments := comments + [Comment(postId, viewer.value, text)];
      }
      r := RedirectDetail(postId);
    }
  }

  /**
   * A follower subscribes to an author, the author posts, and the follower's
   * feed shows the new post on its first page while another user's feed does
   * not show it on any page.
   */
  method SubscriptionScenario(s: Store, author: Username, follower: Username, other: Username, text: string)
    returns (followerFeed: Response, otherFeed: Response, post: Post)
    requires s.Valid() && author in s.users && follower in s.users && follower != author
    requires Follow(other, author) !in s.follows && other != follower
    modifies s
    ensures followerFeed.ShowFeed? && post in followerFeed.page.objectList
    ensures otherFeed.ShowFeed? && post !in otherFeed.page.objectList
  {
    var r := s.ProfileFollow(Some(follower), author);
    assert Follow(other, author) !in s.follows;
    post := Post(s.nextPostId, text, author, None, None);
    r := s.PostCreate(Some(author), true, text, None, None);
    followerFeed := s.FollowIndex(Some(follower), None);
    otherFeed := s.FollowIndex(Some(other), None);
    NewPostReachesFollowers(s.posts[1..], s.follows, post, follower, other, None);
    assert s.posts == [post] + s.posts[1..];
  }
}
