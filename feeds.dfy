/**
 * The post querysets the views paginate: `group.posts.all()`,
 * `author.posts.all()` and `Post.objects.filter(author__in=...)`. Each keeps
 * the rows of the post table that match a lookup, in table order.
 */
module Feeds {
  import opened Wrappers
  import opened Entities
  import FollowTable

  /** The field lookups the views filter posts by. */
  datatype Lookup =
    | GroupIs(slug: Slug)
    | AuthorIs(author: Username)
    | AuthorIn(authors: seq<Username>)

  predicate Matches(p: Post, q: Lookup) {
    match q
    case GroupIs(slug) => p.group == Some(slug)
    case AuthorIs(a) => p.author == a
    case AuthorIn(authors) => p.author in authors
  }

  /** The rows of `posts` that match `q`, in table order. */
  function Select(posts: seq<Post>, q: Lookup): seq<Post> {
    if posts == [] then []
    else (if Matches(posts[0], q) then [posts[0]] else []) + Select(posts[1..], q)
  }

  /** The filtered rows are exactly the matching rows of the table. */
  lemma {:induction false} SelectMembers(posts: seq<Post>, q: Lookup, p: Post)
    ensures p in Select(posts, q) <==> p in posts && Matches(p, q)
  {
    if posts != [] {
      SelectMembers(posts[1..], q, p);
      assert posts == [posts[0]] + posts[1..];
    }
  }

  /** Filtering distributes over concatenation, so the filtered rows keep the table's order. */
  lemma {:induction false} SelectAppend(a: seq<Post>, b: seq<Post>, q: Lookup)
    ensures Select(a + b, q) == Select(a, q) + Select(b, q)
  {
    if a == [] {
      assert a + b == b;
    } else {
      var head := if Matches(a[0], q) then [a[0]] else [];
      assert (a + b)[0] == a[0] && (a + b)[1..] == a[1..] + b;
      calc {
        Select(a + b, q);
        head + Select(a[1..] + b, q);
        { SelectAppend(a[1..], b, q); }
        head + (Select(a[1..], q) + Select(b, q));
        (head + Select(a[1..], q)) + Select(b, q);
        Select(a, q) + Select(b, q);
      }
    }
  }

  /** Each matching post appears as often as in the table, every other post not at all; so the count of the filtered rows is the number of matching posts. */
  lemma {:induction false} SelectMultiset(posts: seq<Post>, q: Lookup, p: Post)
    ensures multiset(Select(posts, q))[p] == if Matches(p, q) then multiset(posts)[p] else 0
  {
    if posts != [] {
      assert posts == [posts[0]] + posts[1..];
      SelectMultiset(posts[1..], q, p);
    }
  }

  /** `group.posts.all()` for the group with this slug. */
  function GroupFeed(posts: seq<Post>, slug: Slug): seq<Post> {
    Select(posts, GroupIs(slug))
  }

  /** `author.posts.all()` for this author. */
  function AuthorFeed(posts: seq<Post>, author: Username): seq<Post> {
    Select(posts, AuthorIs(author))
  }

  /** `Post.objects.filter(author__in=following_username)` for the authors `viewer` follows. */
  function FollowFeed(posts: seq<Post>, rows: seq<Follow>, viewer: Username): seq<Post> {
    Select(posts, AuthorIn(FollowTable.FollowedAuthors(rows, viewer)))
  }

  /** A post is in a viewer's follow feed exactly when the viewer follows its author. */
  lemma FollowFeedMembers(posts: seq<Post>, rows: seq<Follow>, viewer: Username, p: Post)
    ensures p in FollowFeed(posts, rows, viewer) <==> p in posts && Follow(viewer, p.author) in rows
  {
    SelectMembers(posts, AuthorIn(FollowTable.FollowedAuthors(rows, viewer)), p);
  }

  /** A post filed under one group never shows in another group's feed. */
  lemma GroupIsolation(posts: seq<Post>, p: Post, g1: Slug, g2: Slug)
    requires p.group == Some(g1) && g1 != g2
    ensures p !in GroupFeed(posts, g2)
  {
    SelectMembers(posts, GroupIs(g2), p);
  }
}
