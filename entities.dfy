/**
 * The records of the blog: posts, comments and follow edges.
 * Users and groups are identified by their unique username and slug.
 */
module Entities {
  import opened Wrappers

  type Username = string
  type Slug = string

  /** A post: its primary key, body, owning author, optional group and optional image file name. */
  datatype Post = Post(id: nat, text: string, author: Username, group: Option<Slug>, image: Option<string>)

  /** A comment on the post whose primary key is `post`. */
  datatype Comment = Comment(post: nat, author: Username, text: string)

  /** A row of the Follow table: `user` follows `author`. */
  datatype Follow = Follow(user: Username, author: Username)

  /** The primary keys present in a post table. */
  function PostIds(posts: seq<Post>): (ids: set<nat>)
    ensures forall p :: p in posts ==> p.id in ids
    ensures forall id :: id in ids ==> exists p :: p in posts && p.id == id
  {
    set p | p in posts :: p.id
  }
}
