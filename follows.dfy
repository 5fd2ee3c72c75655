/**
 * The Follow table as a sequence of rows, and what `profile_follow`,
 * `profile_unfollow` and `follow_index` do to it or read from it. The table
 * carries two constraints: a pair appears at most once, and nobody follows
 * themselves.
 */
module FollowTable {
  import opened Entities

  /** The unique (user, author) constraint: no row appears twice. */
  predicate Unique(rows: seq<Follow>) {
    forall i, j :: 0 <= i < j < |rows| ==> rows[i] != rows[j]
  }

  predicate NoSelfFollow(rows: seq<Follow>) {
    forall i :: 0 <= i < |rows| ==> rows[i].user != rows[i].author
  }

  predicate WellFormed(rows: seq<Follow>) {
    Unique(rows) && NoSelfFollow(rows)
  }

  lemma {:induction false} UniqueAtMostOnce(rows: seq<Follow>, e: Follow)
    requires Unique(rows)
    ensures multiset(rows)[e] <= 1
  {
    if rows != [] {
      assert rows == [rows[0]] + rows[1..];
      UniqueAtMostOnce(rows[1..], e);
      if rows[0] == e {
        assert e !in rows[1..];
      }
    }
  }

  /** `Follow.objects.get_or_create(user=..., author=...)`: add the row unless it is already there. */
  function GetOrCreate(rows: seq<Follow>, e: Follow): (r: seq<Follow>)
    ensures e in r
    ensures multiset(r)[e] == if e in rows then multiset(rows)[e] else 1
    ensures forall f :: f != e ==> multiset(r)[f] == multiset(rows)[f]
  {
    if e in rows then rows else rows + [e]
  }

  /** The change `profile_follow` makes once both users are known: none for a self-follow. */
  function FollowUpdate(rows: seq<Follow>, viewer: Username, author: Username): (r: seq<Follow>)
    ensures viewer == author ==> r == rows
    ensures viewer != author ==> Follow(viewer, author) in r
    ensures forall f :: f != Follow(viewer, author) ==> multiset(r)[f] == multiset(rows)[f]
  {
    if viewer != author then GetOrCreate(rows, Follow(viewer, author)) else rows
  }

  /** After a follow the edge is present exactly once, and the table keeps both constraints. */
  lemma FollowOnce(rows: seq<Follow>, viewer: Username, author: Username)
    requires WellFormed(rows) && viewer != author
    ensures multiset(FollowUpdate(rows, viewer, author))[Follow(viewer, author)] == 1
    ensures WellFormed(FollowUpdate(rows, viewer, author))
  {
    var e := Follow(viewer, author);
    if e in rows {
      UniqueAtMostOnce(rows, e);
    }
  }

  /** Following twice is following once. */
  lemma FollowIdempotent(rows: seq<Follow>, viewer: Username, author: Username)
    ensures FollowUpdate(FollowUpdate(rows, viewer, author), viewer, author) == FollowUpdate(rows, viewer, author)
  {
  }

  /** `Follow.objects.filter(user=..., author=...).delete()`: remove every row equal to `e`. */
  function Delete(rows: seq<Follow>, e: Follow): (r: seq<Follow>)
    ensures forall f :: f in r <==> f in rows && f != e
  {
    if rows == [] then []
    else (if rows[0] == e then [] else [rows[0]]) + Delete(rows[1..], e)
  }

  /** Deleting removes every copy of `e` and leaves every other row as often as it was. */
  lemma {:induction false} DeleteCounts(rows: seq<Follow>, e: Follow)
    ensures multiset(Delete(rows, e))[e] == 0
    ensures forall f :: f != e ==> multiset(Delete(rows, e))[f] == multiset(rows)[f]
    ensures |Delete(rows, e)| == |rows| - multiset(rows)[e]
  {
    if rows != [] {
      assert rows == [rows[0]] + rows[1..];
      DeleteCounts(rows[1..], e);
    }
  }

  lemma {:induction false} DeleteAbsent(rows: seq<Follow>, e: Follow)
    requires e !in rows
    ensures Delete(rows, e) == rows
  {
    if rows != [] {
      DeleteAbsent(rows[1..], e);
    }
  }

  lemma {:induction false} DeleteAppend(a: seq<Follow>, b: seq<Follow>, e: Follow)
    ensures Delete(a + b, e) == Delete(a, e) + Delete(b, e)
  {
    if a == [] {
      assert a + b == b;
    } else {
      var ab := a + b;
      assert ab[0] == a[0] && ab[1..] == a[1..] + b;
      var head := if a[0] == e then [] else [a[0]];
      assert Delete(ab, e) == head + Delete(a[1..] + b, e);
      DeleteAppend(a[1..], b, e);
      assert Delete(a, e) == head + Delete(a[1..], e);
    }
  }

  /** Unfollowing keeps both table constraints. */
  lemma {:induction false} DeleteWellFormed(rows: seq<Follow>, e: Follow)
    requires WellFormed(rows)
    ensures WellFormed(Delete(rows, e))
  {
    if rows != [] {
      DeleteWellFormed(rows[1..], e);
      var tail := Delete(rows[1..], e);
      if rows[0] != e {
        assert rows[0] !in rows[1..];
        assert rows[0] !in tail;
        var r := [rows[0]] + tail;
        forall i, j | 0 <= i < j < |r| ensures r[i] != r[j] {
          if i == 0 {
            assert r[j] in tail;
          } else {
            assert r[i] == tail[i - 1] && r[j] == tail[j - 1];
          }
        }
        forall i | 0 <= i < |r| ensures r[i].user != r[i].author {
          if i > 0 {
            assert r[i] in tail;
            var k :| 0 <= k < |rows[1..]| && rows[1..][k] == r[i];
            assert rows[k + 1] == r[i];
          }
        }
      }
    }
  }

  /** Unfollowing right after following leaves the table as unfollowing alone would. */
  lemma FollowThenUnfollow(rows: seq<Follow>, viewer: Username, author: Username)
    ensures Delete(FollowUpdate(rows, viewer, author), Follow(viewer, author)) == Delete(rows, Follow(viewer, author))
  {
    var e := Follow(viewer, author);
    if viewer != author && e !in rows {
      DeleteAppend(rows, [e], e);
      assert Delete([e], e) == [];
    }
  }

  /** The authors `viewer` follows, in table order: the list `follow_index` builds. */
  function FollowedAuthors(rows: seq<Follow>, viewer: Username): (authors: seq<Username>)
    ensures |authors| <= |rows|
    ensures forall a :: a in authors <==> Follow(viewer, a) in rows
  {
    if rows == [] then []
    else
      var init, last := rows[..|rows| - 1], rows[|rows| - 1];
      assert rows == init + [last];
      FollowedAuthors(init, viewer) + if last.user == viewer then [last.author] else []
  }
}
