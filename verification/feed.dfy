/**
  The feed query: posts inner-joined with their authors on posts.user_id =
  users.id, ordered by created_at descending, and the single-row re-read of
  a post by id that the post-creation route answers with.
*/
module Feed {
  import opened Wrappers
  import opened Schema

  /** One row of the feed: every column of the post plus its author's username and avatar. */
  datatype FeedRow = FeedRow(id: int, userId: Option<int>, content: string, createdAt: nat, username: string, avatarUrl: string)

  function JoinRow(p: Post, author: User): FeedRow
  {
    FeedRow(p.id, p.userId, p.content, p.createdAt, author.username, author.avatarUrl)
  }

  /** The post `p` joined with its author, when its author exists. */
  ghost predicate IsJoinOf(row: FeedRow, p: Post, users: map<int, User>)
  {
    HasAuthor(p, users) && row == JoinRow(p, AuthorOf(p, users))
  }

  /** The inner join of posts with users on the author id, in table order: a post whose
      author is missing contributes no row. */
  function Joined(posts: seq<Post>, users: map<int, User>): (rows: seq<FeedRow>)
    ensures |rows| <= |posts|
  {
    if posts == [] then []
    else
      var last := posts[|posts| - 1];
      Joined(posts[..|posts| - 1], users)
        + (if HasAuthor(last, users) then [JoinRow(last, AuthorOf(last, users))] else [])
  }

  /** A row is in the join exactly when it is some post joined with its existing author. */
  lemma {:induction false} JoinedMembers(posts: seq<Post>, users: map<int, User>, row: FeedRow)
    ensures row in Joined(posts, users) <==> exists i :: 0 <= i < |posts| && IsJoinOf(row, posts[i], users)
  {
    if posts != [] {
      var n := |posts| - 1;
      var front := posts[..n];
      JoinedMembers(front, users, row);
      assert forall i :: 0 <= i < n ==> front[i] == posts[i];
      if row in Joined(posts, users) && row !in Joined(front, users) {
        assert IsJoinOf(row, posts[n], users);
      }
    }
  }

  /** Appending a post extends the join by that post's row, or by nothing when its author is missing. */
  lemma JoinedAppend(posts: seq<Post>, users: map<int, User>, p: Post)
    ensures Joined(posts + [p], users)
      == Joined(posts, users) + (if HasAuthor(p, users) then [JoinRow(p, AuthorOf(p, users))] else [])
  {
  }

  /** When every post's author exists, the join has one row per post. */
  lemma {:induction false} JoinedCoversAllPosts(posts: seq<Post>, users: map<int, User>)
    requires forall i :: 0 <= i < |posts| ==> HasAuthor(posts[i], users)
    ensures |Joined(posts, users)| == |posts|
  {
    if posts != [] {
      JoinedCoversAllPosts(posts[..|posts| - 1], users);
    }
  }

  /** Descending creation time: no row is older than a row after it. */
  ghost predicate NewestFirst(rows: seq<FeedRow>)
  {
    forall i, j :: 0 <= i < j < |rows| ==> rows[i].createdAt >= rows[j].createdAt
  }

  /** Places `row` in front of the first row that is not newer than it. */
  function InsertByTime(row: FeedRow, rows: seq<FeedRow>): (r: seq<FeedRow>)
    ensures multiset(r) == multiset(rows) + multiset{row}
    ensures r[0] == row || (rows != [] && r[0] == rows[0])
  {
    if rows == [] || row.createdAt >= rows[0].createdAt then
      [row] + rows
    else
      assert rows == [rows[0]] + rows[1..];
      [rows[0]] + InsertByTime(row, rows[1..])
  }

  /** Inserting into a newest-first sequence keeps it newest-first. */
  lemma {:induction false} InsertKeepsNewestFirst(row: FeedRow, rows: seq<FeedRow>)
    requires NewestFirst(rows)
    ensures NewestFirst(InsertByTime(row, rows))
  {
    if rows != [] && row.createdAt < rows[0].createdAt {
      var rest := InsertByTime(row, rows[1..]);
      InsertKeepsNewestFirst(row, rows[1..]);
      assert rows[0].createdAt >= rest[0].createdAt;
      var r := [rows[0]] + rest;
      forall i, j | 0 <= i < j < |r| ensures r[i].createdAt >= r[j].createdAt {
        if i > 0 {
          assert r[i] == rest[i - 1] && r[j] == rest[j - 1];
        } else if j > 1 {
          assert rest[0].createdAt >= rest[j - 1].createdAt;
        }
      }
    }
  }

  /** Orders rows newest first; rows of the same second keep their table order. */
  function SortNewestFirst(rows: seq<FeedRow>): (r: seq<FeedRow>)
    ensures multiset(r) == multiset(rows)
    ensures NewestFirst(r)
  {
    if rows == [] then []
    else
      assert rows == [rows[0]] + rows[1..];
      var sorted := SortNewestFirst(rows[1..]);
      InsertKeepsNewestFirst(rows[0], sorted);
      InsertByTime(rows[0], sorted)
  }

  /** The result of the feed query. */
  function ListPosts(posts: seq<Post>, users: map<int, User>): (feed: seq<FeedRow>)
    ensures NewestFirst(feed)
    ensures multiset(feed) == multiset(Joined(posts, users))
  {
    SortNewestFirst(Joined(posts, users))
  }

  /** Every row of the feed is a post joined with its existing author, and every such post is in the feed. */
  lemma FeedMembers(posts: seq<Post>, users: map<int, User>, row: FeedRow)
    ensures row in ListPosts(posts, users) <==> exists i :: 0 <= i < |posts| && IsJoinOf(row, posts[i], users)
  {
    var feed := ListPosts(posts, users);
    assert row in feed <==> row in multiset(feed);
    assert row in Joined(posts, users) <==> row in multiset(Joined(posts, users));
    JoinedMembers(posts, users, row);
  }

  /** When every post's author exists, the feed has one row per post. */
  lemma FeedCoversAllPosts(posts: seq<Post>, users: map<int, User>)
    requires forall i :: 0 <= i < |posts| ==> HasAuthor(posts[i], users)
    ensures |ListPosts(posts, users)| == |posts|
  {
    var feed := ListPosts(posts, users);
    assert |multiset(feed)| == |feed|;
    assert |multiset(Joined(posts, users))| == |Joined(posts, users)|;
    JoinedCoversAllPosts(posts, users);
  }

  /** A post whose author does not exist never shows in the feed: the feed is what it was before. */
  lemma OrphanPostHidden(posts: seq<Post>, users: map<int, User>, p: Post)
    requires !HasAuthor(p, users)
    ensures ListPosts(posts + [p], users) == ListPosts(posts, users)
  {
    JoinedAppend(posts, users, p);
    assert Joined(posts + [p], users) == Joined(posts, users);
  }

  /** When the clock has not gone back, a new post by an existing author is in
      the feed and the feed starts with a row of the same second. Posts made in
      that second may come before it. */
  lemma NewPostInFirstSecond(posts: seq<Post>, users: map<int, User>, p: Post)
    requires HasAuthor(p, users)
    requires forall i :: 0 <= i < |posts| ==> posts[i].createdAt <= p.createdAt
    ensures JoinRow(p, AuthorOf(p, users)) in ListPosts(posts + [p], users)
    ensures ListPosts(posts + [p], users)[0].createdAt == p.createdAt
  {
    var row := JoinRow(p, AuthorOf(p, users));
    var feed := ListPosts(posts + [p], users);
    JoinedAppend(posts, users, p);
    assert row in multiset(feed);
    var k :| 0 <= k < |feed| && feed[k] == row;
    assert feed[0].createdAt >= row.createdAt;
    FeedMembers(posts + [p], users, feed[0]);
    var i :| 0 <= i < |posts + [p]| && IsJoinOf(feed[0], (posts + [p])[i], users);
    if i < |posts| {
      assert (posts + [p])[i] == posts[i];
    }
  }

  /** When the new post is strictly newer than every stored post, it heads the feed. */
  lemma NewPostFirst(posts: seq<Post>, users: map<int, User>, p: Post)
    requires HasAuthor(p, users)
    requires forall i :: 0 <= i < |posts| ==> posts[i].createdAt < p.createdAt
    ensures ListPosts(posts + [p], users)[0] == JoinRow(p, AuthorOf(p, users))
  {
    var feed := ListPosts(posts + [p], users);
    NewPostInFirstSecond(posts, users, p);
    FeedMembers(posts + [p], users, feed[0]);
    assert forall k :: 0 <= k < |posts| ==> (posts + [p])[k] == posts[k];
    var i :| 0 <= i < |posts + [p]| && IsJoinOf(feed[0], (posts + [p])[i], users);
    assert i == |posts|;
  }

  /** The single-row read of one post id over the join: the joined row
      with that post id, or None when no post with that id has an existing author. */
  function FindPost(posts: seq<Post>, users: map<int, User>, id: int): (r: Option<FeedRow>)
    ensures r.Some? ==> r.value.id == id && r.value in Joined(posts, users)
    ensures r.None? ==> forall row :: row in Joined(posts, users) ==> row.id != id
  {
    if posts == [] then None
    else
      var n := |posts| - 1;
      var last := posts[n];
      if last.id == id && HasAuthor(last, users) then Some(JoinRow(last, AuthorOf(last, users)))
      else FindPost(posts[..n], users, id)
  }

  /** Re-reading a just-inserted post by its fresh id gives that post joined with
      its author, or nothing when the author does not exist. */
  lemma FindNewPost(posts: seq<Post>, users: map<int, User>, p: Post)
    requires forall i :: 0 <= i < |posts| ==> posts[i].id != p.id
    ensures FindPost(posts + [p], users, p.id)
      == if HasAuthor(p, users) then Some(JoinRow(p, AuthorOf(p, users))) else None
  {
  }
}
