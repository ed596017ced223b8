/**
  The server's database handle and the routes that write to it: signup
  inserts a user, post creation inserts a post, and the view route bumps
  the counter. The read-only routes are the functions of module Routes,
  applied to the handle's current tables.
*/
module Server {
  import opened Wrappers
  import opened Crypto
  import opened Schema
  import opened Feed
  import opened Http
  import opened Routes

  const SignupFailed := Response(400, ErrorBody("Email already exists or invalid data"), KeepCookie)

  class Store {
    /** The key tokens are signed and verified with. */
    const secret: string
    var users: map<int, User>
    var posts: seq<Post>
    /** The value of the `views` row of `stats`. */
    var views: nat
    /** The AUTOINCREMENT sequence values of `users` and `posts`. */
    var userSeq: nat
    var postSeq: nat

    ghost predicate Valid()
      reads this
    {
      TablesValid(users, posts, userSeq, postSeq)
    }

    /** Opens the database: the tables are kept as they were stored (empty on the
        first start), and the view counter is seeded with 0 only when it has no row. */
    constructor Open(secret: string, users: map<int, User>, posts: seq<Post>,
                     storedViews: Option<nat>, userSeq: nat, postSeq: nat)
      requires TablesValid(users, posts, userSeq, postSeq)
      ensures Valid() && this.secret == secret
      ensures this.users == users && this.posts == posts
      ensures this.userSeq == userSeq && this.postSeq == postSeq
      ensures views == if storedViews.Some? then storedViews.value else 0
    {
      this.secret := secret;
      this.users := users;
      this.posts := posts;
      this.userSeq := userSeq;
      this.postSeq := postSeq;
      views := match storedViews
        case Some(v) => v
        case None => 0;
    }

    /** POST /api/auth/signup. A taken e-mail violates the UNIQUE constraint: 400,
        no row and no cookie. Otherwise exactly one user is added under a fresh id,
        with the digest of the password, and the session for that user is opened. */
    method Signup(email: string, password: string, username: string, salt: nat) returns (r: Response)
      requires Valid()
      modifies this`users, this`userSeq
      ensures Valid()
      ensures old(EmailTaken(users, email)) ==>
        r == SignupFailed && users == old(users) && userSeq == old(userSeq)
      ensures !old(EmailTaken(users, email)) ==>
        && userSeq == old(userSeq) + 1 && userSeq !in old(users)
        && users == old(users)[userSeq := NewUser(email, password, username, salt)]
        && r == SessionFor(Claim(Some(userSeq), email, username, AvatarUrl(username)), secret)
    {
      var hashed := Hash(password, salt);
      var avatarUrl := AvatarUrl(username);
      if FindByEmail(users, email).Some? {
        r := SignupFailed;
        return;
      }
      var id := userSeq + 1;
      var row := User(email, hashed, username, avatarUrl);
      AddUserKeepsEmailsUnique(users, id, row);
      users := users[id := row];
      userSeq := id;
      r := SessionFor(Claim(Some(id), email, username, avatarUrl), secret);
    }

    /** POST /api/posts, behind the gate. When the claim's id names no user, the
        foreign key rejects the insert, the route does not catch the error, the
        answer is 500 and nothing changes. Otherwise one post with the claim's id
        as author is appended under a fresh id with the clock's second, and the
        answer is that post re-read joined with its author: empty when the id is
        null, since the foreign key does not apply to NULL and the join finds no author. */
    method CreatePost(cookie: Option<Token>, content: string, now: nat) returns (r: Response)
      requires Valid()
      modifies this`posts, this`postSeq
      ensures Valid()
      ensures match Authenticate(cookie, secret)
        case Deny(denied) =>
          r == denied && posts == old(posts) && postSeq == old(postSeq)
        case Admit(claim) =>
          if claim.id.Some? && claim.id.value !in users then
            r == InternalError && posts == old(posts) && postSeq == old(postSeq)
          else
            var p := Post(old(postSeq) + 1, claim.id, content, now);
            && postSeq == p.id
            && (forall i :: 0 <= i < |old(posts)| ==> old(posts)[i].id < p.id)
            && posts == old(posts) + [p]
            && r == Response(200, PostBody(if HasAuthor(p, users) then Some(JoinRow(p, AuthorOf(p, users))) else None), KeepCookie)
    {
      match Authenticate(cookie, secret)
      case Deny(denied) =>
        r := denied;
      case Admit(claim) =>
        if claim.id.Some? && claim.id.value !in users {
          r := InternalError;
          return;
        }
        var p := Post(postSeq + 1, claim.id, content, now);
        FindNewPost(posts, users, p);
        posts := posts + [p];
        postSeq := p.id;
        var row := FindPost(posts, users, p.id);
        r := Response(200, PostBody(row), KeepCookie);
    }

    /** GET /api/stats/views: one more view, answered with the new count. */
    method RecordView() returns (r: Response)
      requires Valid()
      modifies this`views
      ensures Valid()
      ensures views == old(views) + 1
      ensures users == old(users) && posts == old(posts)
      ensures r == Response(200, ViewsBody(views), KeepCookie)
    {
      views := views + 1;
      r := Response(200, ViewsBody(views), KeepCookie);
    }
  }

  /** Signing up and then logging in with the same credentials yields the same
      claim and body, the same id included; a failed signup changes nothing. */
  method SignupThenLogin(s: Store, email: string, password: string, username: string, salt: nat)
    returns (signup: Response, login: Response)
    requires s.Valid()
    modifies s
    ensures s.Valid()
    ensures signup.status == 200 ==> login == signup
    ensures signup.status != 200 ==> signup == SignupFailed && s.users == old(s.users)
  {
    ghost var before := s.users;
    signup := s.Signup(email, password, username, salt);
    if signup.status == 200 {
      LoginAfterSignup(before, s.secret, s.userSeq, email, password, username, salt);
    }
    login := Login(s.users, s.secret, email, password);
  }

  /** A post created by an existing user while the clock is ahead of every stored
      post heads the next feed, exactly as the creation route returned it; a post
      stored without an author leaves the feed as it was. */
  method PostThenList(s: Store, cookie: Option<Token>, content: string, now: nat)
    returns (created: Response, feed: Response)
    requires s.Valid()
    modifies s
    ensures s.Valid()
    ensures feed.body.PostsBody?
    ensures created.status == 200 ==> created.body.PostBody?
    ensures created.status == 200 && created.body.post.None?
      ==> feed.body.posts == ListPosts(old(s.posts), s.users)
    ensures created.body.PostBody? && created.body.post.Some?
      && (forall i :: 0 <= i < |old(s.posts)| ==> old(s.posts)[i].createdAt < now)
      ==> feed.body.posts != [] && feed.body.posts[0] == created.body.post.value
  {
    ghost var before := s.posts;
    created := s.CreatePost(cookie, content, now);
    if created.body.PostBody? && created.body.post.Some?
       && (forall i :: 0 <= i < |before| ==> before[i].createdAt < now) {
      var claim := Authenticate(cookie, s.secret).claim;
      NewPostFirst(before, s.users, Post(s.postSeq, claim.id, content, now));
    }
    if created.status == 200 && created.body.post.None? {
      var claim := Authenticate(cookie, s.secret).claim;
      OrphanPostHidden(before, s.users, Post(s.postSeq, claim.id, content, now));
    }
    feed := GetPosts(s.posts, s.users);
  }
}
