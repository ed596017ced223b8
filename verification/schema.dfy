/**
  The three tables the server creates at start-up and the facts about their
  rows that the schema guarantees: AUTOINCREMENT ids at most the recorded
  sequence value, post ids growing in insertion order, and e-mail addresses
  unique under exact (binary) comparison.
*/
module Schema {
  import opened Wrappers
  import opened Crypto

  /** A row of `users`, keyed by its id in the table map. */
  datatype User = User(email: string, password: Digest, username: string, avatarUrl: string)

  /** A row of `posts`; `userId` is None for a NULL author id, and `createdAt` is
      CURRENT_TIMESTAMP in whole seconds. */
  datatype Post = Post(id: int, userId: Option<int>, content: string, createdAt: nat)

  /** The post's author id names a stored user; a NULL author id names none. */
  predicate HasAuthor(p: Post, users: map<int, User>)
  {
    p.userId.Some? && p.userId.value in users
  }

  function AuthorOf(p: Post, users: map<int, User>): User
    requires HasAuthor(p, users)
  {
    users[p.userId.value]
  }

  /** The avatar service every new user's picture comes from, seeded with the username. */
  const AvatarBase := "https://api.dicebear.com/7.x/avataaars/svg?seed="

  function AvatarUrl(username: string): (url: string)
    ensures |url| == |AvatarBase| + |username|
    ensures url[..|AvatarBase|] == AvatarBase && url[|AvatarBase|..] == username
  {
    AvatarBase + username
  }

  /** Different usernames never share an avatar. */
  lemma AvatarUrlInjective(a: string, b: string)
    requires AvatarUrl(a) == AvatarUrl(b)
    ensures a == b
  {
  }

  /** The row signup inserts: the bcrypt digest of the password, never the password itself,
      and the avatar derived from the username. */
  function NewUser(email: string, password: string, username: string, salt: nat): User
  {
    User(email, Hash(password, salt), username, AvatarUrl(username))
  }

  /** Some user has exactly this e-mail address. */
  ghost predicate EmailTaken(users: map<int, User>, email: string)
  {
    exists id :: id in users && users[id].email == email
  }

  /** The UNIQUE constraint on users.email. */
  ghost predicate EmailsUnique(users: map<int, User>)
  {
    forall i, j :: i in users && j in users && users[i].email == users[j].email ==> i == j
  }

  /** The user stored under exactly this e-mail address, if any; at most one exists. */
  function FindByEmail(users: map<int, User>, email: string): (r: Option<int>)
    requires EmailsUnique(users)
    ensures r.Some? <==> EmailTaken(users, email)
    ensures r.Some? ==> r.value in users && users[r.value].email == email
  {
    if exists id :: id in users && users[id].email == email then
      var id :| id in users && users[id].email == email;
      Some(id)
    else
      None
  }

  /** The user table, the post table and the two AUTOINCREMENT sequence values
      are consistent: ids are positive and at most their sequence value, post ids
      grow in insertion order, no two users share an e-mail address, and every
      non-NULL author id names a stored user (the foreign key, which the database
      enforces and which does not apply to NULL). */
  ghost predicate TablesValid(users: map<int, User>, posts: seq<Post>, userSeq: nat, postSeq: nat)
  {
    && EmailsUnique(users)
    && (forall id :: id in users ==> 0 < id <= userSeq)
    && (forall i :: 0 <= i < |posts| ==> 0 < posts[i].id <= postSeq)
    && (forall i, j :: 0 <= i < j < |posts| ==> posts[i].id < posts[j].id)
    && (forall i :: 0 <= i < |posts| ==> posts[i].userId.Some? ==> posts[i].userId.value in users)
  }

  /** Inserting a user whose e-mail is not yet taken, under an unused id, keeps e-mails unique. */
  lemma AddUserKeepsEmailsUnique(users: map<int, User>, id: int, u: User)
    requires EmailsUnique(users) && !EmailTaken(users, u.email) && id !in users
    ensures EmailsUnique(users[id := u])
  {
  }
}
