/**
  The routes that only read the tables: login, the current-user route,
  logout and the feed. Each is a function of the tables as they stand.
*/
module Routes {
  import opened Wrappers
  import opened Crypto
  import opened Schema
  import opened Feed
  import opened Http

  const InvalidCredentials := Response(401, ErrorBody("Invalid credentials"), KeepCookie)

  /** The claim a session carries for the user stored under `id`. */
  function ClaimOf(id: int, u: User): Claim
  {
    Claim(Some(id), u.email, u.username, u.avatarUrl)
  }

  /** POST /api/auth/login: a session for the user with exactly this e-mail when
      the password verifies against the stored digest; 401 and no cookie otherwise. */
  function Login(users: map<int, User>, secret: string, email: string, password: string): (r: Response)
    requires EmailsUnique(users)
    ensures r.status == 200 <==> exists id :: id in users && users[id].email == email && Verify(password, users[id].password)
    ensures r.status == 200 ==> exists id :: id in users && users[id].email == email && r == SessionFor(ClaimOf(id, users[id]), secret)
    ensures r.status != 200 ==> r == InvalidCredentials
  {
    match FindByEmail(users, email)
    case None => InvalidCredentials
    case Some(id) =>
      if Verify(password, users[id].password) then SessionFor(ClaimOf(id, users[id]), secret)
      else InvalidCredentials
  }

  /** GET /api/auth/me: behind the gate, answers with the claim the token carries. */
  function Me(cookie: Option<Token>, secret: string): (r: Response)
    ensures r.status == 200 <==> exists c :: cookie == Some(Sign(c, secret))
    ensures r.status == 200 ==> r.body.UserBody? && cookie == Some(Sign(r.body.user, secret)) && r.cookie == KeepCookie
    ensures !Presented(cookie) ==> r == Unauthorized
    ensures Presented(cookie) && Decode(cookie.value, secret).None? ==> r == Forbidden
    ensures r.status != 200 ==> r == Unauthorized || r == Forbidden
  {
    match Authenticate(cookie, secret)
    case Deny(denied) => denied
    case Admit(c) => Response(200, UserBody(c), KeepCookie)
  }

  /** POST /api/auth/logout: needs no session; clears the cookie and reports success. */
  function Logout(): (r: Response)
    ensures r.status == 200 && r.body == SuccessBody && r.cookie == ClearToken
  {
    Response(200, SuccessBody, ClearToken)
  }

  /** GET /api/posts: every post with an existing author, joined with that author,
      newest first, and nothing else; the cookie is left alone. */
  function GetPosts(posts: seq<Post>, users: map<int, User>): (r: Response)
    ensures r.status == 200 && r.cookie == KeepCookie && r.body.PostsBody?
    ensures NewestFirst(r.body.posts)
    ensures multiset(r.body.posts) == multiset(Joined(posts, users))
  {
    Response(200, PostsBody(ListPosts(posts, users)), KeepCookie)
  }

  /** Logging in with the credentials a user signed up with returns that user's
      id, e-mail, username and avatar: the claim and body signup answered with. */
  lemma LoginAfterSignup(users: map<int, User>, secret: string, id: int,
                         email: string, password: string, username: string, salt: nat)
    requires EmailsUnique(users) && !EmailTaken(users, email) && id !in users
    ensures EmailsUnique(users[id := NewUser(email, password, username, salt)])
    ensures Login(users[id := NewUser(email, password, username, salt)], secret, email, password)
         == SessionFor(Claim(Some(id), email, username, AvatarUrl(username)), secret)
  {
    var u := NewUser(email, password, username, salt);
    AddUserKeepsEmailsUnique(users, id, u);
    var after := users[id := u];
    assert after[id].email == email;
    assert FindByEmail(after, email) == Some(id);
  }

  /** A password other than the one a user's digest was made from is refused with 401 and no cookie. */
  lemma WrongPasswordRefused(users: map<int, User>, secret: string, id: int, password: string, stored: string, salt: nat)
    requires EmailsUnique(users) && id in users
    requires users[id].password == Hash(stored, salt) && password != stored
    ensures Login(users, secret, users[id].email, password) == InvalidCredentials
  {
  }

  /** Logging out only clears the cookie: a client that kept its token is still let in. */
  lemma LogoutDoesNotRevoke(c: Claim, secret: string)
    ensures Logout().cookie == ClearToken
    ensures Me(None, secret) == Unauthorized
    ensures Me(Some(Sign(c, secret)), secret) == Response(200, UserBody(c), KeepCookie)
  {
  }
}
