/**
  What a route answers: a status, a JSON body and what it does to the
  `token` cookie; and the authentication gate that protected routes sit behind.
*/
module Http {
  import opened Wrappers
  import opened Crypto
  import opened Feed

  /** Set the `token` cookie, clear it, or leave it alone. */
  datatype CookieAction = SetToken(token: Token) | ClearToken | KeepCookie

  datatype Body =
    | UserBody(user: Claim)
    | ErrorBody(error: string)
    | SuccessBody
    | PostsBody(posts: seq<FeedRow>)
    | PostBody(post: Option<FeedRow>)  // None: the post has a NULL author id and the re-read finds no joined row
    | ViewsBody(views: nat)

  datatype Response = Response(status: nat, body: Body, cookie: CookieAction)

  const Unauthorized := Response(401, ErrorBody("Unauthorized"), KeepCookie)
  const Forbidden := Response(403, ErrorBody("Forbidden"), KeepCookie)
  /** The framework's answer to an exception the route does not catch. */
  const InternalError := Response(500, ErrorBody("Internal Server Error"), KeepCookie)

  /** The answer that opens a session: the claim in the body and a token signed over it in the cookie. */
  function SessionFor(c: Claim, secret: string): (r: Response)
    ensures r.status == 200 && r.body == UserBody(c)
    ensures r.cookie.SetToken? && Decode(r.cookie.token, secret) == Some(c)
  {
    Response(200, UserBody(c), SetToken(Sign(c, secret)))
  }

  /** A `token` cookie that JavaScript treats as present: absent and empty both count as missing. */
  predicate Presented(cookie: Option<Token>)
  {
    cookie.Some? && cookie.value != Opaque("")
  }

  /** The gate's verdict: run the handler with a claim, or answer without running it. */
  datatype Gate = Admit(claim: Claim) | Deny(response: Response)

  /** The authentication gate: 401 without a token, 403 when the token does not verify,
      and otherwise the handler runs with exactly the claim the token was signed over. */
  function Authenticate(cookie: Option<Token>, secret: string): (g: Gate)
    ensures !Presented(cookie) ==> g == Deny(Unauthorized)
    ensures Presented(cookie) && Decode(cookie.value, secret).None? ==> g == Deny(Forbidden)
    ensures g.Admit? <==> exists c :: cookie == Some(Sign(c, secret))
    ensures g.Admit? ==> cookie == Some(Sign(g.claim, secret))
  {
    if !Presented(cookie) then
      Deny(Unauthorized)
    else
      match Decode(cookie.value, secret)
      case None => Deny(Forbidden)
      case Some(c) => Admit(c)
  }
}
