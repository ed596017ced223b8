# Verse Hub backend: accounts, sessions, feed and view counter

This project models the request handlers of the Verse Hub server (`server.ts`)
as a small state machine over three SQLite tables, with an authentication gate
in front of the protected routes.

- **State.** `users` is a map from AUTOINCREMENT id to a row holding the e-mail, the
  bcrypt digest of the password, the username and the avatar URL. E-mails are unique
  under exact comparison. `posts` is a sequence of rows in table order: id, author id,
  content and creation second. `views` is the value of the one row of `stats`.
  `users` and `posts` each keep their AUTOINCREMENT sequence value, so a new id is always fresh.
  The database handle is the class `Server.Store`. The routes that write are its methods.
  The routes that only read are functions of its tables, in module `Routes`.
- **Cryptography.** bcrypt and JSON Web Tokens are modelled by what the server relies on.
  A password verifies against every digest made from it, whatever the salt, and against no
  digest made from a different password.
  A token verifies under the key that signed it and yields exactly the signed claim.
  A token signed with another key, or any other text, does not verify.
  A digest is a type of its own, so a plaintext password cannot be stored in its place.
- **Responses.** A response is a status, a JSON body and a cookie action: set the
  `token` cookie, clear it, or leave it alone.
- **Gate.** The gate answers 401 when the `token` cookie is absent. An empty cookie
  also counts as absent, because JavaScript treats the empty string as false.
  It answers 403 when the token does not verify. Otherwise the handler runs with the decoded claim.
- **Clock.** The clock is an input: `createdAt` is the whole second that SQLite's
  `CURRENT_TIMESTAMP` would give. Because of the one-second resolution, the feed is promised only
  in non-increasing order of `createdAt`. A new post is proved to head the feed only
  when it is strictly newer than every stored post. When the clock has not gone back,
  the feed is proved to start with a post from the same second.

Two behaviours of the server worth stating outright:

- The `posts` table has a foreign key to `users`, and the SQLite build the server uses
  enforces foreign keys. The gate admits any token signed with the key, whatever its payload.
  When the signing secret is left at its built-in default, anyone can sign one.
  - If the claim names a user id that does not exist, the insert fails. The route does not
    catch the error, so the answer is 500, and no post is inserted.
  - If the claim's id is null, the author id is stored as NULL. SQLite does not check a
    foreign key on NULL, so the post is inserted and the id sequence advances. The re-read
    then finds no joined row, so the answer is 200 with an empty body.
  - Such an author-less post never appears in the feed (`Feed.OrphanPostHidden`,
    `Server.PostThenList`).
  - Every stored post with a non-NULL author id has an existing author. When every post
    has one, the feed shows every post (`Feed.FeedCoversAllPosts`).
- Signup validates no field. The only failure the model can reach is the unique e-mail
  constraint, which answers 400.

## Model

| member | source | states |
|---|---|---|
| `Crypto.Hash` | server.ts:65 | the digest records work factor 10 and the salt, and the password verifies against it |
| `Crypto.VerifyRejectsOtherPassword` | server.ts:82 | a password does not verify against the digest of a different password, whatever the salt |
| `Crypto.Decode` | server.ts:54-55 | a token verifies under a key exactly when that key signed it over some claim, and then yields that claim |
| `Crypto.Sign` | server.ts:70 | an issued token is never the empty cookie value |
| `Crypto.DecodeSign` | server.ts:70 | verifying a token under the key that signed it gives back exactly the signed claim |
| `Crypto.DecodeOtherKey` | server.ts:54-55 | a token signed with any other key is rejected |
| `Schema.AvatarUrl` | server.ts:66 | the avatar URL is the dicebear seed prefix followed by the username, and nothing else |
| `Schema.AvatarUrlInjective` | server.ts:66 | different usernames get different avatar URLs |
| `Schema.FindByEmail` | server.ts:80 | finds a user id exactly when some user has that exact e-mail, and the id found has that e-mail |
| `Schema.AddUserKeepsEmailsUnique` | server.ts:21 | inserting a user with an untaken e-mail under an unused id keeps e-mails unique |
| `Feed.Joined` | server.ts:103-105 | the inner join has no more rows than there are posts |
| `Feed.JoinedMembers` | server.ts:103-105 | a row is in the join exactly when it is some post joined with its existing author's username and avatar |
| `Feed.JoinedAppend` | server.ts:113-114 | appending a post extends the join by that post's row, or by nothing when its author is missing |
| `Feed.InsertByTime` | server.ts:106 | inserting a row adds exactly that row, as a multiset, and the result starts with it or with the old first row |
| `Feed.InsertKeepsNewestFirst` | server.ts:106 | inserting a row into a newest-first sequence keeps it newest-first |
| `Feed.SortNewestFirst` | server.ts:106 | the ordered result is a permutation of its input in non-increasing creation time |
| `Feed.ListPosts` | server.ts:102-107 | the feed is newest-first and holds exactly the joined rows, as a multiset |
| `Feed.FeedMembers` | server.ts:102-107 | every feed row is a post joined with its existing author, and every such post is in the feed |
| `Feed.JoinedCoversAllPosts` | server.ts:103-105 | when every post's author exists, the join has exactly one row per post |
| `Feed.FeedCoversAllPosts` | server.ts:102-107 | when every post's author exists, the feed has exactly one row per post |
| `Feed.OrphanPostHidden` | server.ts:105 | a post with no existing author, such as one stored with a NULL author id, leaves the feed exactly as it was |
| `Feed.NewPostInFirstSecond` | server.ts:31 | if the clock has not gone back, a new post by an existing author is in the feed, and the feed starts with a post of the same second |
| `Feed.NewPostFirst` | server.ts:106 | a new post strictly newer than every stored post is the first row of the feed |
| `Feed.FindPost` | server.ts:116-121 | the re-read by post id yields a joined row with that id, or None when no joined row has it |
| `Feed.FindNewPost` | server.ts:113-121 | re-reading a post just inserted under a fresh id gives it joined with its author, or None when the author is missing |
| `Http.SessionFor` | server.ts:70-72 | an opened session answers 200 with the claim and sets a cookie whose token verifies to that same claim |
| `Http.Authenticate` | server.ts:50-59 | no or empty cookie gives 401, a token that fails verification gives 403, and the handler runs only for a token signed over its claim |
| `Routes.Login` | server.ts:78-89 | 200 exactly when a user has this e-mail and the password verifies; the session is built from that stored row; otherwise 401 with no cookie |
| `Routes.Me` | server.ts:91-93 | 200 exactly for a token this server signed, answering with the claim it carries; otherwise the gate's 401 or 403 |
| `Routes.Logout` | server.ts:95-98 | needs no session, answers success and clears the cookie |
| `Routes.GetPosts` | server.ts:101-109 | answers 200 with the feed, newest first and exactly the joined rows, and leaves the cookie alone |
| `Routes.LoginAfterSignup` | server.ts:62-89 | logging in with the credentials used at signup returns the same claim and body as signup did: same id, e-mail, username and avatar |
| `Routes.WrongPasswordRefused` | server.ts:82-87 | a password other than the stored one gets 401 and no cookie |
| `Routes.LogoutDoesNotRevoke` | server.ts:95-98 | after logout clears the cookie the gate says 401, yet a kept token is still accepted |
| `Server.Store.Open` | server.ts:18-40 | stored tables are kept; the view counter is seeded with 0 only when it has no row |
| `Server.Store.Signup` | server.ts:62-76 | a taken e-mail gives 400 with no cookie and no change; otherwise exactly one user is added under a fresh id, with the password's digest and the derived avatar, and the session for that user is opened |
| `Server.Store.CreatePost` | server.ts:111-124 | a denied request changes nothing; an admitted one whose claim names no user is rejected by the foreign key with 500 and changes nothing; otherwise one post with the claim's id, the content and the clock's second is appended under a fresh id, and the answer is that post joined with its author, or an empty body when the id is null |
| `Server.Store.RecordView` | server.ts:127-131 | the counter grows by exactly one, the answer carries the new value, and users and posts are untouched |
| `Server.SignupThenLogin` | server.ts:62-89 | a successful signup followed by login with the same credentials yields the same claim and body |
| `Server.PostThenList` | server.ts:101-124 | a created post strictly newer than every stored post is the first row of the next feed, exactly as created; a post created with a null author id leaves the feed as it was |

## Left out

- Cryptography inside bcrypt and JSON Web Tokens is not modelled. Hashing and signing are idealised as collision-free.
- `Crypto.VerifyRejectsOtherPassword`: does not model that bcrypt uses only the first 72 UTF-8 bytes of a password; two passwords sharing those bytes both verify against either digest.
- `Routes.WrongPasswordRefused`: for the same reason, a different password that shares the first 72 bytes of the stored one is in fact accepted.
- Random salt generation is not modelled: the salt is an input to signup.
- The configuration of the signing secret from the environment is not modelled: the secret is a parameter of `Server.Store.Open`.
- The JSON Web Token library also adds an issued-at field, in whole seconds, to every token. It is not modelled. `Routes.Me` would echo it back.
- `Routes.LoginAfterSignup`: because the issued-at field is left out, it also equates the two tokens; the real tokens differ unless both are issued in the same second.
- `Server.SignupThenLogin`: its equality of the two responses holds for the claim and body; the real tokens differ by their issued-at field unless issued in the same second.
- The body of the 500 answer is the framework's default error page. The model's `ErrorBody("Internal Server Error")` is a placeholder for it.
- Expiry checks on tokens are not modelled. The server issues no expiring tokens.
- The cookie attributes http-only, secure and same-site are not modelled. Only setting and clearing the cookie are.
- `Server.Store.CreatePost`: tokens signed with the key over a payload whose `id` is neither an integer nor null are not modelled. Examples are a string, a fraction, or a missing `id`. The model's claim id is an integer or null only.
- Parsing of JSON request bodies is not modelled. Every body field is taken to be a string that is present.
- Missing or non-string body fields are not modelled: a missing password (bcrypt raising, then 400), a missing e-mail or username (stored as NULL), or a missing content.
- `Server.Store.RecordView`: does not model SQLite's 64-bit integer limit on the counter.
- Integer limits on the AUTOINCREMENT ids are not modelled either.
- Ties within one second are not modelled faithfully. The model keeps same-second posts in table order; SQLite leaves their order unspecified, and nothing in the model depends on it.
- Concurrency is not modelled. SQLite serialises the writes, so every route is a sequential step.
- Development middleware, static file serving, the single-page fallback route and server start-up are not modelled. They are process and I/O plumbing.
- The front end in `src/App.tsx` is not modelled. It is presentation only.
