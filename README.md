# Session and refresh-token protocol of the blog REST API

This project models the authentication controller of a small blogging REST
API (`src/controllors/auth_controller.ts`): registration, login, the issue of
an access/refresh token pair, refresh-token verification with its replay
check and purge, rotation on refresh, logout, and the request middleware that
reads the bearer token.

State lives in the user collection. Each user record holds an `_id`, an
email, a password digest and a `refreshToken` list, which may be absent;
every step reads an absent list as an empty one.
The model has two layers:

- `Protocol` (protocol.dfy) gives each handler as a function. The function
  maps the collection's contents and the request to the new contents and the
  reply (`Step(users, out)`).
- `AuthController` (auth_controller.dfy) runs the same handlers step by step
  against a `UserStore` object: find the record, change its list, `save` it.
  Each method is proved to leave the store and answer exactly as the
  `Protocol` function of the same name says.

The properties are proved about the functions:

- `ProtocolProperties`: login, verification, rotation, logout and replay.
- `TokenUniqueness`: the rule that a refresh token is held by at most one
  user, and only once.
- `Middleware`: the header-to-token extraction and the middleware's outcomes.
- `Scenario`: an end-to-end session. The test suites register, log in and
  call a protected route with "Bearer <access token>"; the scenario extends
  that session with a refresh and a replay of the original refresh token.

Foreign code becomes parameters:

- jsonwebtoken is the `Jwt.Codec` pair of functions `sign(payload, secret,
  expiresIn)` and `verify(token, secret)`. `verify` gives `None` for every
  verification error, and the clock is folded into it. A lemma about several
  requests takes one codec per request, so a token may expire in between.
- `Math.random().toString()` is the `random` argument.
- The salt's random bits are the `saltSeed` argument.
- bcrypt is the `Bcrypt.Hasher` pair of functions `hash(password, salt)` and
  `compare(password, digest)`. Nothing is assumed about them, except where a
  lemma takes as a hypothesis that `compare` accepts a password against its
  own hash (`AcceptsHashed`).
- The environment variables `TOKEN_SECRET`, `TOKEN_EXPIRES` and
  `REFRESH_TOKEN_EXPIRES` form a `Jwt.Config` value passed to each call.
- MongoDB's `_id` generation is a counter in the store.
- `findOne`, `findById` and `save` act directly on the in-memory collection.
  `findOne` returns the first match in insertion order.

JavaScript's falsy tests are fixed by three definitions:

- `Jwt.SecretSet` is `!process.env.TOKEN_SECRET` negated: the secret is defined
  and not empty (src/controllors/auth_controller.ts:27, 92, 177).
- `Protocol.Absent` is `!refreshToken`: the body field is missing or empty
  (src/controllors/auth_controller.ts:88).
- `Users.Held` reads a missing `user.refreshToken` as `[]`
  (src/controllors/auth_controller.ts:67-68, 104, 148-149).

Behaviour a reader might expect but the code does not have:

- `register` rejects neither a short password nor, by itself, a duplicate email.
- Expiry is checked only inside `jwt.verify`, with no second timestamp comparison.
- The middleware answers 401 'Access Denied' to every verification error,
  expired tokens included.
- The middleware does not check the word before the token. The header
  "Basic x" yields the token x.

`refresh` can never answer 500 (`Protocol.Refresh`).
Its `generateToken` call could only fail without a secret, and
`verifyRefreshToken` has already rejected that case.

## Model

| member | source | states |
|---|---|---|
| `Strings.Split` | src/controllors/auth_controller.ts:171 | split(' ') returns at least one field and no field contains a space |
| `Strings.JoinSplit` | src/controllors/auth_controller.ts:171 | joining the fields of split(' ') with single spaces gives back the original header |
| `Strings.SplitJoin` | src/controllors/auth_controller.ts:171 | split(' ') of space-joined, space-free fields gives back exactly those fields |
| `TokenList.Without` | src/controllors/auth_controller.ts:111 | the filtered list is no longer than the original, holds only tokens of the original and never the one filtered out |
| `TokenList.WithoutCounts` | src/controllors/auth_controller.ts:111 | filtering out the redeemed token removes every occurrence of it and keeps every other token with its multiplicity |
| `TokenList.WithoutLength` | src/controllors/auth_controller.ts:111 | the filtered list is shorter by the number of occurrences of the token and no longer contains it |
| `TokenList.WithoutConcat` | src/controllors/auth_controller.ts:111 | filtering distributes over concatenation, so the kept tokens stay in their original order |
| `TokenList.WithoutAbsent` | src/controllors/auth_controller.ts:111 | filtering out a token that is not in the list leaves the list unchanged |
| `Users.FindByEmail` | src/controllors/auth_controller.ts:51 | findOne({email}) gives the first record with that email, or none when no record has it |
| `Users.FindById` | src/controllors/auth_controller.ts:103 | findById gives the first record with that id, or none when no record has it |
| `Users.SaveUser` | src/controllors/auth_controller.ts:71 | save keeps the collection's size and ids; a record changes only by being replaced with the saved one, and only where its id was; when that id is stored, the saved record is stored afterwards |
| `Users.SaveReplacesOne` | src/controllors/auth_controller.ts:112 | saving a record replaces only the stored record with its id, keeps the collection's size, and the record is found there afterwards |
| `Users.UserStore.Create` | src/controllors/auth_controller.ts:13 | create appends a record with an id no stored record has, the given email and digest, and no refresh-token list; the next id moves past it and ids stay unique |
| `Users.UserStore.Save` | src/controllors/auth_controller.ts:71 | save writes the record back over the stored record with the same id, leaves the id counter alone and keeps ids unique |
| `Protocol.GenerateToken` | src/controllors/auth_controller.ts:26-45 | no token pair exactly when TOKEN_SECRET is unset or empty |
| `Protocol.Register` | src/controllors/auth_controller.ts:8-14 | register appends one record and leaves the earlier ones as they were; the new record has the next id, the email given and no refresh token, and its stored digest is accepted for the password given when compare accepts a password against its own hash |
| `Protocol.AppendRefreshToken` | src/controllors/auth_controller.ts:67-70 | pushing onto the list (created when absent) adds the token at the end of the tokens held and changes nothing else about the user |
| `Protocol.Login` | src/controllors/auth_controller.ts:48-81 | login never answers 'success', keeps every id in place, changes nothing unless it issues a pair, and issues it for the first record with the email given |
| `Protocol.VerifyRefreshToken` | src/controllors/auth_controller.ts:86-119 | verification keeps every id in place; a resolved user no longer holds the presented token and is stored in the collection |
| `Protocol.Logout` | src/controllors/auth_controller.ts:122-133 | logout answers 200 'success' or 400 'fail' and nothing else, and keeps every id in place |
| `Protocol.Refresh` | src/controllors/auth_controller.ts:136-162 | refresh answers a new pair or 400 'fail', never 500, because verification has already rejected a missing secret; ids stay in place |
| `AuthController.Register` | src/controllors/auth_controller.ts:8-18 | hashes the password with a 10-round salt and appends the new record as register says, advancing the id counter by one and keeping the store valid |
| `AuthController.Login` | src/controllors/auth_controller.ts:48-81 | the new store and the reply are those of the login protocol (400 for bad credentials, 500 without secret, else append and issue); the id counter is unchanged |
| `AuthController.VerifyRefreshToken` | src/controllors/auth_controller.ts:86-119 | the new store and the outcome are those of the verification protocol (reject, purge on replay, or filter out and resolve); the id counter is unchanged |
| `AuthController.Logout` | src/controllors/auth_controller.ts:122-133 | verify, then 200 'success' or 400 'fail', with the store verification leaves; the id counter is unchanged |
| `AuthController.Refresh` | src/controllors/auth_controller.ts:136-162 | verify, then mint a pair and append the new refresh token, as the refresh protocol says; the id counter is unchanged |
| `ProtocolProperties.GeneratedPairSharesPayload` | src/controllors/auth_controller.ts:31-44 | with a secret, both tokens of a pair read back at a later request to the same payload: the user's _id and the same random nonce |
| `ProtocolProperties.LoginRejectsIndistinguishably` | src/controllors/auth_controller.ts:51-60 | login answers 400 exactly when the email is unknown or the password wrong; both give the same 400 'Wrong username or password' and leave the collection unchanged |
| `ProtocolProperties.LoginServerError` | src/controllors/auth_controller.ts:62-65 | login answers 500 exactly when the credentials are right and no secret is set, changing nothing |
| `ProtocolProperties.LoginAppendsOneToken` | src/controllors/auth_controller.ts:67-77 | a successful login appends exactly the new refresh token to the end of the user's list (absent read as empty), changes nothing else and replies with the pair and the user's _id |
| `ProtocolProperties.VerifyRejectsUntouched` | src/controllors/auth_controller.ts:88-99 | an absent or empty token, no secret, or a failed signature check rejects and leaves the collection untouched |
| `ProtocolProperties.VerifyUnknownSubject` | src/controllors/auth_controller.ts:103-107 | a verified token whose subject does not exist rejects and changes nothing |
| `ProtocolProperties.VerifyPurgesOnReplay` | src/controllors/auth_controller.ts:103-107 | a verified token its existing subject does not hold rejects and empties that subject's list, and nothing else changes |
| `ProtocolProperties.VerifyRedeems` | src/controllors/auth_controller.ts:110-113 | a held token resolves to the saved record; every occurrence of it leaves the list, the other tokens keep order and multiplicity, no other record changes |
| `ProtocolProperties.VerifySucceedsIffRedeemable` | src/controllors/auth_controller.ts:86-119 | verification resolves if and only if the token is present, a secret is set, it verifies, its subject exists and holds it |
| `ProtocolProperties.VerifiedUserIsStored` | src/controllors/auth_controller.ts:110-113 | the resolved user is the token's subject and equals the record saved in the collection |
| `ProtocolProperties.LogoutSucceedsIffRedeemable` | src/controllors/auth_controller.ts:122-133 | on every input, logout answers 200 'success' exactly for a redeemable token (otherwise 400 'fail') and leaves the state verification leaves |
| `ProtocolProperties.LogoutConsumes` | src/controllors/auth_controller.ts:122-133 | logout succeeds exactly when the subject holds the token; it then only removes it (the list gets shorter, nothing added); otherwise 400 'fail' and the list is purged |
| `ProtocolProperties.RefreshRotates` | src/controllors/auth_controller.ts:136-158 | a redeemable token is replaced by the new one at the end of the list; the new one is present, the old one absent when they differ, and the length is the old length minus the old token's occurrences plus one |
| `ProtocolProperties.RefreshRejects` | src/controllors/auth_controller.ts:138-141 | refresh answers 400 'fail' exactly for a non-redeemable token, keeping the state verification left (a purge persists) |
| `ProtocolProperties.LogoutTwiceFails` | src/controllors/auth_controller.ts:97-112 | logging out twice with one token: the first succeeds, the second fails with 400 'fail'; it empties the subject's list when the token still verifies at the second request, and changes nothing when it has expired |
| `ProtocolProperties.RefreshReplayFails` | src/controllors/auth_controller.ts:97-112 | presenting a rotated-out token again fails with 400 'fail'; while the token still verifies, it empties the list, including the token the first refresh minted, and once it has expired it changes nothing |
| `ProtocolProperties.RegisterThenLogin` | src/controllors/auth_controller.ts:8-77 | with a secret, an unused email and a compare that accepts a password against its own hash, register then login with the same credentials issues a pair for the new id, whose record holds exactly the new refresh token; earlier records are unchanged |
| `ProtocolProperties.LookupIgnoresLists` | src/controllors/auth_controller.ts:103 | changing refresh-token lists does not change what findById answers |
| `Middleware.HeaderToken` | src/controllors/auth_controller.ts:170-171 | no header gives no token; a token taken is non-empty and space-free |
| `Middleware.HeaderTokenIsSecondField` | src/controllors/auth_controller.ts:171 | a token taken from the header follows the first word and one space, with the remainder empty or starting at a space |
| `Middleware.SchemeNotChecked` | src/controllors/auth_controller.ts:171-175 | any header of space-separated words yields its non-empty second word, whatever the first word is |
| `Middleware.NoSpaceDenied` | src/controllors/auth_controller.ts:171-175 | a header without a space has no second field and is answered 401 |
| `Middleware.AuthMiddleware` | src/controllors/auth_controller.ts:169-189 | without a token 401 before the secret is checked; 500 exactly when a token is present and no secret; proceeds exactly when the token verifies, with userId set to its _id |
| `TokenUniqueness.SingleHolder` | src/controllors/auth_controller.ts:104 | under the invariant a refresh token has one holder and occurs once in its list |
| `TokenUniqueness.VerifyKeepsUnique` | src/controllors/auth_controller.ts:104-112 | verification only removes tokens, so it keeps every token on at most one list, once |
| `TokenUniqueness.AllTokensAppend` | src/controllors/auth_controller.ts:13 | appending a record adds exactly its tokens to the tokens held in the collection |
| `TokenUniqueness.RegisterKeepsUnique` | src/controllors/auth_controller.ts:8-14 | register leaves the tokens held unchanged and so keeps every token on at most one list, once |
| `TokenUniqueness.LogoutKeepsUnique` | src/controllors/auth_controller.ts:122-133 | logout only removes tokens and keeps the invariant |
| `TokenUniqueness.RefusedRefreshKeepsUnique` | src/controllors/auth_controller.ts:136-141 | a refused refresh only removes tokens (a purge at most) and keeps the invariant |
| `TokenUniqueness.AppendFreshKeepsUnique` | src/controllors/auth_controller.ts:70 | appending a token nobody holds adds exactly that token to the collection's tokens and keeps the invariant |
| `TokenUniqueness.LoginKeepsUnique` | src/controllors/auth_controller.ts:67-71 | a login that mints a token nobody holds keeps the invariant |
| `TokenUniqueness.RefreshKeepsUnique` | src/controllors/auth_controller.ts:143-152 | a refresh that mints a token nobody holds keeps the invariant, and the subject's list keeps its length |
| `Scenario.BearerAccessPasses` | src/controllors/auth_controller.ts:169-187 | an access token presented as "Bearer <token>" before it expires passes the middleware with the id it was signed for |
| `Scenario.SessionScenario` | src/controllors/auth_controller.ts:97-162 | register, then login, issues an access token that passes the middleware as "Bearer <token>" with the new id (the session of src/tests/post_test.ts:22-50); extending it, one refresh succeeds, and presenting the original refresh token again answers 400 and empties the list |

## Left out

- jsonwebtoken, bcrypt and `Math.random` are foreign code or randomness. They
  are parameters, and their internals are not modelled.
- bcrypt's one-wayness, cost and salt format are not modelled. Nor is its
  72-byte limit: it compares only the first 72 bytes of a password, so a
  password sharing those bytes with the registered one is accepted by
  login. The model's `compare` is abstract; the only property used is that
  it accepts a password against its own hash.
- The schema in `src/models/user_model.ts` is not part of this model. If it
  gives a new record an empty `refreshToken` array, the only visible
  difference is the body of register's reply, since every step reads an
  absent list as an empty one (`Users.Held`).
- The library's own behaviour is not modelled: a `sign` that throws on an
  undefined `expiresIn` and would be caught as 400. `sign` is a total function here.
- A verified payload without an `_id` is not distinguished. In
  `verifyRefreshToken` it behaves like a failed verification: no record is
  found and nothing changes. The middleware would proceed with an undefined
  `userId`; the model does not represent that case.
- Persistence failures are not modelled: the `catch` branches that answer
  400 with the error (register, login) or 'fail' (refresh, logout, verify).
  Express request/response plumbing, promises and callbacks are replaced by
  return values.
- Rejecting a duplicate email at registration is not modelled. It relies on a
  unique index in `src/models/user_model.ts`, which is not part of this model.
  Lemmas that need the rule take "no record has this email" as a hypothesis.
- No minimum password length, second expiry comparison or "Bearer" check is
  modelled, because the code has none.
- Concurrent requests racing on one user's `refreshToken` list are not
  modelled. Every operation is one atomic step.
- The generic CRUD controllers, comment and post models, routes and server
  bootstrap are not modelled. They are delegation to the database and
  framework wiring.
- ProtocolProperties.GeneratedPairSharesPayload: holds only while the later
  request's codec reads back what was signed (`ReadsBack`), that is, before
  the token expires. The model cannot know this of jsonwebtoken at a given
  clock reading, so it is a hypothesis.
- ProtocolProperties.RefreshRotates: proves the old token absent only when
  the newly minted token differs from it. Freshness of `jwt.sign` output is
  not modelled; the token's random nonce makes a collision practically
  impossible.
- ProtocolProperties.RefreshReplayFails: assumes that the token minted by
  the first refresh differs from the token presented, for the same reason.
  It also assumes that the second request either reads the same claims from
  the token or rejects it; a codec that read different claims from the same
  token is not considered.
- ProtocolProperties.LogoutTwiceFails: assumes, like RefreshReplayFails,
  that the second request reads the same claims or rejects the token.
- TokenUniqueness.LoginKeepsUnique: takes as a hypothesis that the newly
  minted refresh token is held by nobody. The code does not check this.
- TokenUniqueness.RefreshKeepsUnique: takes the same freshness hypothesis.
- Scenario.SessionScenario: takes as hypotheses the freshness of minted
  tokens, a compare that accepts a password against its own hash, tokens
  without spaces, and that no token has expired by the request that
  presents it (`ReadsBack` between the login's codec and each later
  request's). With an expired refresh token the source rejects without a
  purge (`ProtocolProperties.VerifyRejectsUntouched`).
