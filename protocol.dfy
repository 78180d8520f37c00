/** The session protocol of the auth controller, as functions from the
    contents of the user collection (and the request) to the new contents and
    the reply. The imperative controller in AuthController is proved to
    compute exactly these; the properties of the protocol are proved about
    them in ProtocolProperties. */
module Protocol {

  import opened Wrappers
  import opened Jwt
  import opened Bcrypt
  import opened Users
  import opened TokenList

  /** Body of the 400 reply to a failed login. */
  const WrongCredentials: string := "Wrong username or password"

  /** Body of the 400 reply to a failed refresh or logout. */
  const Fail: string := "fail"

  /** The pair generateToken returns. */
  datatype Tokens = Tokens(accessToken: string, refreshToken: string)

  /** The HTTP replies of the controller. */
  datatype Response =
    | Issued(accessToken: string, refreshToken: string, id: UserId)  // 200 { accessToken, refreshToken, _id }
    | Success                                                        // 200 'success'
    | BadRequest(message: string)                                    // 400
    | ServerError                                                    // 500 'Server Error'
  {
    function Status(): nat
    {
      match this
      case Issued(_, _, _) => 200
      case Success => 200
      case BadRequest(_) => 400
      case ServerError => 500
    }
  }

  /** The collection after a step, and what the step produced. */
  datatype Step<T> = Step(users: seq<User>, out: T)

  /** generateToken(userId), with the value of Math.random().toString() given
      as `random`: nothing without a secret; otherwise an access token and a
      refresh token signed over the same payload { _id, random }, with the
      access and the refresh lifetime respectively. */
  function GenerateToken(cfg: Config, codec: Codec, userId: UserId, random: string): (r: Option<Tokens>)
    ensures r.None? <==> !SecretSet(cfg)
  {
    if !SecretSet(cfg) then None
    else
      var payload := Claims(userId, random);
      Some(Tokens(codec.sign(payload, Secret(cfg), cfg.tokenExpires),
                  codec.sign(payload, Secret(cfg), cfg.refreshTokenExpires)))
  }

  /** The record register creates: the email, the password hashed with a salt
      of SaltRounds rounds, no refresh-token list (read as an empty one). */
  function NewUser(hasher: Hasher, id: UserId, email: string, password: string, saltSeed: nat): User
  {
    User(id, email, hasher.hash(password, GenSalt(SaltRounds, saltSeed)), None)
  }

  /** register: the new record, with the next free id, is appended and
      returned. Earlier records are untouched, the new one holds no refresh
      token, and with a hasher that accepts a password against its own hash
      the stored digest accepts the password registered. */
  function Register(users: seq<User>, hasher: Hasher, nextId: UserId, email: string, password: string, saltSeed: nat): (r: Step<User>)
    ensures |r.users| == |users| + 1 && r.users[..|users|] == users && r.users[|users|] == r.out
    ensures r.out.id == nextId && r.out.email == email && Held(r.out) == []
    ensures AcceptsHashed(hasher) ==> hasher.compare(password, r.out.password)
  {
    var u := NewUser(hasher, nextId, email, password, saltSeed);
    Step(users + [u], u)
  }

  /** Pushing `t` onto the user's list, creating the list when it is absent:
      the held tokens gain `t` at the end and nothing else about the user
      changes. */
  function AppendRefreshToken(u: User, t: string): (r: User)
    ensures r.id == u.id && r.email == u.email && r.password == u.password
    ensures Held(r) == Held(u) + [t]
  {
    u.(refreshToken := Some(Held(u) + [t]))
  }

  /** login. It never answers the bare 'success' of logout; it keeps every
      id in place, changes nothing unless it issues tokens, and then issues
      them for the first record with the email given. */
  function Login(users: seq<User>, cfg: Config, codec: Codec, hasher: Hasher, email: string, password: string, random: string): (r: Step<Response>)
    ensures r.out != Success
    ensures SameIds(users, r.users)
    ensures !r.out.Issued? ==> r.users == users
    ensures r.out.Issued? ==> FindByEmail(users, email).Some? && r.out.id == users[FindByEmail(users, email).value].id
  {
    match FindByEmail(users, email)
    case None => Step(users, BadRequest(WrongCredentials))
    case Some(i) =>
      var user := users[i];
      if !hasher.compare(password, user.password) then Step(users, BadRequest(WrongCredentials))
      else match GenerateToken(cfg, codec, user.id, random)
        case None => Step(users, ServerError)
        case Some(tokens) =>
          Step(SaveUser(users, AppendRefreshToken(user, tokens.refreshToken)),
               Issued(tokens.accessToken, tokens.refreshToken, user.id))
  }

  /** `!refreshToken`: the body field is undefined or the empty string. */
  predicate Absent(token: Option<string>)
  {
    token.None? || token.value == ""
  }

  /** verifyRefreshToken: resolves to the user (Some) or rejects with 'fail'
      (None). A token that verifies but is not on its subject's list empties
      that list; a redeemed token is filtered out of the list. */
  function VerifyRefreshToken(users: seq<User>, cfg: Config, codec: Codec, token: Option<string>): (r: Step<Option<User>>)
    ensures SameIds(users, r.users)
    ensures r.out.Some? ==> token.Some? && token.value !in Held(r.out.value) && r.out.value in r.users
  {
    if Absent(token) || !SecretSet(cfg) then Step(users, None)
    else match codec.verify(token.value, Secret(cfg))
      case None => Step(users, None)
      case Some(claims) =>
        match FindById(users, claims.id)
        case None => Step(users, None)
        case Some(i) =>
          var user := users[i];
          if user.refreshToken.None? || token.value !in user.refreshToken.value then
            Step(SaveUser(users, user.(refreshToken := Some([]))), None)
          else
            var redeemed := user.(refreshToken := Some(Without(user.refreshToken.value, token.value)));
            Step(SaveUser(users, redeemed), Some(redeemed))
  }

  /** logout: 200 'success' when the token was redeemed, 400 'fail' otherwise;
      ids stay in place. */
  function Logout(users: seq<User>, cfg: Config, codec: Codec, token: Option<string>): (r: Step<Response>)
    ensures r.out == Success || r.out == BadRequest(Fail)
    ensures SameIds(users, r.users)
  {
    var v := VerifyRefreshToken(users, cfg, codec, token);
    Step(v.users, if v.out.Some? then Success else BadRequest(Fail))
  }

  /** refresh: redeem the presented token, then mint a new pair for the same
      user and append the new refresh token to the user's list. It answers
      200 with a pair or 400 'fail', never 500: the secret generateToken would
      miss was already required by verifyRefreshToken. Ids stay in place. */
  function Refresh(users: seq<User>, cfg: Config, codec: Codec, token: Option<string>, random: string): (r: Step<Response>)
    ensures r.out.Issued? || r.out == BadRequest(Fail)
    ensures SameIds(users, r.users)
  {
    var v := VerifyRefreshToken(users, cfg, codec, token);
    match v.out
    case None => Step(v.users, BadRequest(Fail))
    case Some(user) =>
      match GenerateToken(cfg, codec, user.id, random)
      case None => Step(v.users, ServerError)
      case Some(tokens) =>
        Step(SaveUser(v.users, AppendRefreshToken(user, tokens.refreshToken)),
             Issued(tokens.accessToken, tokens.refreshToken, user.id))
  }
}
