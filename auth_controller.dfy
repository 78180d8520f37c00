/** The auth controller's handlers as they run: step by step against the user
    store, reading a record, changing its refresh-token list and saving it.
    Each handler is proved to leave the store, and to answer, exactly as the
    protocol function of the same name in Protocol says. */
module AuthController {

  import opened Wrappers
  import opened Jwt
  import opened Bcrypt
  import opened Users
  import opened TokenList
  import P = Protocol

  /** register */
  method Register(db: UserStore, hasher: Hasher, email: string, password: string, saltSeed: nat) returns (user: User)
    requires db.Valid()
    modifies db
    ensures db.Valid()
    ensures P.Step(db.users, user) == P.Register(old(db.users), hasher, old(db.nextId), email, password, saltSeed)
    ensures db.nextId == old(db.nextId) + 1
  {
    var salt := GenSalt(SaltRounds, saltSeed);
    var hashedPassword := hasher.hash(password, salt);
    user := db.Create(email, hashedPassword);
  }

  /** login */
  method Login(db: UserStore, cfg: Config, codec: Codec, hasher: Hasher, email: string, password: string, random: string)
    returns (res: P.Response)
    requires db.Valid()
    modifies db
    ensures db.Valid()
    ensures P.Step(db.users, res) == P.Login(old(db.users), cfg, codec, hasher, email, password, random)
    ensures db.nextId == old(db.nextId)
  {
    var found := FindByEmail(db.users, email);
    if found.None? {
      return P.BadRequest(P.WrongCredentials);
    }
    var user := db.users[found.value];
    if !hasher.compare(password, user.password) {
      return P.BadRequest(P.WrongCredentials);
    }
    var tokens := P.GenerateToken(cfg, codec, user.id, random);
    if tokens.None? {
      return P.ServerError;
    }
    if user.refreshToken.None? {
      user := user.(refreshToken := Some([]));
    }
    user := user.(refreshToken := Some(user.refreshToken.value + [tokens.value.refreshToken]));
    db.Save(user);
    res := P.Issued(tokens.value.accessToken, tokens.value.refreshToken, user.id);
  }

  /** verifyRefreshToken: Some(user) for resolve(user), None for reject('fail'). */
  method VerifyRefreshToken(db: UserStore, cfg: Config, codec: Codec, token: Option<string>)
    returns (user: Option<User>)
    requires db.Valid()
    modifies db
    ensures db.Valid()
    ensures P.Step(db.users, user) == P.VerifyRefreshToken(old(db.users), cfg, codec, token)
    ensures db.nextId == old(db.nextId)
  {
    if P.Absent(token) {
      return None;
    }
    if !SecretSet(cfg) {
      return None;
    }
    var payload := codec.verify(token.value, Secret(cfg));
    if payload.None? {
      return None;
    }
    var found := FindById(db.users, payload.value.id);
    if found.None? {
      return None;
    }
    var u := db.users[found.value];
    if u.refreshToken.None? || token.value !in u.refreshToken.value {
      u := u.(refreshToken := Some([]));
      db.Save(u);
      return None;
    }
    u := u.(refreshToken := Some(Without(u.refreshToken.value, token.value)));
    db.Save(u);
    user := Some(u);
  }

  /** logout */
  method Logout(db: UserStore, cfg: Config, codec: Codec, token: Option<string>) returns (res: P.Response)
    requires db.Valid()
    modifies db
    ensures db.Valid()
    ensures P.Step(db.users, res) == P.Logout(old(db.users), cfg, codec, token)
    ensures db.nextId == old(db.nextId)
  {
    var user := VerifyRefreshToken(db, cfg, codec, token);
    if user.Some? {
      res := P.Success;
    } else {
      res := P.BadRequest(P.Fail);
    }
  }

  /** refresh */
  method Refresh(db: UserStore, cfg: Config, codec: Codec, token: Option<string>, random: string)
    returns (res: P.Response)
    requires db.Valid()
    modifies db
    ensures db.Valid()
    ensures P.Step(db.users, res) == P.Refresh(old(db.users), cfg, codec, token, random)
    ensures db.nextId == old(db.nextId)
  {
    var verified := VerifyRefreshToken(db, cfg, codec, token);
    if verified.None? {
      return P.BadRequest(P.Fail);
    }
    var user := verified.value;
    var tokens := P.GenerateToken(cfg, codec, user.id, random);
    if tokens.None? {
      return P.ServerError;
    }
    if user.refreshToken.None? {
      user := user.(refreshToken := Some([]));
    }
    user := user.(refreshToken := Some(user.refreshToken.value + [tokens.value.refreshToken]));
    db.Save(user);
    res := P.Issued(tokens.value.accessToken, tokens.value.refreshToken, user.id);
  }
}
