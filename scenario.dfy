/** An end-to-end session. The test suites register, log in and call a
    protected route with "Bearer <access token>"; the session here extends
    that with a refresh and a second presentation of the original refresh
    token. */
module Scenario {

  import opened Wrappers
  import opened Jwt
  import opened Bcrypt
  import opened Strings
  import opened Users
  import opened Protocol
  import opened ProtocolProperties
  import opened Middleware

  /** A compact JWT: non-empty and free of spaces, so it survives being sent
      as the second field of an authorization header. */
  ghost predicate Compact(codec: Codec, secret: string, expiresIn: Option<string>)
  {
    forall c: Claims :: codec.sign(c, secret, expiresIn) != "" && ' ' !in codec.sign(c, secret, expiresIn)
  }

  /** An access token signed by `signer` and presented as "Bearer <token>"
      before it expires passes the middleware with the signed user id. */
  lemma BearerAccessPasses(cfg: Config, signer: Codec, reader: Codec, id: UserId, random: string)
    requires SecretSet(cfg)
    requires ReadsBack(signer, reader, Secret(cfg), cfg.tokenExpires)
    requires Compact(signer, Secret(cfg), cfg.tokenExpires)
    ensures AuthMiddleware(cfg, reader, Some("Bearer " + GenerateToken(cfg, signer, id, random).value.accessToken)) == Next(id)
  {
    var access := GenerateToken(cfg, signer, id, random).value.accessToken;
    assert reader.verify(access, Secret(cfg)) == Some(Claims(id, random));
    SchemeNotChecked(["Bearer", access]);
    assert Join(["Bearer", access]) == "Bearer " + access;
  }

  /** Each request sees the token library as it is at that moment: `atLogin`
      signs the pair, `atAccess` checks the access token on the protected
      route, `atRefresh` and `atReplay` check the refresh token on the two
      refresh requests. With a configured secret, a hasher that accepts a
      password against its own hash, tokens that have not expired by the
      time they are presented, and minted refresh tokens that differ between
      nonces: the new user logs in, the access token passes the middleware
      as "Bearer <token>" with the user's id, the refresh token rotates once,
      and presenting it again fails with 400 and empties the user's list. */
  lemma SessionScenario(users: seq<User>, hasher: Hasher, nextId: UserId, email: string, password: string, saltSeed: nat,
                        cfg: Config, atLogin: Codec, atAccess: Codec, atRefresh: Codec, atReplay: Codec,
                        n1: string, n2: string, n3: string)
    requires AcceptsHashed(hasher)
    requires UniqueIds(users) && forall k :: 0 <= k < |users| ==> users[k].id < nextId
    requires FindByEmail(users, email).None?
    requires SecretSet(cfg)
    requires ReadsBack(atLogin, atAccess, Secret(cfg), cfg.tokenExpires)
    requires ReadsBack(atLogin, atRefresh, Secret(cfg), cfg.refreshTokenExpires)
    requires ReadsBack(atLogin, atReplay, Secret(cfg), cfg.refreshTokenExpires)
    requires Compact(atLogin, Secret(cfg), cfg.tokenExpires) && Compact(atLogin, Secret(cfg), cfg.refreshTokenExpires)
    requires MintedRefreshToken(cfg, atRefresh, nextId, n2) != MintedRefreshToken(cfg, atLogin, nextId, n1)
    ensures var r := Register(users, hasher, nextId, email, password, saltSeed);
            var login := Login(r.users, cfg, atLogin, hasher, email, password, n1);
            login.out.Issued? && login.out.id == nextId &&
            AuthMiddleware(cfg, atAccess, Some("Bearer " + login.out.accessToken)) == Next(nextId) &&
            var first := Refresh(login.users, cfg, atRefresh, Some(login.out.refreshToken), n2);
            first.out.Issued? && first.out.id == nextId && first.out.refreshToken != login.out.refreshToken &&
            var replay := Refresh(first.users, cfg, atReplay, Some(login.out.refreshToken), n3);
            replay.out == BadRequest(Fail) && Held(replay.users[|users|]) == []
  {
    var r := Register(users, hasher, nextId, email, password, saltSeed);
    RegisterThenLogin(users, hasher, nextId, email, password, saltSeed, cfg, atLogin, n1);
    var login := Login(r.users, cfg, atLogin, hasher, email, password, n1);
    var n := |users|;
    var tokens := GenerateToken(cfg, atLogin, nextId, n1).value;
    var c := Claims(nextId, n1);
    assert atRefresh.verify(tokens.refreshToken, Secret(cfg)) == Some(c);
    assert atReplay.verify(tokens.refreshToken, Secret(cfg)) == Some(c);

    BearerAccessPasses(cfg, atLogin, atAccess, nextId, n1);

    // the refresh token names the new record, which holds it
    assert UniqueIds(r.users);
    FindByIdOfRecord(r.users, n);
    assert OnlyListChanged(r.users, login.users, n, [tokens.refreshToken]) by {
      LoginAppendsOneToken(r.users, cfg, atLogin, hasher, email, password, n1);
    }
    LookupIgnoresLists(r.users, login.users, n, [tokens.refreshToken], nextId);
    RefreshRotates(login.users, cfg, atRefresh, tokens.refreshToken, n2, c, n);
    RefreshReplayFails(login.users, cfg, atRefresh, atReplay, tokens.refreshToken, n2, n3, c, n);
    var first := Refresh(login.users, cfg, atRefresh, Some(tokens.refreshToken), n2);
    var replay := Refresh(first.users, cfg, atReplay, Some(tokens.refreshToken), n3);
    assert first.out.Issued? && first.out.id == nextId;
    assert replay.out == BadRequest(Fail) && Held(replay.users[n]) == [];
  }
}
