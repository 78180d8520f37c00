/** What the session protocol promises, proved about the functions of
    Protocol: token issuance, the indistinguishable login failures, single-use
    redemption with the purge on replay, rotation, logout, and the
    register-then-login round trip. */
module ProtocolProperties {

  import opened Wrappers
  import opened Jwt
  import opened Bcrypt
  import opened Users
  import opened TokenList
  import opened Protocol

  /** `after` differs from `users` only in the refresh-token list of record
      `i`, which is now `tokens`: no other record and no other field changed. */
  ghost predicate OnlyListChanged(users: seq<User>, after: seq<User>, i: nat, tokens: seq<string>)
  {
    |after| == |users| && i < |users| &&
    after[i] == users[i].(refreshToken := Some(tokens)) &&
    forall k :: 0 <= k < |users| && k != i ==> after[k] == users[k]
  }

  /** The first record with this email exists and the password matches it. */
  predicate CredentialsValid(users: seq<User>, hasher: Hasher, email: string, password: string)
  {
    var found := FindByEmail(users, email);
    found.Some? && hasher.compare(password, users[found.value].password)
  }

  /** The presented token is redeemable: present, a secret is configured, it
      verifies, its subject exists and the subject's list holds it. */
  predicate Redeemable(users: seq<User>, cfg: Config, codec: Codec, token: Option<string>)
  {
    !Absent(token) && SecretSet(cfg) &&
    var payload := codec.verify(token.value, Secret(cfg));
    payload.Some? &&
    var found := FindById(users, payload.value.id);
    found.Some? && token.value in Held(users[found.value])
  }

  /** Changing refresh-token lists leaves every findById answer as it was. */
  lemma LookupIgnoresLists(users: seq<User>, after: seq<User>, i: nat, tokens: seq<string>, id: UserId)
    requires OnlyListChanged(users, after, i, tokens)
    ensures FindById(after, id) == FindById(users, id)
  {
  }

  // ---------------------------------------------------------------- tokens

  /** When the codec reads back what it signs, both tokens of a pair carry the
      same payload: the user's `_id` and the same `random` nonce. */
  lemma GeneratedPairSharesPayload(cfg: Config, codec: Codec, reader: Codec, id: UserId, random: string)
    requires SecretSet(cfg)
    requires ReadsBack(codec, reader, Secret(cfg), cfg.tokenExpires)
    requires ReadsBack(codec, reader, Secret(cfg), cfg.refreshTokenExpires)
    ensures GenerateToken(cfg, codec, id, random).Some?
    ensures reader.verify(GenerateToken(cfg, codec, id, random).value.accessToken, Secret(cfg)) == Some(Claims(id, random))
    ensures reader.verify(GenerateToken(cfg, codec, id, random).value.refreshToken, Secret(cfg)) == Some(Claims(id, random))
  {
  }

  // ----------------------------------------------------------------- login

  /** Unknown email and wrong password give the same reply, 400 'Wrong
      username or password', and change nothing; no other login fails with 400. */
  lemma LoginRejectsIndistinguishably(users: seq<User>, cfg: Config, codec: Codec, hasher: Hasher, email: string, password: string, random: string)
    ensures Login(users, cfg, codec, hasher, email, password, random).out.Status() == 400 <==> !CredentialsValid(users, hasher, email, password)
    ensures !CredentialsValid(users, hasher, email, password) ==>
      Login(users, cfg, codec, hasher, email, password, random) == Step(users, BadRequest(WrongCredentials))
  {
  }

  /** Login answers 500 exactly when the credentials are right and no secret
      is configured, and then changes nothing. */
  lemma LoginServerError(users: seq<User>, cfg: Config, codec: Codec, hasher: Hasher, email: string, password: string, random: string)
    ensures Login(users, cfg, codec, hasher, email, password, random).out.Status() == 500 <==>
      CredentialsValid(users, hasher, email, password) && !SecretSet(cfg)
    ensures Login(users, cfg, codec, hasher, email, password, random).out == ServerError ==>
      Login(users, cfg, codec, hasher, email, password, random).users == users
  {
  }

  /** A successful login appends the new refresh token to the end of the
      user's list (an absent list counts as empty), changes nothing else, and
      answers with the pair and the user's id. */
  lemma LoginAppendsOneToken(users: seq<User>, cfg: Config, codec: Codec, hasher: Hasher, email: string, password: string, random: string)
    requires UniqueIds(users)
    requires CredentialsValid(users, hasher, email, password) && SecretSet(cfg)
    ensures var i := FindByEmail(users, email).value;
            var tokens := GenerateToken(cfg, codec, users[i].id, random).value;
            var s := Login(users, cfg, codec, hasher, email, password, random);
            s.out == Issued(tokens.accessToken, tokens.refreshToken, users[i].id) &&
            OnlyListChanged(users, s.users, i, Held(users[i]) + [tokens.refreshToken])
  {
  }

  // ------------------------------------------------------ verifyRefreshToken

  /** An absent or empty token, a missing secret or a token that does not
      verify is rejected and nothing changes. */
  lemma VerifyRejectsUntouched(users: seq<User>, cfg: Config, codec: Codec, token: Option<string>)
    requires Absent(token) || !SecretSet(cfg) || codec.verify(token.value, Secret(cfg)).None?
    ensures VerifyRefreshToken(users, cfg, codec, token) == Step(users, None)
  {
  }

  /** A verified token whose subject does not exist is rejected and nothing
      changes. */
  lemma VerifyUnknownSubject(users: seq<User>, cfg: Config, codec: Codec, t: string, c: Claims)
    requires t != "" && SecretSet(cfg) && codec.verify(t, Secret(cfg)) == Some(c)
    requires FindById(users, c.id).None?
    ensures VerifyRefreshToken(users, cfg, codec, Some(t)) == Step(users, None)
  {
  }

  /** Replay: a verified token that its existing subject does not hold is
      rejected, and the subject's whole list is emptied; nothing else changes. */
  lemma VerifyPurgesOnReplay(users: seq<User>, cfg: Config, codec: Codec, t: string, c: Claims, i: nat)
    requires t != "" && SecretSet(cfg) && codec.verify(t, Secret(cfg)) == Some(c)
    requires FindById(users, c.id) == Some(i)
    requires t !in Held(users[i])
    ensures VerifyRefreshToken(users, cfg, codec, Some(t)).out.None?
    ensures OnlyListChanged(users, VerifyRefreshToken(users, cfg, codec, Some(t)).users, i, [])
  {
  }

  /** Redemption: a token its subject holds is accepted, every occurrence of
      it leaves the list, every other token stays in its order and with its
      multiplicity, and no other record changes. */
  lemma VerifyRedeems(users: seq<User>, cfg: Config, codec: Codec, t: string, c: Claims, i: nat)
    requires t != "" && SecretSet(cfg) && codec.verify(t, Secret(cfg)) == Some(c)
    requires FindById(users, c.id) == Some(i)
    requires t in Held(users[i])
    ensures var s := VerifyRefreshToken(users, cfg, codec, Some(t));
            s.out == Some(s.users[i]) &&
            OnlyListChanged(users, s.users, i, Without(Held(users[i]), t)) &&
            t !in Held(s.users[i]) &&
            multiset(Held(s.users[i])) == multiset(Held(users[i]))[t := 0]
  {
    var list := Held(users[i]);
    assert users[i].refreshToken == Some(list);
    var redeemed := users[i].(refreshToken := Some(Without(list, t)));
    assert VerifyRefreshToken(users, cfg, codec, Some(t)) == Step(SaveUser(users, redeemed), Some(redeemed));
    SaveReplacesOne(users, i, redeemed);
    WithoutLength(list, t);
    WithoutCounts(list, t);
  }

  /** verifyRefreshToken resolves exactly for a redeemable token. */
  lemma VerifySucceedsIffRedeemable(users: seq<User>, cfg: Config, codec: Codec, token: Option<string>)
    ensures VerifyRefreshToken(users, cfg, codec, token).out.Some? <==> Redeemable(users, cfg, codec, token)
  {
  }

  /** A resolved user is the stored record of the token's subject, as saved. */
  lemma VerifiedUserIsStored(users: seq<User>, cfg: Config, codec: Codec, token: Option<string>)
    requires VerifyRefreshToken(users, cfg, codec, token).out.Some?
    ensures var s := VerifyRefreshToken(users, cfg, codec, token);
            var u := s.out.value;
            u.id == codec.verify(token.value, Secret(cfg)).value.id &&
            FindById(s.users, u.id).Some? && s.users[FindById(s.users, u.id).value] == u
  {
    var c := codec.verify(token.value, Secret(cfg)).value;
    var i := FindById(users, c.id).value;
    var redeemed := users[i].(refreshToken := Some(Without(Held(users[i]), token.value)));
    SaveReplacesOne(users, i, redeemed);
  }

  // ---------------------------------------------------------------- logout

  /** On every input, logout answers 200 'success' exactly for a redeemable
      token and 400 'fail' otherwise, and leaves the state verifyRefreshToken
      leaves. */
  lemma LogoutSucceedsIffRedeemable(users: seq<User>, cfg: Config, codec: Codec, token: Option<string>)
    ensures Logout(users, cfg, codec, token).out == Success <==> Redeemable(users, cfg, codec, token)
    ensures !Redeemable(users, cfg, codec, token) ==> Logout(users, cfg, codec, token).out == BadRequest(Fail)
    ensures Logout(users, cfg, codec, token).users == VerifyRefreshToken(users, cfg, codec, token).users
  {
    VerifySucceedsIffRedeemable(users, cfg, codec, token);
  }

  /** Logout answers 200 'success' exactly for a redeemable token, and then
      only removes it: nothing is added to the list. Otherwise it answers
      400 'fail' with the state verifyRefreshToken left (a purge persists). */
  lemma LogoutConsumes(users: seq<User>, cfg: Config, codec: Codec, t: string, c: Claims, i: nat)
    requires t != "" && SecretSet(cfg) && codec.verify(t, Secret(cfg)) == Some(c)
    requires FindById(users, c.id) == Some(i)
    ensures var s := Logout(users, cfg, codec, Some(t));
            (s.out == Success <==> t in Held(users[i])) &&
            (s.out != Success ==> s.out == BadRequest(Fail) && OnlyListChanged(users, s.users, i, [])) &&
            (s.out == Success ==>
               OnlyListChanged(users, s.users, i, Without(Held(users[i]), t)) &&
               |Held(s.users[i])| < |Held(users[i])| &&
               forall x :: x in Held(s.users[i]) ==> x in Held(users[i]))
  {
    if t in Held(users[i]) {
      VerifyRedeems(users, cfg, codec, t, c, i);
      WithoutLength(Held(users[i]), t);
      WithoutCounts(Held(users[i]), t);
      assert multiset(Held(users[i]))[t] > 0;
      forall x | x in Held(Logout(users, cfg, codec, Some(t)).users[i])
        ensures x in Held(users[i])
      {
        assert x in multiset(Without(Held(users[i]), t));
      }
    } else {
      VerifyPurgesOnReplay(users, cfg, codec, t, c, i);
    }
  }

  // --------------------------------------------------------------- refresh

  /** The refresh token generateToken would mint for `id` with nonce `random`. */
  function MintedRefreshToken(cfg: Config, codec: Codec, id: UserId, random: string): string
    requires SecretSet(cfg)
  {
    GenerateToken(cfg, codec, id, random).value.refreshToken
  }

  /** Rotation: a redeemable token is replaced by a newly minted one at the end
      of the list; the old token is gone (when the new one differs from it),
      the new one is present, and the list keeps its length when the old token
      occurred once. */
  lemma RefreshRotates(users: seq<User>, cfg: Config, codec: Codec, t: string, random: string, c: Claims, i: nat)
    requires t != "" && SecretSet(cfg) && codec.verify(t, Secret(cfg)) == Some(c)
    requires FindById(users, c.id) == Some(i)
    requires t in Held(users[i])
    ensures var tokens := GenerateToken(cfg, codec, c.id, random).value;
            var s := Refresh(users, cfg, codec, Some(t), random);
            s.out == Issued(tokens.accessToken, tokens.refreshToken, c.id) &&
            OnlyListChanged(users, s.users, i, Without(Held(users[i]), t) + [tokens.refreshToken]) &&
            tokens.refreshToken in Held(s.users[i]) &&
            (tokens.refreshToken != t ==> t !in Held(s.users[i])) &&
            |Held(s.users[i])| == |Held(users[i])| - multiset(Held(users[i]))[t] + 1
  {
    VerifyRedeems(users, cfg, codec, t, c, i);
    var v := VerifyRefreshToken(users, cfg, codec, Some(t));
    var tokens := GenerateToken(cfg, codec, c.id, random).value;
    var rotated := AppendRefreshToken(v.users[i], tokens.refreshToken);
    SaveReplacesOne(v.users, i, rotated);
    WithoutLength(Held(users[i]), t);
  }

  /** refresh fails with 400 'fail' exactly when the token is not redeemable,
      leaving the state verifyRefreshToken left. */
  lemma RefreshRejects(users: seq<User>, cfg: Config, codec: Codec, token: Option<string>, random: string)
    ensures Refresh(users, cfg, codec, token, random).out.Status() == 400 <==> !Redeemable(users, cfg, codec, token)
    ensures !Redeemable(users, cfg, codec, token) ==>
      Refresh(users, cfg, codec, token, random) == Step(VerifyRefreshToken(users, cfg, codec, token).users, BadRequest(Fail))
  {
  }

  // ---------------------------------------------------------------- replay

  /** Redeeming the same token twice. The second logout is a later request,
      verified by the library as it is then (`later`), which either still
      reads the same claims or rejects the token (it has expired). Either way
      the second logout fails; in the first case the purge empties the
      subject's list, in the second nothing changes. */
  lemma LogoutTwiceFails(users: seq<User>, cfg: Config, codec: Codec, later: Codec, t: string, c: Claims, i: nat)
    requires t != "" && SecretSet(cfg) && codec.verify(t, Secret(cfg)) == Some(c)
    requires later.verify(t, Secret(cfg)).Some? ==> later.verify(t, Secret(cfg)) == Some(c)
    requires FindById(users, c.id) == Some(i)
    requires t in Held(users[i])
    ensures var s1 := Logout(users, cfg, codec, Some(t));
            var s2 := Logout(s1.users, cfg, later, Some(t));
            s1.out == Success && s2.out == BadRequest(Fail) &&
            (later.verify(t, Secret(cfg)).Some? ==> OnlyListChanged(s1.users, s2.users, i, [])) &&
            (later.verify(t, Secret(cfg)).None? ==> s2.users == s1.users)
  {
    VerifyRedeems(users, cfg, codec, t, c, i);
    var s1 := Logout(users, cfg, codec, Some(t));
    SaveReplacesOne(users, i, s1.users[i]);
    if later.verify(t, Secret(cfg)).Some? {
      VerifyPurgesOnReplay(s1.users, cfg, later, t, c, i);
    } else {
      VerifyRejectsUntouched(s1.users, cfg, later, Some(t));
    }
  }

  /** Presenting a rotated-out token again in a later request, verified by
      the library as it is then (`later`), which either still reads the same
      claims or rejects the token as expired. Either way the second refresh
      fails; in the first case the purge empties the subject's list,
      including the token the first refresh minted, in the second nothing
      changes. */
  lemma RefreshReplayFails(users: seq<User>, cfg: Config, codec: Codec, later: Codec, t: string, r1: string, r2: string, c: Claims, i: nat)
    requires t != "" && SecretSet(cfg) && codec.verify(t, Secret(cfg)) == Some(c)
    requires later.verify(t, Secret(cfg)).Some? ==> later.verify(t, Secret(cfg)) == Some(c)
    requires FindById(users, c.id) == Some(i)
    requires t in Held(users[i])
    requires MintedRefreshToken(cfg, codec, c.id, r1) != t
    ensures var s1 := Refresh(users, cfg, codec, Some(t), r1);
            var s2 := Refresh(s1.users, cfg, later, Some(t), r2);
            s1.out.Issued? && s2.out == BadRequest(Fail) &&
            (later.verify(t, Secret(cfg)).Some? ==> OnlyListChanged(s1.users, s2.users, i, [])) &&
            (later.verify(t, Secret(cfg)).None? ==> s2.users == s1.users)
  {
    RefreshRotates(users, cfg, codec, t, r1, c, i);
    var s1 := Refresh(users, cfg, codec, Some(t), r1);
    SaveReplacesOne(users, i, s1.users[i]);
    if later.verify(t, Secret(cfg)).Some? {
      VerifyPurgesOnReplay(s1.users, cfg, later, t, c, i);
    } else {
      VerifyRejectsUntouched(s1.users, cfg, later, Some(t));
    }
  }

  // ---------------------------------------------------- register and login

  /** Registering and then logging in with the same credentials succeeds (when
      a secret is configured, no earlier record has that email and the hasher
      accepts a password against its own hash): the reply
      carries the new user's id and the new record holds exactly the issued
      refresh token. */
  lemma RegisterThenLogin(users: seq<User>, hasher: Hasher, nextId: UserId, email: string, password: string, saltSeed: nat,
                          cfg: Config, codec: Codec, random: string)
    requires AcceptsHashed(hasher)
    requires UniqueIds(users) && forall k :: 0 <= k < |users| ==> users[k].id < nextId
    requires FindByEmail(users, email).None?
    requires SecretSet(cfg)
    ensures var r := Register(users, hasher, nextId, email, password, saltSeed);
            var s := Login(r.users, cfg, codec, hasher, email, password, random);
            var tokens := GenerateToken(cfg, codec, nextId, random).value;
            s.out == Issued(tokens.accessToken, tokens.refreshToken, nextId) && r.out.id == nextId &&
            |s.users| == |users| + 1 && s.users[|users|].email == email &&
            Held(s.users[|users|]) == [s.out.refreshToken] &&
            s.users[..|users|] == users
  {
  }
}
