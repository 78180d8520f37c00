/** The lifecycle invariant of refresh tokens: a token is on at most one
    user's list, and at most once there. The controller does not check it;
    it holds because every token it appends is newly minted. Given that
    freshness, every operation of the protocol preserves it. */
module TokenUniqueness {

  import opened Wrappers
  import opened Jwt
  import opened Bcrypt
  import opened Users
  import opened TokenList
  import opened Protocol
  import opened ProtocolProperties

  /** Every refresh token held by any user, with multiplicity. */
  function AllTokens(users: seq<User>): multiset<string>
  {
    if users == [] then multiset{} else multiset(Held(users[0])) + AllTokens(users[1..])
  }

  /** No refresh token is held twice, by one user or by two. */
  ghost predicate TokensUnique(users: seq<User>)
  {
    forall t :: AllTokens(users)[t] <= 1
  }

  /** Replacing one record trades its tokens for the new record's. */
  lemma {:induction false} AllTokensUpdate(users: seq<User>, i: nat, u: User)
    requires i < |users|
    ensures AllTokens(users[i := u]) + multiset(Held(users[i])) == AllTokens(users) + multiset(Held(u))
  {
    if i > 0 {
      AllTokensUpdate(users[1..], i - 1, u);
      assert users[i := u][1..] == users[1..][i - 1 := u];
      assert users[i := u][0] == users[0] && users[1..][i - 1] == users[i];
      assert AllTokens(users[i := u]) == multiset(Held(users[0])) + AllTokens(users[1..][i - 1 := u]);
      assert AllTokens(users) == multiset(Held(users[0])) + AllTokens(users[1..]);
      var h0, m, m' := multiset(Held(users[0])), multiset(Held(users[i])), multiset(Held(u));
      var r, r' := AllTokens(users[1..]), AllTokens(users[1..][i - 1 := u]);
      calc {
        AllTokens(users[i := u]) + m;
        (h0 + r') + m;
        h0 + (r' + m);
        h0 + (r + m');
        (h0 + r) + m';
      }
    } else {
      assert users[i := u][1..] == users[1..];
    }
  }

  /** Appending a record adds its tokens to the whole. */
  lemma {:induction false} AllTokensAppend(users: seq<User>, u: User)
    ensures AllTokens(users + [u]) == AllTokens(users) + multiset(Held(u))
  {
    if users == [] {
      assert [u][1..] == [];
    } else {
      AllTokensAppend(users[1..], u);
      assert (users + [u])[1..] == users[1..] + [u];
    }
  }

  /** Two different records' lists are both counted in the whole. */
  lemma {:induction false} TwoListsWithinAll(users: seq<User>, i: nat, j: nat)
    requires i < j < |users|
    ensures multiset(Held(users[i])) + multiset(Held(users[j])) <= AllTokens(users)
  {
    if i > 0 {
      TwoListsWithinAll(users[1..], i - 1, j - 1);
    } else {
      OneListWithinAll(users[1..], j - 1);
    }
  }

  /** One record's list is counted in the whole. */
  lemma {:induction false} OneListWithinAll(users: seq<User>, i: nat)
    requires i < |users|
    ensures multiset(Held(users[i])) <= AllTokens(users)
  {
    if i > 0 {
      OneListWithinAll(users[1..], i - 1);
    }
  }

  /** Under the invariant a token has a single holder and occurs once there. */
  lemma SingleHolder(users: seq<User>, t: string, i: nat, j: nat)
    requires TokensUnique(users)
    requires i < |users| && j < |users|
    requires t in Held(users[i]) && t in Held(users[j])
    ensures i == j
    ensures multiset(Held(users[i]))[t] == 1
  {
    OneListWithinAll(users, i);
    assert AllTokens(users)[t] <= 1;
    if i < j {
      TwoListsWithinAll(users, i, j);
      assert false;
    } else if j < i {
      TwoListsWithinAll(users, j, i);
      assert false;
    }
  }

  /** Shrinking one record's list shrinks the whole. */
  lemma ShrinkOne(users: seq<User>, i: nat, u: User)
    requires i < |users|
    requires multiset(Held(u)) <= multiset(Held(users[i]))
    ensures AllTokens(users[i := u]) <= AllTokens(users)
  {
    AllTokensUpdate(users, i, u);
    var before, after := AllTokens(users), AllTokens(users[i := u]);
    forall x ensures after[x] <= before[x] {
      assert (after + multiset(Held(users[i])))[x] == (before + multiset(Held(u)))[x];
    }
  }

  /** verifyRefreshToken only removes tokens, so it keeps the invariant. */
  lemma VerifyKeepsUnique(users: seq<User>, cfg: Config, codec: Codec, token: Option<string>)
    requires TokensUnique(users)
    ensures AllTokens(VerifyRefreshToken(users, cfg, codec, token).users) <= AllTokens(users)
    ensures TokensUnique(VerifyRefreshToken(users, cfg, codec, token).users)
  {
    if !Absent(token) && SecretSet(cfg) && codec.verify(token.value, Secret(cfg)).Some? {
      var c := codec.verify(token.value, Secret(cfg)).value;
      var found := FindById(users, c.id);
      if found.Some? {
        var i := found.value;
        var t := token.value;
        if t in Held(users[i]) {
          VerifyRedeems(users, cfg, codec, t, c, i);
        } else {
          VerifyPurgesOnReplay(users, cfg, codec, t, c, i);
        }
        var after := VerifyRefreshToken(users, cfg, codec, token).users;
        assert after == users[i := after[i]];
        ShrinkOne(users, i, after[i]);
      }
    }
  }

  /** register adds a record holding no token, so the tokens held, and the
      invariant, are as they were. */
  lemma RegisterKeepsUnique(users: seq<User>, hasher: Hasher, nextId: UserId, email: string, password: string, saltSeed: nat)
    requires TokensUnique(users)
    ensures AllTokens(Register(users, hasher, nextId, email, password, saltSeed).users) == AllTokens(users)
    ensures TokensUnique(Register(users, hasher, nextId, email, password, saltSeed).users)
  {
    var r := Register(users, hasher, nextId, email, password, saltSeed);
    AllTokensAppend(users, r.out);
  }

  /** logout leaves the state verifyRefreshToken leaves, so it only removes
      tokens and keeps the invariant. */
  lemma LogoutKeepsUnique(users: seq<User>, cfg: Config, codec: Codec, token: Option<string>)
    requires TokensUnique(users)
    ensures AllTokens(Logout(users, cfg, codec, token).users) <= AllTokens(users)
    ensures TokensUnique(Logout(users, cfg, codec, token).users)
  {
    VerifyKeepsUnique(users, cfg, codec, token);
  }

  /** A refused refresh leaves the state verifyRefreshToken leaves (a purge
      at most), so it only removes tokens and keeps the invariant. */
  lemma RefusedRefreshKeepsUnique(users: seq<User>, cfg: Config, codec: Codec, token: Option<string>, random: string)
    requires TokensUnique(users)
    requires !Redeemable(users, cfg, codec, token)
    ensures AllTokens(Refresh(users, cfg, codec, token, random).users) <= AllTokens(users)
    ensures TokensUnique(Refresh(users, cfg, codec, token, random).users)
  {
    RefreshRejects(users, cfg, codec, token, random);
    VerifyKeepsUnique(users, cfg, codec, token);
  }

  /** Appending a token nobody holds keeps the invariant. */
  lemma AppendFreshKeepsUnique(users: seq<User>, i: nat, n: string)
    requires TokensUnique(users)
    requires i < |users| && n !in AllTokens(users)
    ensures AllTokens(users[i := AppendRefreshToken(users[i], n)]) == AllTokens(users) + multiset{n}
    ensures TokensUnique(users[i := AppendRefreshToken(users[i], n)])
  {
    var u := AppendRefreshToken(users[i], n);
    AllTokensUpdate(users, i, u);
    assert Held(u) == Held(users[i]) + [n];
    assert multiset(Held(u)) == multiset(Held(users[i])) + multiset{n};
    var before, after := AllTokens(users), AllTokens(users[i := u]);
    forall x ensures after[x] == (before + multiset{n})[x] {
      assert (after + multiset(Held(users[i])))[x] == (before + multiset(Held(u)))[x];
    }
  }

  /** A login that mints a token nobody holds keeps the invariant. */
  lemma LoginKeepsUnique(users: seq<User>, cfg: Config, codec: Codec, hasher: Hasher, email: string, password: string, random: string)
    requires TokensUnique(users) && UniqueIds(users)
    requires CredentialsValid(users, hasher, email, password) && SecretSet(cfg) ==>
      MintedRefreshToken(cfg, codec, users[FindByEmail(users, email).value].id, random) !in AllTokens(users)
    ensures TokensUnique(Login(users, cfg, codec, hasher, email, password, random).users)
  {
    if CredentialsValid(users, hasher, email, password) && SecretSet(cfg) {
      var i := FindByEmail(users, email).value;
      LoginAppendsOneToken(users, cfg, codec, hasher, email, password, random);
      var after := Login(users, cfg, codec, hasher, email, password, random).users;
      assert after == users[i := AppendRefreshToken(users[i], MintedRefreshToken(cfg, codec, users[i].id, random))];
      AppendFreshKeepsUnique(users, i, MintedRefreshToken(cfg, codec, users[i].id, random));
    }
  }

  /** A refresh that mints a token nobody holds keeps the invariant; under it
      rotation leaves the subject's list exactly as long as it was. */
  lemma RefreshKeepsUnique(users: seq<User>, cfg: Config, codec: Codec, t: string, random: string, c: Claims, i: nat)
    requires TokensUnique(users)
    requires t != "" && SecretSet(cfg) && codec.verify(t, Secret(cfg)) == Some(c)
    requires FindById(users, c.id) == Some(i)
    requires t in Held(users[i])
    requires MintedRefreshToken(cfg, codec, c.id, random) !in AllTokens(users)
    ensures var s := Refresh(users, cfg, codec, Some(t), random);
            TokensUnique(s.users) && |Held(s.users[i])| == |Held(users[i])|
  {
    var n := MintedRefreshToken(cfg, codec, c.id, random);
    SingleHolder(users, t, i, i);
    RefreshRotates(users, cfg, codec, t, random, c, i);
    VerifyRedeems(users, cfg, codec, t, c, i);
    VerifyKeepsUnique(users, cfg, codec, Some(t));
    var v := VerifyRefreshToken(users, cfg, codec, Some(t)).users;
    var s := Refresh(users, cfg, codec, Some(t), random);
    assert s.users == v[i := AppendRefreshToken(v[i], n)];
    AppendFreshKeepsUnique(v, i, n);
  }
}
