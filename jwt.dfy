/** The token codec (jsonwebtoken) and the process configuration it is keyed by.
    Signing and verification are foreign code: the model takes them as two
    functions, fixed for the duration of one request (verification depends on
    the clock, which is folded into `verify`); a lemma about several requests
    takes one codec per request. Nothing is assumed about them except where a
    lemma says so in its hypotheses. */
module Jwt {

  import opened Wrappers

  /** Identifier of a user record (`_id`). */
  type UserId = nat

  /** The payload both tokens carry: `{ _id, random }`. */
  datatype Claims = Claims(id: UserId, random: string)

  /** jwt.sign(payload, secret, { expiresIn }) and jwt.verify(token, secret);
      `verify` answers None for every verification error (bad signature,
      malformed, expired). */
  datatype Codec = Codec(
    sign: (Claims, string, Option<string>) -> string,
    verify: (string, string) -> Option<Claims>)

  /** process.env.TOKEN_SECRET, TOKEN_EXPIRES and REFRESH_TOKEN_EXPIRES. */
  datatype Config = Config(
    tokenSecret: Option<string>,
    tokenExpires: Option<string>,
    refreshTokenExpires: Option<string>)

  /** `!process.env.TOKEN_SECRET` is false: the secret is defined and not the
      empty string. */
  predicate SecretSet(cfg: Config)
  {
    cfg.tokenSecret.Some? && cfg.tokenSecret.value != ""
  }

  function Secret(cfg: Config): (s: string)
    requires SecretSet(cfg)
    ensures s != ""
  {
    cfg.tokenSecret.value
  }

  /** Hypothesis used by lemmas: a token that `signer` signed under `secret`
      with lifetime `expiresIn` still verifies when `reader` (the library as it
      is at a later request) checks it under `secret`, and yields the signed
      claims: it has not expired by then. */
  ghost predicate ReadsBack(signer: Codec, reader: Codec, secret: string, expiresIn: Option<string>)
  {
    forall c: Claims :: reader.verify(signer.sign(c, secret, expiresIn), secret) == Some(c)
  }
}
