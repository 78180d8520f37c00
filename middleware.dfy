/** authMiddleware: the request gate for protected routes. It reads the token
    from the `authorization` header and never consults the user collection. */
module Middleware {

  import opened Wrappers
  import opened Jwt
  import opened Strings

  /** What the middleware does with a request. */
  datatype Outcome =
    | Denied              // 401 'Access Denied'
    | Misconfigured       // 500 'Server Error'
    | Next(userId: UserId) // req.params.userId := payload._id; next()
  {
    /** The status sent, or 0 when the request is passed on. */
    function Status(): nat
    {
      match this
      case Denied => 401
      case Misconfigured => 500
      case Next(_) => 0
    }
  }

  /** `authorization && authorization.split(' ')[1]`, with None for every
      falsy value: no header, an empty header, no second field, or an empty
      second field. A token taken is non-empty and holds no space. */
  function HeaderToken(authorization: Option<string>): (r: Option<string>)
    ensures authorization.None? ==> r.None?
    ensures r.Some? ==> r.value != "" && ' ' !in r.value
  {
    if authorization.None? || authorization.value == "" then None
    else
      var fields := Split(authorization.value);
      if |fields| < 2 || fields[1] == "" then None else Some(fields[1])
  }

  /** authMiddleware. Its four outcomes: 401 without a token (whatever the
      configuration), 500 without a secret, 401 when verification fails, and
      otherwise the request proceeds with the token's subject as userId. */
  function AuthMiddleware(cfg: Config, codec: Codec, authorization: Option<string>): (r: Outcome)
    ensures HeaderToken(authorization).None? ==> r.Status() == 401
    ensures r.Status() == 500 <==> HeaderToken(authorization).Some? && !SecretSet(cfg)
    ensures r.Next? <==>
      HeaderToken(authorization).Some? && SecretSet(cfg) &&
      codec.verify(HeaderToken(authorization).value, Secret(cfg)).Some?
    ensures r.Next? ==> r.userId == codec.verify(HeaderToken(authorization).value, Secret(cfg)).value.id
  {
    match HeaderToken(authorization)
    case None => Denied
    case Some(token) =>
      if !SecretSet(cfg) then Misconfigured
      else match codec.verify(token, Secret(cfg))
        case None => Denied
        case Some(claims) => Next(claims.id)
  }

  /** `h` is the word `w`, a space, `t`, and a remainder that is empty or
      starts at a space. */
  ghost predicate Splits(h: string, w: string, t: string, rest: string)
  {
    ' ' !in w && h == w + " " + t + rest && (rest == "" || rest[0] == ' ')
  }

  /** The token taken from a header is its second space-separated field: it
      follows the first field and one space, with the rest of the header (if
      any) starting at a space. */
  lemma {:induction false} HeaderTokenIsSecondField(h: string, t: string)
    requires HeaderToken(Some(h)) == Some(t)
    ensures exists w: string, rest: string :: Splits(h, w, t, rest)
  {
    var fields := Split(h);
    JoinSplit(h);
    var w := fields[0];
    var rest := if |fields| == 2 then "" else " " + Join(fields[2..]);
    assert Join(fields[1..]) == t + rest;
    assert Splits(h, w, t, rest);
  }

  /** Any header made of space-separated words yields its second word when
      that is not empty: "Bearer <token>" gives the token, and so does any
      other first word, since the scheme is not checked. */
  lemma SchemeNotChecked(fields: seq<string>)
    requires |fields| >= 2 && fields[1] != ""
    requires forall k :: 0 <= k < |fields| ==> ' ' !in fields[k]
    ensures HeaderToken(Some(Join(fields))) == Some(fields[1])
  {
    SplitJoin(fields);
    assert Join(fields) == fields[0] + " " + Join(fields[1..]);
    assert |Join(fields)| > 0;
  }

  /** A header without a space has no second field and is denied. */
  lemma NoSpaceDenied(cfg: Config, codec: Codec, h: string)
    requires ' ' !in h
    ensures HeaderToken(Some(h)).None?
    ensures AuthMiddleware(cfg, codec, Some(h)) == Denied
  {
    SplitJoin([h]);
  }
}
