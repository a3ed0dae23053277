/** The authentication middleware of middlewares/authentication/middleware.go:
    where the token comes from (the cookie, or the header with its first seven
    characters dropped unchecked, where section 2.1 of RFC 6750 expects the
    `Bearer ` scheme), the
    three-segment shape of a JWS compact serialisation (section 7.1 of
    RFC 7515), the claim decoding, and the `exp` comparison (section 4.1.4 of
    RFC 7519). */
module AuthMiddleware {
  import opened Wrappers
  import opened Clock
  import opened Claims
  import opened Users
  import Strings
  import UserTokens

  /** The request as the middleware reads it: the `vagasprajr_token` cookie
      (empty when absent; an absent and an empty cookie behave alike) and the
      `Authorization` header (empty when absent). */
  datatype Request = Request(cookie: string, authorization: string)

  /** What the middleware does: abort with a status and message, store the
      identity under `userTokenInfo` and call the next handler, or panic (which
      gin's recovery turns into a 500). */
  datatype Response = Abort(status: int, message: string) | Next(identity: UserInfo) | Panic

  const NotFound: string := "Token not found"
  const Malformed: string := "Malformed token"
  const Expired: string := "Token expired"

  function ParseFailure(reason: string, token: string): string {
    "Error parsing the token. " + reason + " Token:" + token
  }

  /** The bearer token the middleware goes on with, or the "Token not found"
      abort. The first seven header characters are dropped unchecked. */
  function Bearer(req: Request): (r: Option<string>)
    ensures r.Some? ==> r.value != ""
    ensures req.cookie != "" ==> r == Some(req.cookie)
    ensures req.cookie == "" ==> (r.Some? <==> |req.authorization| > 7)
    ensures req.cookie == "" && r.Some? ==> req.authorization == req.authorization[..7] + r.value
  {
    if req.cookie != "" then Some(req.cookie)
    else if |req.authorization| < 7 then None
    else
      var token := req.authorization[7..];
      if token == "" then None else Some(token)
  }

  /** `AuthMiddleware` at instant `now`. */
  function Handle(req: Request, codec: Codec, now: int): (r: Response)
    ensures r.Abort? ==> r.status == 401
  {
    match Bearer(req)
    case None => Abort(401, NotFound)
    case Some(token) =>
      if |Strings.Split(token, '.')| != 3 then Abort(401, Malformed)
      else
        match codec.parse(token, now)
        case Unreadable(reason) => Abort(401, ParseFailure(reason, token))
        case Rejected(reason, _) => Abort(401, ParseFailure(reason, token))
        case Verified(claims) =>
          match UserTokens.GetUserInfo(claims)
          case Panicked => Panic
          case Failed(e) => Abort(401, e)
          case Returned(u) =>
            match Num(claims, "exp")
            case None => Panic
            case Some(exp) => if Unix(now) > exp then Abort(401, Expired) else Next(u)
  }

  /** A non-empty cookie wins: the header is then never looked at. */
  lemma CookieTakesPrecedence(req: Request, header: string, codec: Codec, now: int)
    requires req.cookie != ""
    ensures Handle(req, codec, now) == Handle(req.(authorization := header), codec, now)
  {
  }

  /** Without a cookie, a header of at most seven characters is "Token not
      found", whatever the token library would say. */
  lemma ShortHeaderNotFound(req: Request, codec: Codec, now: int)
    requires req.cookie == "" && |req.authorization| <= 7
    ensures Handle(req, codec, now) == Abort(401, NotFound)
  {
  }

  /** The scheme is never checked: two headers that agree after their seventh
      character are treated alike, `Bearer ` or not. */
  lemma SchemeNotChecked(req: Request, other: string, codec: Codec, now: int)
    requires req.cookie == "" && |req.authorization| >= 7 && |other| >= 7
    requires req.authorization[7..] == other[7..]
    ensures Handle(req, codec, now) == Handle(req.(authorization := other), codec, now)
  {
  }

  /** A token without exactly two dots is refused as malformed before the token
      library sees it. */
  lemma MalformedBeforeParsing(req: Request, codec: Codec, other: Codec, now: int)
    requires Bearer(req).Some? && Strings.Count(Bearer(req).value, '.') != 2
    ensures Handle(req, codec, now) == Abort(401, Malformed) == Handle(req, other, now)
  {
    Strings.SplitShape(Bearer(req).value, '.');
  }

  /** The identity is decoded before the expiry is looked at: a token with a bad
      id is refused for its id even once expired. */
  lemma DecodeErrorBeforeExpiry(req: Request, codec: Codec, now: int, claims: ClaimSet, e: string)
    requires Bearer(req).Some? && Strings.Count(Bearer(req).value, '.') == 2
    requires codec.parse(Bearer(req).value, now) == Verified(claims)
    requires UserTokens.GetUserInfo(claims) == Failed(e)
    ensures Handle(req, codec, now) == Abort(401, UserTokens.InvalidObjectId)
  {
    Strings.SplitShape(Bearer(req).value, '.');
  }

  /** Only full success continues: the token came from the cookie or the
      header, has three segments, verified, decoded to the identity passed on,
      and has an `exp` no earlier than the current second. */
  lemma NextIff(req: Request, codec: Codec, now: int, u: UserInfo)
    ensures Handle(req, codec, now) == Next(u) <==>
            (&& Bearer(req).Some?
             && Strings.Count(Bearer(req).value, '.') == 2
             && codec.parse(Bearer(req).value, now).Verified?
             && UserTokens.GetUserInfo(codec.parse(Bearer(req).value, now).claims) == Returned(u)
             && Num(codec.parse(Bearer(req).value, now).claims, "exp").Some?
             && Unix(now) <= Num(codec.parse(Bearer(req).value, now).claims, "exp").value)
  {
    if Bearer(req).Some? {
      Strings.SplitShape(Bearer(req).value, '.');
    }
  }

  /** The middleware's own comparison: in the second of `exp` itself the token
      still passes; from the next second on it is "Token expired". */
  lemma ExpiryBoundary(req: Request, codec: Codec, now: int, claims: ClaimSet, u: UserInfo)
    requires Bearer(req).Some? && Strings.Count(Bearer(req).value, '.') == 2
    requires codec.parse(Bearer(req).value, now) == Verified(claims)
    requires UserTokens.GetUserInfo(claims) == Returned(u) && Num(claims, "exp").Some?
    ensures Unix(now) == Num(claims, "exp").value ==> Handle(req, codec, now) == Next(u)
    ensures Unix(now) > Num(claims, "exp").value ==> Handle(req, codec, now) == Abort(401, Expired)
  {
    Strings.SplitShape(Bearer(req).value, '.');
  }

  /** A token signed by `SetAuthenticationToken` and sent as the cookie lets
      the request through while the library accepts it, and is refused after. */
  lemma IssuedTokenPasses(rec: UserTokens.UserToken, u: UserInfo, expiry: int, codec: Codec, created: int, updated: int, now: int, header: string)
    requires Sound(codec)
    requires UserTokens.SetAuthenticationToken(rec, u, expiry, codec, created, updated).1.None?
    ensures var t := UserTokens.SetAuthenticationToken(rec, u, expiry, codec, created, updated).0.token;
            var r := Handle(Request(t, header), codec, now);
            (now < Unix(expiry) * Second ==> r == Next(UserTokens.ClaimView(u)))
            && (now >= Unix(expiry) * Second ==> r.Abort?)
  {
    var t := UserTokens.SetAuthenticationToken(rec, u, expiry, codec, created, updated).0.token;
    UserTokens.IssuedTokenReadsBack(rec, u, expiry, codec, created, updated, now);
    Strings.SplitShape(t, '.');
    var c := UserTokens.ClaimsOf(u, expiry);
    assert Num(c, "exp") == Some(Unix(expiry));
    if now < Unix(expiry) * Second {
      assert Unix(now) < Unix(expiry);
    }
  }
}
