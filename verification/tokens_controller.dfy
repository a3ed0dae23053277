/** `GetRefreshToken` of controllers/tokens/tokens_controller.go: re-issuing a
    session from the stored refresh token of the user a valid access token
    names, with the session cookie of services/authentication/token.go. */
module TokensController {
  import opened Wrappers
  import opened ObjectIds
  import opened Clock
  import opened Claims
  import opened Http
  import TokenService

  /** The JSON bodies the handler writes; `Auth` is `users.AuthResponse`. */
  datatype Body =
    | Error(message: string)
    | Auth(accessToken: string, success: bool, userInfo: TokenService.Info, expirationDate: int)

  /** One reply, or the 500 of gin's recovery after a panic. */
  datatype Reply = Reply(status: int, body: Body, cookie: Cookie) | Recovered

  const Expired: string := "Token expirado"
  const Invalid: string := "Token inválido"

  /** The user's stored refresh record as `users.UserToken.SetRefreshToken`
      loads it: its token and its expiration date in milliseconds. */
  datatype Stored = Stored(token: string, expirationDate: int)

  // ---- the session cookie --------------------------------------------------------

  /** `Token.SetTokenCookie` as written: a max-age of `60*24*30` seconds,
      which the comment beside it calls thirty days. */
  function SessionCookieAsWritten(value: string): (c: Cookie)
    ensures c.SetCookie? && c.value == value
  {
    SetCookie(value, 60 * 24 * 30)
  }

  /** The count is the number of minutes in thirty days, so the cookie lives
      twelve hours. */
  lemma CookieLivesTwelveHours(value: string)
    ensures SessionCookieAsWritten(value).maxAge * Second == 12 * Hour
    ensures SessionCookieAsWritten(value).maxAge * Second != 30 * Day
  {
  }

  /** `Token.SetTokenCookie` with the thirty days it states, in seconds. */
  function SessionCookie(value: string): (c: Cookie)
    ensures c.SetCookie? && c.value == value && c.maxAge * Second == 30 * Day
  {
    SetCookie(value, 30 * 24 * 60 * 60)
  }

  // ---- GetRefreshToken -----------------------------------------------------------

  /** The clock readings: the access token's validation and the expiry check. */
  datatype Readings = Readings(validate: int, check: int)

  /** `GetRefreshToken`: `load` is `users.UserToken.SetRefreshToken` for a user
      id and `validate` is `authentication.ValidateStringToken`. The cookie is
      written from an empty `Token{}`, so its value is empty, and with the
      twelve-hour max-age of `SetTokenCookie` as written. */
  function GetRefreshToken(cookie: Option<string>, header: string, codec: Codec, at: Readings,
                           load: ObjectId -> Result<Stored, string>,
                           validate: string -> Result<TokenService.Info, string>): (r: Reply)
    ensures r.Reply? && r.status == OK ==>
              && TokenService.ValidateToken(cookie, header, codec, at.validate).Returned?
              && r.body.Auth?
              && r.body.userInfo == TokenService.ValidateToken(cookie, header, codec, at.validate).value
              && FromHex(r.body.userInfo.id).Some?
              && load(FromHex(r.body.userInfo.id).value).Ok?
              && r.body == Auth(load(FromHex(r.body.userInfo.id).value).value.token, true, r.body.userInfo,
                                load(FromHex(r.body.userInfo.id).value).value.expirationDate)
              && r.cookie == SessionCookieAsWritten("")
    ensures r.Reply? && r.status != OK ==> r.cookie == Untouched
  {
    match TokenService.ValidateToken(cookie, header, codec, at.validate)
    case Panicked => Recovered
    case Failed(e) => Reply(InternalServerError, Error(e), Untouched)
    case Returned(info) =>
      match FromHex(info.id)
      case None => Reply(InternalServerError, Error(ObjectIds.ObjectIdFromHex(info.id).error), Untouched)
      case Some(userId) =>
        match load(userId)
        case Err(e) => Reply(InternalServerError, Error(e), Untouched)
        case Ok(stored) =>
          match validate(stored.token)
          case Err(e) => Reply(InternalServerError, Error(e), Untouched)
          case Ok(fromRefresh) =>
            if FromMillis(stored.expirationDate) < at.check then Reply(Unauthorized, Error(Expired), Untouched)
            else if info.email != fromRefresh.email then Reply(Unauthorized, Error(Invalid), Untouched)
            else Reply(OK, Auth(stored.token, true, info, stored.expirationDate), SessionCookieAsWritten(""))
  }

  /** A failed validation or an id that is not hex is a 500 before the
      refresh record is looked at: the reply does not depend on `load`, and for
      a bad id it carries `ObjectIDFromHex`'s own error. */
  lemma RefusedBeforeLookup(cookie: Option<string>, header: string, codec: Codec, at: Readings,
                            load: ObjectId -> Result<Stored, string>, load': ObjectId -> Result<Stored, string>,
                            validate: string -> Result<TokenService.Info, string>)
    requires var v := TokenService.ValidateToken(cookie, header, codec, at.validate);
             v.Failed? || (v.Returned? && FromHex(v.value.id).None?)
    ensures GetRefreshToken(cookie, header, codec, at, load, validate) == GetRefreshToken(cookie, header, codec, at, load', validate)
    ensures GetRefreshToken(cookie, header, codec, at, load, validate).status == InternalServerError
    ensures var v := TokenService.ValidateToken(cookie, header, codec, at.validate);
            v.Returned? ==> GetRefreshToken(cookie, header, codec, at, load, validate).body
                              == Error(ObjectIdFromHex(v.value.id).error)
  {
  }

  /** The outcome once the record is loaded: a stored token that fails
      validation is a 500 even when it has expired; an expired one is
      "Token expirado"; a different address is "Token inválido"; otherwise the
      stored token is handed back as the access token with its stored expiry. */
  lemma StoredTokenDecision(cookie: Option<string>, header: string, codec: Codec, at: Readings,
                            load: ObjectId -> Result<Stored, string>,
                            validate: string -> Result<TokenService.Info, string>, info: TokenService.Info, userId: ObjectId)
    requires TokenService.ValidateToken(cookie, header, codec, at.validate) == Returned(info)
    requires FromHex(info.id) == Some(userId) && load(userId).Ok?
    ensures var stored := load(userId).value;
            var r := GetRefreshToken(cookie, header, codec, at, load, validate);
            && (validate(stored.token).Err? ==> r == Reply(InternalServerError, Error(validate(stored.token).error), Untouched))
            && (validate(stored.token).Ok? && FromMillis(stored.expirationDate) < at.check ==> r == Reply(Unauthorized, Error(Expired), Untouched))
            && (validate(stored.token).Ok? && !(FromMillis(stored.expirationDate) < at.check) ==>
                  (r.status == OK <==> validate(stored.token).value.email == info.email))
            && (r.status == OK ==> r.body.accessToken == stored.token && r.body.expirationDate == stored.expirationDate
                                   && r.cookie.value == "")
  {
  }
}
