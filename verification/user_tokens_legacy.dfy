/** The older token code of models/users/user_tokens.go: signing with a given
    expiry, filling a `UserInfo` in place from claims, reading a request, and
    the refresh-record upsert with a single expiry. */
module UserTokensLegacy {
  import opened Wrappers
  import opened Clock
  import opened Claims
  import opened Users
  import opened ObjectIds
  import UserTokens

  /** `SetToken(userInfo, expirationTime)`: the same claims and record update as
      the newer `SetAuthenticationToken`. */
  function SetToken(rec: UserTokens.UserToken, u: UserInfo, expiry: int, codec: Codec, created: int, updated: int): (r: (UserTokens.UserToken, Option<string>))
    ensures r.0.expirationDate == Millis(expiry)
    ensures r.1.None? ==> codec.sign(UserTokens.ClaimsOf(u, expiry)) == Ok(r.0.token)
  {
    UserTokens.SetAuthenticationToken(rec, u, expiry, codec, created, updated)
  }

  /** A method that fills its receiver and returns an error, or panics. */
  datatype Effect = Effect(info: UserInfo, error: Option<string>) | Panic

  /** `SetUserInfo` on receiver `u`: the names and email are written before the
      id is checked, so a bad id leaves them written and the id and links as
      they were. */
  function SetUserInfo(u: UserInfo, claims: ClaimSet): (r: Effect)
    ensures r.Effect? && r.error.Some? ==> r.error == Some(UserTokens.InvalidObjectId)
                                           && r.info.id == u.id && r.info.links == u.links
  {
    var first := Str(claims, "first_name");
    var last := Str(claims, "last_name");
    var email := Str(claims, "email");
    var userName := Str(claims, "user_name");
    if first.None? || last.None? || email.None? || userName.None? then Panic
    else
      var named := u.(firstName := first.value, lastName := last.value, email := email.value, userName := userName.value);
      var idText := Str(claims, "id");
      if idText.None? then Effect(named, Some(UserTokens.InvalidObjectId))
      else
        match FromHex(idText.value)
        case None => Effect(named, Some(UserTokens.InvalidObjectId))
        case Some(id) =>
          match DecodeLinks(claims)
          case None => Panic
          case Some(links) => Effect(named.(id := id, links := Some(links)), None)
  }

  /** The in-place decoder and the newer returning one agree: they panic, fail
      and succeed on the same claims, and on success the receiver ends up with
      the decoded identity over its own non-claim fields. */
  lemma SetUserInfoAgrees(u: UserInfo, claims: ClaimSet)
    ensures var g := UserTokens.GetUserInfo(claims);
            var r := SetUserInfo(u, claims);
            && (r.Panic? <==> g.Panicked?)
            && (r.Effect? && r.error.Some? <==> g.Failed?)
            && (g.Returned? ==> r == Effect(g.value.(profileImageUrl := u.profileImageUrl, provider := u.provider,
                                                         city := u.city, state := u.state), None))
  {
  }

  /** A bad id after good names is a partial update. */
  lemma InvalidIdIsPartialUpdate(u: UserInfo, claims: ClaimSet)
    requires Str(claims, "first_name").Some? && Str(claims, "last_name").Some?
    requires Str(claims, "email").Some? && Str(claims, "user_name").Some?
    requires Str(claims, "id").None? || !IsHex(Str(claims, "id").value)
    ensures var r := SetUserInfo(u, claims);
            && r.Effect? && r.error == Some(UserTokens.InvalidObjectId)
            && r.info.firstName == Str(claims, "first_name").value
            && r.info.email == Str(claims, "email").value
            && r.info.id == u.id
  {
  }

  /** `SetUserInfoFromTokenString`: the receiver is filled before the expiry is
      checked, and the error of `SetUserInfo` is dropped. */
  function SetUserInfoFromTokenString(u: UserInfo, token: string, codec: Codec, now: int): (r: Effect)
    ensures !codec.parse(token, now).Verified? ==> r.Effect? && r.info == u && r.error.Some?
  {
    match codec.parse(token, now)
    case Unreadable(reason) => Effect(u, Some(UserTokens.ParseError(reason)))
    case Rejected(reason, _) => Effect(u, Some(UserTokens.ParseError(reason)))
    case Verified(claims) =>
      match SetUserInfo(u, claims)
      case Panic => Panic
      case Effect(filled, _) =>
        match Num(claims, "exp")
        case None => Panic
        case Some(exp) =>
          if Unix(now) > exp then Effect(filled, Some(UserTokens.TokenExpired)) else Effect(filled, None)
  }

  /** An expired token reports "Token expired" with the identity already
      written into the receiver. */
  lemma ExpiredTokenStillFills(u: UserInfo, token: string, codec: Codec, now: int, v: UserInfo, expiry: int)
    requires codec.parse(token, now) == Verified(UserTokens.ClaimsOf(v, expiry))
    requires Unix(now) > Unix(expiry)
    ensures SetUserInfoFromTokenString(u, token, codec, now)
            == Effect(UserTokens.ClaimView(v).(profileImageUrl := u.profileImageUrl, provider := u.provider,
                                                city := u.city, state := u.state), Some(UserTokens.TokenExpired))
  {
    UserTokens.GetUserInfoOfClaims(v, expiry);
    SetUserInfoAgrees(u, UserTokens.ClaimsOf(v, expiry));
  }

  /** `GetUserInfoFromContext`: the `token` cookie, else the header with seven
      characters dropped — which panics on a shorter header, an absent one
      included. */
  function GetUserInfoFromContext(u: UserInfo, cookie: string, header: string, codec: Codec, now: int): (r: Effect)
    ensures cookie == "" && |header| < 7 ==> r.Panic?
    ensures cookie == "" && |header| == 7 ==> r == Effect(u, Some(UserTokens.TokenNotFound))
    ensures cookie != "" ==> r == SetUserInfoFromTokenString(u, cookie, codec, now)
  {
    if cookie != "" then SetUserInfoFromTokenString(u, cookie, codec, now)
    else
      match UserTokens.AfterPrefix(header)
      case None => Panic
      case Some(token) =>
        if token == "" then Effect(u, Some(UserTokens.TokenNotFound))
        else SetUserInfoFromTokenString(u, token, codec, now)
  }

  /** `SaveRefreshToken`: `now` gives the one expiry (24 hours on) used both
      for the token's claim and for the record, and `current` the stamps. A
      signing error is returned before the store is touched. */
  function SaveRefreshToken(u: UserInfo, store: UserTokens.TokenStore, codec: Codec, now: int, current: int, newId: ObjectId, faults: UserTokens.Faults): (r: (UserTokens.TokenStore, Option<string>))
    ensures r.1.Some? ==> r.0 == store
  {
    var expiry := now + 24 * Hour;
    var (signed, err) := SetToken(UserTokens.NoToken.(userId := u.id, expirationDate := Millis(expiry)), u, expiry, codec, current, current);
    if err.Some? then (store, err)
    else if faults.lookup.Some? then (store, faults.lookup)
    else if faults.write.Some? then (store, faults.write)
    else
      match UserTokens.FindByUser(store, u.id)
      case None =>
        (store + [UserTokens.UserToken(newId, u.id, signed.token, signed.expirationDate, Millis(current), Millis(current))], None)
      case Some(i) =>
        (store[i := store[i].(token := signed.token, expirationDate := signed.expirationDate, updatedAt := Millis(current))], None)
  }

  /** After a successful save the user has exactly one record; it holds a token
      signed over the user's claims whose `exp` is the record's expiration date
      to the second; a new record's two stamps are equal. */
  lemma SaveRefreshTokenOneExpiry(u: UserInfo, store: UserTokens.TokenStore, codec: Codec, now: int, current: int, newId: ObjectId, faults: UserTokens.Faults)
    requires UserTokens.UniqueUsers(store)
    requires SaveRefreshToken(u, store, codec, now, current, newId, faults).1.None?
    ensures var s := SaveRefreshToken(u, store, codec, now, current, newId, faults).0;
            && UserTokens.UniqueUsers(s)
            && UserTokens.FindByUser(s, u.id).Some?
            && var rec := s[UserTokens.FindByUser(s, u.id).value];
               && codec.sign(UserTokens.ClaimsOf(u, now + 24 * Hour)) == Ok(rec.token)
               && rec.expirationDate == Millis(now + 24 * Hour)
               && Unix(now + 24 * Hour) == rec.expirationDate / 1000
               && (UserTokens.FindByUser(store, u.id).None? ==> rec.createdAt == rec.updatedAt)
  {
    var s := SaveRefreshToken(u, store, codec, now, current, newId, faults).0;
    UnixOfMillis(now + 24 * Hour);
    match UserTokens.FindByUser(store, u.id)
    case None =>
      assert s[|store|].userId == u.id;
    case Some(i) =>
      assert s[i].userId == u.id;
  }
}
