/** Session tokens as models/users/tokens/user_tokens.go issues and reads
    them: expiry times, the claim set a token carries and its decoding, token
    extraction from a request, and the one refresh record kept per user. */
module UserTokens {
  import opened Wrappers
  import opened Clock
  import opened Claims
  import opened Users
  import opened ObjectIds
  import Strings
  import Store

  const InvalidObjectId: string := "{\"error\": \"Invalid ObjectID\"}"
  const TokenNotFound: string := "{\"error\": \"Token not found\"}"
  const TokenExpired: string := "{\"error\": \"Token expired\"}"

  function ParseError(reason: string): string {
    "{\"error\": \"Error parsing the token - " + reason + "\"}"
  }

  function SignError(reason: string): string {
    "{\"error\": \"Error getting the token - " + reason + "\"}"
  }

  /** A `users_tokens` record; dates are `primitive.DateTime` milliseconds. */
  datatype UserToken = UserToken(
    id: ObjectId,
    userId: ObjectId,
    token: string,
    expirationDate: int,
    createdAt: int,
    updatedAt: int)

  /** Go's zero `UserToken{}`. */
  const NoToken: UserToken := UserToken(Zero, Zero, "", 0, 0, 0)

  /** `getExpirationToken` and `getExpirationRefreshToken`, given the clock. */
  function AccessExpiry(now: int): int { now + Hour }
  function RefreshExpiry(now: int): int { now + 24 * Hour }

  // ---- claims ------------------------------------------------------------------

  /** The claim map `SetAuthenticationToken` signs for `u` expiring at `expiry`. */
  function ClaimsOf(u: UserInfo, expiry: int): ClaimSet {
    map["id" := CStr(u.id), "first_name" := CStr(u.firstName), "last_name" := CStr(u.lastName),
        "user_name" := CStr(u.userName), "email" := CStr(u.email), "links" := EncodeLinks(u.links),
        "exp" := CNum(Unix(expiry))]
  }

  /** The part of `u` a token carries: a nil link list reads back as an empty one
      and the fields outside the claims read back empty. */
  function ClaimView(u: UserInfo): UserInfo {
    u.(links := Some(u.links.GetOr([])), profileImageUrl := "", provider := "", city := "", state := "")
  }

  /** `GetUserInfo`: the four name assertions panic when a claim is missing or
      not a string; an id claim that is not a string or not hex is an error;
      a malformed link panics. */
  function GetUserInfo(claims: ClaimSet): (r: Outcome<UserInfo>)
    ensures r.Failed? ==> r.error == InvalidObjectId
    ensures r.Returned? ==> ClaimView(r.value) == r.value && Str(claims, "id").Some?
                            && FromHex(Str(claims, "id").value) == Some(r.value.id)
    ensures (Str(claims, "first_name").Some? && Str(claims, "last_name").Some?
             && Str(claims, "email").Some? && Str(claims, "user_name").Some?
             && (Str(claims, "id").None? || !IsHex(Str(claims, "id").value)))
            ==> r == Failed(InvalidObjectId)
  {
    var first := Str(claims, "first_name");
    var last := Str(claims, "last_name");
    var email := Str(claims, "email");
    var userName := Str(claims, "user_name");
    if first.None? || last.None? || email.None? || userName.None? then Panicked
    else
      var idText := Str(claims, "id");
      if idText.None? then Failed(InvalidObjectId)
      else
        match FromHex(idText.value)
        case None => Failed(InvalidObjectId)
        case Some(id) =>
          match DecodeLinks(claims)
          case None => Panicked
          case Some(links) =>
            Returned(UserInfo(id, first.value, last.value, email.value, Some(links), userName.value, "", "", "", ""))
  }

  /** Decoding the claims of a token issued for `u` gives back the part of `u`
      the token carries. */
  lemma GetUserInfoOfClaims(u: UserInfo, expiry: int)
    ensures GetUserInfo(ClaimsOf(u, expiry)) == Returned(ClaimView(u))
  {
    var c := ClaimsOf(u, expiry);
    FromHexOfHex(u.id);
    DecodeEncodeLinks(c, u.links);
  }

  // ---- issuing -------------------------------------------------------------------

  /** `SetAuthenticationToken` on record `rec`; `created` and `updated` are the
      clock readings taken after signing. The expiration date is written before
      signing, so it changes even when signing fails. */
  function SetAuthenticationToken(rec: UserToken, u: UserInfo, expiry: int, codec: Codec, created: int, updated: int): (r: (UserToken, Option<string>))
    ensures r.0.expirationDate == Millis(expiry) && r.0.id == rec.id && r.0.userId == rec.userId
    ensures r.1.None? <==> codec.sign(ClaimsOf(u, expiry)).Ok?
    ensures r.1.Some? ==> r.0.token == rec.token
  {
    var rec' := rec.(expirationDate := Millis(expiry));
    match codec.sign(ClaimsOf(u, expiry))
    case Err(e) => (rec', Some(SignError(e)))
    case Ok(t) => (rec'.(token := t, createdAt := Millis(created), updatedAt := Millis(updated)), None)
  }

  /** `SetToken`: an access token that expires an hour after `now`. */
  function SetToken(rec: UserToken, u: UserInfo, now: int, codec: Codec, created: int, updated: int): (r: (UserToken, Option<string>))
    ensures r.0.expirationDate == Millis(now) + 3_600_000
  {
    assert Millis(now + Hour) == Millis(now) + 3_600_000 by {
      assert Millis(now) * Millisecond + Hour == (Millis(now) + 3_600_000) * Millisecond;
    }
    SetAuthenticationToken(rec, u, AccessExpiry(now), codec, created, updated)
  }

  /** A token issued by `SetAuthenticationToken` carries `u`, and its `exp`
      claim is the record's expiration date to the second. Until that instant
      the library verifies it; from then on it rejects it. */
  lemma IssuedTokenReadsBack(rec: UserToken, u: UserInfo, expiry: int, codec: Codec, created: int, updated: int, now: int)
    requires Sound(codec)
    requires SetAuthenticationToken(rec, u, expiry, codec, created, updated).1.None?
    ensures var issued := SetAuthenticationToken(rec, u, expiry, codec, created, updated).0;
            var v := codec.parse(issued.token, now);
            && Strings.Count(issued.token, '.') == 2
            && (v.Verified? <==> now < Unix(expiry) * Second)
            && (v.Verified? || v.Rejected?)
            && GetUserInfo(v.claims) == Returned(ClaimView(u))
            && Num(v.claims, "exp") == Some(issued.expirationDate / 1000)
  {
    var c := ClaimsOf(u, expiry);
    assert codec.sign(c).Ok?;
    assert ReadsBack(codec.parse(codec.sign(c).value, now), c, now);
    GetUserInfoOfClaims(u, expiry);
    UnixOfMillis(expiry);
  }

  // ---- reading a request -------------------------------------------------------------

  /** `ExtractUserInfoFromTokenString`: the verdict of verification is dropped,
      only an unreadable token (a nil `*jwt.Token`) stops it, by panicking. */
  function ExtractUserInfoFromTokenString(token: string, codec: Codec, now: int): (r: Outcome<UserInfo>)
    ensures codec.parse(token, now).Unreadable? ==> r.Panicked?
    ensures !codec.parse(token, now).Unreadable? ==> r == GetUserInfo(codec.parse(token, now).claims)
  {
    match codec.parse(token, now)
    case Unreadable(_) => Panicked
    case Rejected(_, claims) => GetUserInfo(claims)
    case Verified(claims) => GetUserInfo(claims)
  }

  /** A token that fails verification — a forged signature or a past expiry —
      still yields the identity written in it. */
  lemma RejectedTokenStillDecoded(token: string, codec: Codec, now: int, reason: string, u: UserInfo, expiry: int)
    requires codec.parse(token, now) == Rejected(reason, ClaimsOf(u, expiry))
    ensures ExtractUserInfoFromTokenString(token, codec, now) == Returned(ClaimView(u))
  {
    GetUserInfoOfClaims(u, expiry);
  }

  /** `GetUserInfoFromTokenString`: a parse error is an error; the expiry is
      checked before the claims are decoded, and a missing `exp` panics. */
  function GetUserInfoFromTokenString(token: string, codec: Codec, now: int): (r: Outcome<UserInfo>)
    ensures r.Returned? ==> codec.parse(token, now).Verified?
    ensures codec.parse(token, now).Verified? && Num(codec.parse(token, now).claims, "exp").Some?
            && Unix(now) > Num(codec.parse(token, now).claims, "exp").value
            ==> r == Failed(TokenExpired)
  {
    match codec.parse(token, now)
    case Unreadable(reason) => Failed(ParseError(reason))
    case Rejected(reason, _) => Failed(ParseError(reason))
    case Verified(claims) =>
      match Num(claims, "exp")
      case None => Panicked
      case Some(exp) =>
        if Unix(now) > exp then Failed(TokenExpired) else GetUserInfo(claims)
  }

  /** A token issued by `SetAuthenticationToken` gives back its identity right
      up to the second before its expiry, and "Token expired" or a parse error
      after it. */
  lemma IssuedTokenAccepted(rec: UserToken, u: UserInfo, expiry: int, codec: Codec, created: int, updated: int, now: int)
    requires Sound(codec)
    requires SetAuthenticationToken(rec, u, expiry, codec, created, updated).1.None?
    ensures var r := GetUserInfoFromTokenString(SetAuthenticationToken(rec, u, expiry, codec, created, updated).0.token, codec, now);
            (now < Unix(expiry) * Second ==> r == Returned(ClaimView(u)))
            && (now >= Unix(expiry) * Second ==> r.Failed?)
  {
    IssuedTokenReadsBack(rec, u, expiry, codec, created, updated, now);
    var c := ClaimsOf(u, expiry);
    assert Num(c, "exp") == Some(Unix(expiry));
    if now < Unix(expiry) * Second {
      assert Unix(now) < Unix(expiry);
    }
  }

  /** The bearer token after the first seven header characters; `None` is the
      panic of `token[7:]` on a shorter header. */
  function AfterPrefix(header: string): (r: Option<string>)
    ensures r.Some? <==> |header| >= 7
    ensures r.Some? ==> header == header[..7] + r.value
  {
    Strings.DropPrefix(header, 7)
  }

  /** `ExtractUserInfoForTokenRefresh`: the `vagasprajr_token` cookie (empty when
      absent), else the `Authorization` header. No credential at all gives the
      zero identity and no error. */
  function ExtractUserInfoForTokenRefresh(cookie: string, header: string, codec: Codec, now: int): (r: Outcome<UserInfo>)
    ensures cookie == "" && header == "" ==> r == Returned(NoUserInfo)
    ensures cookie == "" && 0 < |header| < 7 ==> r.Panicked?
    ensures cookie == "" && |header| == 7 ==> r == Failed(TokenNotFound)
  {
    if cookie != "" then ExtractUserInfoFromTokenString(cookie, codec, now)
    else if header == "" then Returned(NoUserInfo)
    else
      match AfterPrefix(header)
      case None => Panicked
      case Some(token) =>
        if token == "" then Failed(TokenNotFound) else ExtractUserInfoFromTokenString(token, codec, now)
  }

  /** `GetUserInfoFromContext`: `cookie == None` is the lookup error of an
      absent cookie, so the header is read only when the cookie is present and
      empty. */
  function GetUserInfoFromContext(cookie: Option<string>, header: string, codec: Codec, now: int): (r: Outcome<UserInfo>)
    ensures cookie.None? ==> r == Failed(TokenNotFound)
    ensures cookie == Some("") && header == "" ==> r == Returned(NoUserInfo)
  {
    match cookie
    case None => Failed(TokenNotFound)
    case Some(c) =>
      if c != "" then GetUserInfoFromTokenString(c, codec, now)
      else if header == "" then Returned(NoUserInfo)
      else
        match AfterPrefix(header)
        case None => Panicked
        case Some(token) =>
          if token == "" then Failed(TokenNotFound) else GetUserInfoFromTokenString(token, codec, now)
  }

  // ---- the refresh records ----------------------------------------------------------

  /** The `users_tokens` collection in natural order. */
  type TokenStore = seq<UserToken>

  /** At most one record per user. */
  predicate UniqueUsers(store: TokenStore) {
    forall i, j :: 0 <= i < j < |store| ==> store[i].userId != store[j].userId
  }

  /** What `FindOne({user_id: userId})` decodes: the first record of that user. */
  function FindByUser(store: TokenStore, userId: ObjectId): (r: Option<nat>)
    ensures r.Some? ==> r.value < |store| && store[r.value].userId == userId
                        && forall j :: 0 <= j < r.value ==> store[j].userId != userId
    ensures r.None? <==> forall j :: 0 <= j < |store| ==> store[j].userId != userId
  {
    Store.FirstMatch(store, (t: UserToken) => t.userId == userId)
  }

  /** The store's answers during one call: `lookup` is an error of connecting
      or of `FindOne` other than "no documents"; `write` an error of the insert
      or the update. */
  datatype Faults = Faults(lookup: Option<string>, write: Option<string>)

  /** The clock readings of one `SaveRefreshToken`, in nanoseconds: `issue` is
      the expiry base of the signed token (the earlier reading the record starts
      with is overwritten by it during signing); the `insert…` readings stamp
      and expire a new record; `update` stamps an updated one. */
  datatype Readings = Readings(issue: int, insertCreated: int, insertUpdated: int, insertExpiry: int, update: int)

  /** The refresh token `SaveRefreshToken` signs: its signing error is ignored,
      which leaves the token empty. */
  function RefreshToken(u: UserInfo, codec: Codec, at: Readings): UserToken {
    SetAuthenticationToken(NoToken.(userId := u.id), u, RefreshExpiry(at.issue), codec, at.issue, at.issue).0
  }

  /** `SaveRefreshToken`: insert a record for a user that has none, otherwise
      overwrite the token, expiration date and update stamp of the user's record. */
  function SaveRefreshToken(u: UserInfo, store: TokenStore, codec: Codec, at: Readings, newId: ObjectId, faults: Faults): (r: (TokenStore, Option<string>))
    ensures r.1.Some? ==> r.0 == store
    ensures r.1.None? ==> faults.lookup.None? && faults.write.None?
  {
    var issued := RefreshToken(u, codec, at);
    if faults.lookup.Some? then (store, faults.lookup)
    else if faults.write.Some? then (store, faults.write)
    else
      match FindByUser(store, u.id)
      case None =>
        (store + [UserToken(newId, u.id, issued.token, Millis(RefreshExpiry(at.insertExpiry)), Millis(at.insertCreated), Millis(at.insertUpdated))], None)
      case Some(i) =>
        (store[i := store[i].(token := issued.token, expirationDate := issued.expirationDate, updatedAt := Millis(at.update))], None)
  }

  /** Saving keeps at most one record per user, and afterwards the user's
      record holds the token just signed. */
  lemma SaveRefreshTokenKeepsOnePerUser(u: UserInfo, store: TokenStore, codec: Codec, at: Readings, newId: ObjectId, faults: Faults)
    requires UniqueUsers(store)
    ensures var r := SaveRefreshToken(u, store, codec, at, newId, faults);
            && UniqueUsers(r.0)
            && (r.1.None? ==> FindByUser(r.0, u.id).Some?
                              && r.0[FindByUser(r.0, u.id).value].token == RefreshToken(u, codec, at).token)
  {
    var r := SaveRefreshToken(u, store, codec, at, newId, faults);
    if r.1.None? {
      match FindByUser(store, u.id)
      case None =>
        assert r.0[|store|].userId == u.id;
      case Some(i) =>
        assert r.0[i].userId == u.id;
    }
  }

  /** Updating an existing record changes only its token, expiration date and
      update stamp; every other record and field stays as it was. */
  lemma SaveRefreshTokenUpdatesInPlace(u: UserInfo, store: TokenStore, codec: Codec, at: Readings, newId: ObjectId, faults: Faults, i: nat)
    requires FindByUser(store, u.id) == Some(i)
    ensures var r := SaveRefreshToken(u, store, codec, at, newId, faults);
            && |r.0| == |store|
            && (forall j :: 0 <= j < |store| && j != i ==> r.0[j] == store[j])
            && r.0[i].id == store[i].id && r.0[i].userId == store[i].userId
            && r.0[i].createdAt == store[i].createdAt
  {
  }

  /** When signing fails, a successful save stores an empty token. */
  lemma SignFailureStoresEmptyToken(u: UserInfo, store: TokenStore, codec: Codec, at: Readings, newId: ObjectId, faults: Faults)
    requires codec.sign(ClaimsOf(u, RefreshExpiry(at.issue))).Err?
    requires SaveRefreshToken(u, store, codec, at, newId, faults).1.None?
    ensures var s := SaveRefreshToken(u, store, codec, at, newId, faults).0;
            FindByUser(s, u.id).Some? && s[FindByUser(s, u.id).value].token == ""
  {
    SaveRefreshTokenKeepsOnePerUserAny(u, store, codec, at, newId, faults);
  }

  /** The record-holds-the-token half of `SaveRefreshTokenKeepsOnePerUser`,
      which needs no uniqueness. */
  lemma SaveRefreshTokenKeepsOnePerUserAny(u: UserInfo, store: TokenStore, codec: Codec, at: Readings, newId: ObjectId, faults: Faults)
    ensures var r := SaveRefreshToken(u, store, codec, at, newId, faults);
            r.1.None? ==> FindByUser(r.0, u.id).Some?
                          && r.0[FindByUser(r.0, u.id).value].token == RefreshToken(u, codec, at).token
  {
    var r := SaveRefreshToken(u, store, codec, at, newId, faults);
    if r.1.None? {
      match FindByUser(store, u.id)
      case None =>
        assert r.0[|store|].userId == u.id;
      case Some(i) =>
        assert r.0[i].userId == u.id;
    }
  }

  /** `SetRefreshToken` on `rec`: the user's stored record replaces it; with no
      record only the token is cleared, and no error is reported. */
  function SetRefreshToken(rec: UserToken, store: TokenStore, lookup: Option<string>): (r: (UserToken, Option<string>))
    ensures r.1.Some? <==> lookup.Some?
    ensures lookup.None? && FindByUser(store, rec.userId).None? ==> r.0 == rec.(token := "")
    ensures lookup.None? && FindByUser(store, rec.userId).Some? ==> r.0 in store && r.0.userId == rec.userId
  {
    if lookup.Some? then (rec, lookup)
    else
      match FindByUser(store, rec.userId)
      case None => (rec.(token := ""), None)
      case Some(i) => (store[i], None)
  }

  /** After a successful save, looking the user's record up gives back the
      token just signed. */
  lemma SaveThenSetRefreshToken(u: UserInfo, store: TokenStore, codec: Codec, at: Readings, newId: ObjectId, faults: Faults, rec: UserToken)
    requires rec.userId == u.id
    requires SaveRefreshToken(u, store, codec, at, newId, faults).1.None?
    ensures SetRefreshToken(rec, SaveRefreshToken(u, store, codec, at, newId, faults).0, None).0.token
            == RefreshToken(u, codec, at).token
  {
    SaveRefreshTokenKeepsOnePerUserAny(u, store, codec, at, newId, faults);
  }
}
