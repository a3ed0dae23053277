/** The token service of services/authentication/token.go, a revision whose
    `UserInfo` keeps the id as a string: the expiry policy, request validation,
    re-issuing an access token, and the refresh-record upsert. */
module TokenService {
  import opened Wrappers
  import opened Clock
  import opened Claims
  import opened ObjectIds
  import Users
  import UserTokens
  import Store
  import Strings

  /** This revision's `UserInfo`. */
  datatype Info = Info(id: string, firstName: string, lastName: string, email: string,
                       links: Option<seq<Users.UserLink>>, userName: string)

  /** This revision's `Token` record; its `Id` is a uuid string. */
  datatype Token = Token(id: string, userId: ObjectId, token: string, expirationDate: int, createdAt: int, updatedAt: int)

  /** `GetToken`'s lifetime: seven days for a refresh token, sixty minutes otherwise. */
  function Ttl(isRefresh: bool): int {
    if isRefresh then 7 * Day else 60 * Minute
  }

  /** The claim map `GetToken` signs for `u` expiring at `expiry`. */
  function ClaimsOf(u: Info, expiry: int): ClaimSet {
    map["id" := CStr(u.id), "first_name" := CStr(u.firstName), "last_name" := CStr(u.lastName),
        "user_name" := CStr(u.userName), "email" := CStr(u.email), "links" := EncodeLinks(u.links),
        "exp" := CNum(Unix(expiry))]
  }

  /** `GetToken` at instant `now`. */
  function GetToken(u: Info, isRefresh: bool, now: int, codec: Codec): (r: Result<string, string>)
    ensures r.Ok? <==> codec.sign(ClaimsOf(u, now + Ttl(isRefresh))).Ok?
  {
    match codec.sign(ClaimsOf(u, now + Ttl(isRefresh)))
    case Err(e) => Err(UserTokens.SignError(e))
    case Ok(t) => Ok(t)
  }

  /** `GetUserInfoFromClaims`: every assertion, the id's included, panics when
      it fails (`None`); nil links give an empty list. */
  function GetUserInfoFromClaims(claims: ClaimSet): (r: Option<Info>)
    ensures r.Some? ==> r.value.links.Some? && Str(claims, "id") == Some(r.value.id)
  {
    var first := Str(claims, "first_name");
    var last := Str(claims, "last_name");
    var email := Str(claims, "email");
    var userName := Str(claims, "user_name");
    var id := Str(claims, "id");
    if first.None? || last.None? || email.None? || userName.None? || id.None? then None
    else
      match DecodeLinks(claims)
      case None => None
      case Some(links) => Some(Info(id.value, first.value, last.value, email.value, Some(links), userName.value))
  }

  /** The claims of a token issued for `u` decode back to `u`, nil links as empty. */
  lemma GetUserInfoFromClaimsOfClaims(u: Info, expiry: int)
    ensures GetUserInfoFromClaims(ClaimsOf(u, expiry)) == Some(u.(links := Some(u.links.GetOr([]))))
  {
    DecodeEncodeLinks(ClaimsOf(u, expiry), u.links);
  }

  /** A token from `GetToken` reads back, while valid, as `u` with an `exp`
      seven days or sixty minutes after the second it was issued in. */
  lemma GetTokenReadsBack(u: Info, isRefresh: bool, now: int, codec: Codec, later: int)
    requires Sound(codec) && GetToken(u, isRefresh, now, codec).Ok?
    requires !LibraryExpired(ClaimsOf(u, now + Ttl(isRefresh)), later)
    ensures var v := codec.parse(GetToken(u, isRefresh, now, codec).value, later);
            && v.Verified?
            && GetUserInfoFromClaims(v.claims) == Some(u.(links := Some(u.links.GetOr([]))))
            && Num(v.claims, "exp") == Some(Unix(now) + (if isRefresh then 604_800 else 3_600))
  {
    var c := ClaimsOf(u, now + Ttl(isRefresh));
    assert ReadsBack(codec.parse(codec.sign(c).value, later), c, later);
    GetUserInfoFromClaimsOfClaims(u, now + Ttl(isRefresh));
    UnixShift(now, if isRefresh then 604_800 else 3_600);
  }

  /** `ValidateToken`: `cookie == None` is an absent `token` cookie, whose
      lookup error stays set, so a token from the header alone never gets
      through; a header shorter than seven characters panics. */
  function ValidateToken(cookie: Option<string>, header: string, codec: Codec, now: int): (r: Outcome<Info>)
    ensures r.Returned? ==> cookie.Some?
  {
    var fromCookie := cookie.GetOr("");
    var token :=
      if fromCookie != "" then Some(fromCookie)
      else UserTokens.AfterPrefix(header);
    match token
    case None => Panicked
    case Some(t) =>
      if t == "" || cookie.None? then Failed(UserTokens.TokenNotFound)
      else
        match codec.parse(t, now)
        case Unreadable(reason) => Failed(UserTokens.ParseError(reason))
        case Rejected(reason, _) => Failed(UserTokens.ParseError(reason))
        case Verified(claims) =>
          match GetUserInfoFromClaims(claims)
          case None => Panicked
          case Some(info) =>
            match Num(claims, "exp")
            case None => Panicked
            case Some(exp) => if Unix(now) > exp then Failed(UserTokens.TokenExpired) else Returned(info)
  }

  /** Without a `token` cookie the request is refused as "Token not found"
      whatever its header holds, or panics on a header shorter than seven. */
  lemma HeaderAloneRefused(header: string, codec: Codec, now: int)
    ensures |header| >= 7 ==> ValidateToken(None, header, codec, now) == Failed(UserTokens.TokenNotFound)
    ensures |header| < 7 ==> ValidateToken(None, header, codec, now) == Panicked
  {
  }

  /** What a request carrying a non-empty `token` cookie gets: the header is
      never read; a token the library cannot read or rejects is a parse error;
      a verified one is refused as expired exactly when the current second is
      past its `exp`, and otherwise yields the identity it carries. */
  lemma ValidateTokenVerdicts(t: string, header: string, header': string, codec: Codec, now: int)
    requires t != ""
    ensures ValidateToken(Some(t), header, codec, now) == ValidateToken(Some(t), header', codec, now)
    ensures var v := codec.parse(t, now);
            var r := ValidateToken(Some(t), header, codec, now);
            && (v.Unreadable? || v.Rejected? ==> r == Failed(UserTokens.ParseError(v.reason)))
            && (v.Verified? && (GetUserInfoFromClaims(v.claims).None? || Num(v.claims, "exp").None?) ==> r == Panicked)
            && (v.Verified? && GetUserInfoFromClaims(v.claims).Some? && Num(v.claims, "exp").Some? ==>
                  && (r == Failed(UserTokens.TokenExpired) <==> Unix(now) > Num(v.claims, "exp").value)
                  && (Unix(now) <= Num(v.claims, "exp").value ==> r == Returned(GetUserInfoFromClaims(v.claims).value)))
  {
  }

  /** Before the library's own expiry the current second is at most `exp`,
      so the service's check never refuses what the library accepted. */
  lemma LibraryValidBeforeExp(claims: ClaimSet, now: int)
    requires Num(claims, "exp").Some? && !LibraryExpired(claims, now)
    ensures Unix(now) < Num(claims, "exp").value
  {
    var e := Num(claims, "exp").value;
    assert Unix(now) * Second <= now < e * Second;
  }

  /** A token `GetToken` issued, sent as the `token` cookie before it
      expires, is accepted as the identity it was issued for. */
  lemma IssuedTokenValidates(u: Info, isRefresh: bool, issue: int, codec: Codec, now: int, header: string)
    requires Sound(codec) && GetToken(u, isRefresh, issue, codec).Ok?
    requires !LibraryExpired(ClaimsOf(u, issue + Ttl(isRefresh)), now)
    ensures ValidateToken(Some(GetToken(u, isRefresh, issue, codec).value), header, codec, now)
              == Returned(u.(links := Some(u.links.GetOr([]))))
  {
    var c := ClaimsOf(u, issue + Ttl(isRefresh));
    var t := GetToken(u, isRefresh, issue, codec).value;
    assert Strings.Count(t, '.') == 2;
    assert t != "";
    assert codec.parse(t, now) == Verified(c);
    GetUserInfoFromClaimsOfClaims(u, issue + Ttl(isRefresh));
    LibraryValidBeforeExp(c, now);
    ValidateTokenVerdicts(t, header, header, codec, now);
  }

  /** `GetRefreshToken(token, …)`: the token is verified and its expiry checked
      at `now`; a fresh access token is then signed at `issue`. A signing
      error is wrapped twice. */
  function GetRefreshToken(token: string, codec: Codec, now: int, issue: int): (r: Outcome<string>)
    ensures r.Returned? ==> codec.parse(token, now).Verified?
  {
    match codec.parse(token, now)
    case Unreadable(reason) => Failed(UserTokens.ParseError(reason))
    case Rejected(reason, _) => Failed(UserTokens.ParseError(reason))
    case Verified(claims) =>
      match GetUserInfoFromClaims(claims)
      case None => Panicked
      case Some(info) =>
        match Num(claims, "exp")
        case None => Panicked
        case Some(exp) =>
          if Unix(now) > exp then Failed(UserTokens.TokenExpired)
          else
            match GetToken(info, false, issue, codec)
            case Err(e) => Failed(UserTokens.SignError(e))
            case Ok(t) => Returned(t)
  }

  /** The three outcomes of a refresh: a token the library cannot read or
      rejects is a parse error; a verified token past its `exp` second is
      "Token expired"; otherwise a new access token is signed for the identity
      the token carries, and a signing error is the only failure left. */
  lemma GetRefreshTokenVerdicts(token: string, codec: Codec, now: int, issue: int)
    ensures var v := codec.parse(token, now);
            var r := GetRefreshToken(token, codec, now, issue);
            && (v.Unreadable? || v.Rejected? ==> r == Failed(UserTokens.ParseError(v.reason)))
            && (v.Verified? && GetUserInfoFromClaims(v.claims).Some? && Num(v.claims, "exp").Some? ==>
                  && (Unix(now) > Num(v.claims, "exp").value ==> r == Failed(UserTokens.TokenExpired))
                  && (Unix(now) <= Num(v.claims, "exp").value ==>
                        var s := GetToken(GetUserInfoFromClaims(v.claims).value, false, issue, codec);
                        && (s.Ok? ==> r == Returned(s.value))
                        && (s.Err? ==> r == Failed(UserTokens.SignError(s.error)))))
  {
  }

  /** A valid refresh token is exchanged for a sixty-minute access token for
      the same identity. */
  lemma RefreshGivesAccessToken(u: Info, now: int, codec: Codec, check: int, issue: int, later: int)
    requires Sound(codec) && GetToken(u, true, now, codec).Ok?
    requires GetRefreshToken(GetToken(u, true, now, codec).value, codec, check, issue).Returned?
    ensures var t := GetRefreshToken(GetToken(u, true, now, codec).value, codec, check, issue).value;
            var u' := u.(links := Some(u.links.GetOr([])));
            && GetToken(u', false, issue, codec) == Ok(t)
            && (!LibraryExpired(ClaimsOf(u', issue + Ttl(false)), later) ==>
                  Num(codec.parse(t, later).claims, "exp") == Some(Unix(issue) + 3_600))
  {
    var c := ClaimsOf(u, now + Ttl(true));
    var t0 := GetToken(u, true, now, codec).value;
    assert ReadsBack(codec.parse(codec.sign(c).value, check), c, check);
    GetUserInfoFromClaimsOfClaims(u, now + Ttl(true));
    var u' := u.(links := Some(u.links.GetOr([])));
    if !LibraryExpired(ClaimsOf(u', issue + Ttl(false)), later) {
      GetTokenReadsBack(u', false, issue, codec, later);
    }
  }

  // ---- refresh records ------------------------------------------------------------

  type TokenStore = seq<Token>

  predicate UniqueUsers(store: TokenStore) {
    forall i, j :: 0 <= i < j < |store| ==> store[i].userId != store[j].userId
  }

  /** `FindOne({user_id: userId})`: the first record of that user. */
  function FindByUser(store: TokenStore, userId: ObjectId): (r: Option<nat>)
    ensures r.Some? ==> r.value < |store| && store[r.value].userId == userId
    ensures r.None? <==> forall j :: 0 <= j < |store| ==> store[j].userId != userId
  {
    Store.FirstMatch(store, (t: Token) => t.userId == userId)
  }

  /** The outcome of a save: the receiver `tk` afterwards, the collection, the error. */
  datatype Saved = Saved(tk: Token, store: TokenStore, error: Option<string>)

  /** `SaveRefreshToken` as written, on receiver `tk`: `now` is the signing
      clock, `first` and `second` the two Brasília-time readings of whichever
      branch runs. Decoding the found record into `tk` replaces the token just
      signed, so an update writes the stored token and expiry back; the
      receiver's expiry is never set from the signed token. */
  function SaveRefreshTokenAsWritten(tk: Token, u: Info, store: TokenStore, codec: Codec, now: int, first: int, second: int, newId: string, faults: UserTokens.Faults): (r: Saved)
    ensures r.error.Some? ==> r.store == store
    ensures FromHex(u.id).None? ==> r.error.Some? && r.store == store
    ensures FromHex(u.id).None? && GetToken(u, true, now, codec).Ok? ==> r.error == Some(ObjectIdFromHex(u.id).error)
  {
    match GetToken(u, true, now, codec)
    case Err(e) => Saved(tk, store, Some(e))
    case Ok(t) =>
      var tk1 := tk.(token := t);
      match FromHex(u.id)
      case None => Saved(tk1, store, Some(ObjectIdFromHex(u.id).error))
      case Some(userId) =>
        var tk2 := tk1.(userId := userId);
        if faults.lookup.Some? then Saved(tk2, store, faults.lookup)
        else
          match FindByUser(store, userId)
          case Some(i) =>
            var found := store[i];
            if faults.write.Some? then Saved(found, store, faults.write)
            else Saved(found, store[i := store[i].(token := found.token, expirationDate := found.expirationDate, updatedAt := Millis(first))], None)
          case None =>
            var created := tk2.(id := newId, createdAt := Millis(first), updatedAt := Millis(second));
            if faults.write.Some? then Saved(created, store, faults.write)
            else Saved(created, store + [created], None)
  }

  /** For a user that already has a record, saving as written never stores the
      token it signs: the record keeps its old token and expiry, whatever was
      signed, and only its update stamp moves. */
  lemma SavedRecordNeverRotates(tk: Token, u: Info, store: TokenStore, codec: Codec, now: int, first: int, second: int, newId: string, faults: UserTokens.Faults, i: nat)
    requires GetToken(u, true, now, codec).Ok? && FromHex(u.id).Some?
    requires FindByUser(store, FromHex(u.id).value) == Some(i)
    requires SaveRefreshTokenAsWritten(tk, u, store, codec, now, first, second, newId, faults).error.None?
    ensures var r := SaveRefreshTokenAsWritten(tk, u, store, codec, now, first, second, newId, faults);
            && r.store[i].token == store[i].token
            && r.store[i].expirationDate == store[i].expirationDate
            && (store[i].token != GetToken(u, true, now, codec).value ==> r.store[i].token != GetToken(u, true, now, codec).value)
  {
  }

  /** A concrete case: a user whose record holds "old" signs in again and is
      issued "new"; the record still holds "old". */
  lemma StaleRefreshTokenExample(u: Info, userId: ObjectId, codec: Codec, now: int)
    requires FromHex(u.id) == Some(userId)
    requires codec.sign(ClaimsOf(u, now + Ttl(true))) == Ok("new")
    ensures var store := [Token("r1", userId, "old", 1, 0, 0)];
            var r := SaveRefreshTokenAsWritten(Token("", Zero, "", 0, 0, 0), u, store, codec, now, 5, 5, "r2", UserTokens.Faults(None, None));
            r.error.None? && r.store[0].token == "old"
  {
  }

  /** `SaveRefreshToken` as evidently intended: the record, new or updated,
      holds the token just signed and its seven-day expiry. */
  function SaveRefreshToken(tk: Token, u: Info, store: TokenStore, codec: Codec, now: int, first: int, second: int, newId: string, faults: UserTokens.Faults): (r: Saved)
    ensures r.error.Some? ==> r.store == store
    ensures FromHex(u.id).None? ==> r.error.Some? && r.store == store
    ensures FromHex(u.id).None? && GetToken(u, true, now, codec).Ok? ==> r.error == Some(ObjectIdFromHex(u.id).error)
  {
    match GetToken(u, true, now, codec)
    case Err(e) => Saved(tk, store, Some(e))
    case Ok(t) =>
      var tk1 := tk.(token := t, expirationDate := Millis(now + Ttl(true)));
      match FromHex(u.id)
      case None => Saved(tk1, store, Some(ObjectIdFromHex(u.id).error))
      case Some(userId) =>
        var tk2 := tk1.(userId := userId);
        if faults.lookup.Some? then Saved(tk2, store, faults.lookup)
        else
          match FindByUser(store, userId)
          case Some(i) =>
            var updated := store[i].(token := t, expirationDate := tk2.expirationDate, updatedAt := Millis(first));
            if faults.write.Some? then Saved(tk2, store, faults.write)
            else Saved(updated, store[i := updated], None)
          case None =>
            var created := tk2.(id := newId, createdAt := Millis(first), updatedAt := Millis(second));
            if faults.write.Some? then Saved(created, store, faults.write)
            else Saved(created, store + [created], None)
  }

  /** After a successful save the user has one record, and it holds the token
      just signed with its seven-day expiry. */
  lemma SaveRefreshTokenRotates(tk: Token, u: Info, store: TokenStore, codec: Codec, now: int, first: int, second: int, newId: string, faults: UserTokens.Faults)
    requires UniqueUsers(store)
    requires SaveRefreshToken(tk, u, store, codec, now, first, second, newId, faults).error.None?
    ensures var r := SaveRefreshToken(tk, u, store, codec, now, first, second, newId, faults);
            var userId := FromHex(u.id).value;
            && UniqueUsers(r.store)
            && FindByUser(r.store, userId).Some?
            && r.store[FindByUser(r.store, userId).value].token == GetToken(u, true, now, codec).value
            && r.store[FindByUser(r.store, userId).value].expirationDate == Millis(now + 7 * Day)
  {
    var r := SaveRefreshToken(tk, u, store, codec, now, first, second, newId, faults);
    var userId := FromHex(u.id).value;
    match FindByUser(store, userId)
    case None =>
      assert r.store[|store|].userId == userId;
    case Some(i) =>
      assert r.store[i].userId == userId;
      assert forall j :: 0 <= j < |store| && j != i ==> r.store[j] == store[j];
  }

  /** The two versions store the same new record when the receiver already
      carries the seven-day expiry. */
  lemma SaveRefreshTokenAgreesOnInsert(tk: Token, u: Info, store: TokenStore, codec: Codec, now: int, first: int, second: int, newId: string, faults: UserTokens.Faults)
    requires FromHex(u.id).Some? && FindByUser(store, FromHex(u.id).value).None?
    requires tk.expirationDate == Millis(now + Ttl(true))
    ensures SaveRefreshTokenAsWritten(tk, u, store, codec, now, first, second, newId, faults)
            == SaveRefreshToken(tk, u, store, codec, now, first, second, newId, faults)
  {
  }
}
