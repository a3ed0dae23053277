/** The decision trees of the session and profile handlers of
    controllers/users/users_controller.go. Each handler is a function from the
    request, the stores and the answers of the calls it makes to what the
    client receives. */
module UsersController {
  import opened Wrappers
  import opened ObjectIds
  import opened Users
  import opened Clock
  import opened Claims
  import opened Http
  import Strings
  import UserRepository
  import UserTokens
  import JobRepository

  /** The JSON bodies these handlers write. `Auth` is `users.AuthResponse`. */
  datatype Body =
    | Error(message: string)
    | Auth(accessToken: string, success: bool, userInfo: UserInfo, expirationDate: int)
    | Authorized(isAuthorized: bool)
    | UserNameUpdated(userName: string)
    | Profile(profile: PublicProfile)
    | Success

  /** `UserProfileResponse` as `GetPublicUserProfile` fills it. */
  datatype PublicProfile = PublicProfile(
    id: string,
    email: string,
    userName: string,
    firstName: string,
    lastName: string,
    city: string,
    state: string,
    links: Option<seq<UserLink>>,
    isEmailConfirmed: bool,
    isPublic: bool,
    profileViews: int,
    profileImageUrl: string)

  /** The zero `users.AuthResponse{}`. */
  const NoAuth: Body := Auth("", false, NoUserInfo, 0)

  /** The handler's writes and cookie, or the 500 of gin's recovery after a panic. */
  datatype Reply = Reply(writes: seq<Write<Body>>, cookie: Cookie) | Recovered

  function Answer(status: int, body: Body): Reply {
    Reply([Write(status, body)], Untouched)
  }

  /** The status the client receives. */
  function Status(r: Reply): int {
    if r.Recovered? then InternalServerError else StatusOf(r.writes)
  }

  const CannotAuthenticate: string := "Não foi possível autenticar o usuário"
  const UserNotFound: string := "Usuário não encontrado"
  const EmailNotConfirmed: string := "Usuário não confirmou o e-mail"
  const NoSession: string := "Erro ao recuperar informações do usuário conectado"
  const NotAuthenticated: string := "Usuário não autenticado"
  const NotAuthorized: string := "Usuário não autorizado"
  const UserNameMissing: string := "Nome de usuário não informado"
  const UserNameInvalid: string := "Nome de usuário inválido. Somete use letras e números; não use espaço e deve ter no mínimo 3 caracteres. Por favor, escolha outro."
  const UserNameTaken: string := "Nome de usuário já em uso. Por favor, escolha outro."
  const ProfileNameMissing: string := "Nome do usuário não informado"
  const TokenMissing: string := "Token não informado"
  const PasswordMissing: string := "Senha não informada"
  const EmailMissing: string := "E-mail não informado"
  const InvalidToken: string := "Token inválido"

  /** `SetTokenCookie`: the token with, as max-age, the expiry's Unix time. */
  function TokenCookie(rec: UserTokens.UserToken): (c: Cookie)
    ensures c.SetCookie? && c.value == rec.token && c.maxAge == rec.expirationDate / 1000
  {
    UnixOfMillis(FromMillis(rec.expirationDate));
    SetCookie(rec.token, Unix(FromMillis(rec.expirationDate)))
  }

  // ---- Login -------------------------------------------------------------------------

  /** The identity `Login` builds from the stored user: the address lower-cased
      and no links. */
  function SessionInfo(u: User): (info: UserInfo)
    ensures info.id == u.id && info.email == Strings.ToLower(u.email) && info.links.None?
  {
    UserInfo(u.id, u.firstName, u.lastName, Strings.ToLower(u.email), None, u.userName, u.profileImageUrl, "", "", "")
  }

  /** The clock readings of one `Login`: the access token's base and stamps,
      and those of the refresh token it saves. */
  datatype LoginClock = LoginClock(issue: int, created: int, updated: int, refresh: UserTokens.Readings)

  /** The store errors of one `Login`, per call. */
  datatype LoginFaults = LoginFaults(auth: UserRepository.Faults, lookup: UserRepository.Faults, refresh: UserTokens.Faults)

  /** `Login`: the reply and the refresh-token store afterwards. */
  function Login(email: string, password: string, users: UserRepository.UserStore, hash: (string, string) -> Result<string, string>,
                 codec: Codec, tokens: UserTokens.TokenStore, at: LoginClock, newTokenId: ObjectId, faults: LoginFaults): (r: (Reply, UserTokens.TokenStore))
    ensures r.0.Reply? && |r.0.writes| == 1
    ensures Status(r.0) == OK ==>
              && UserRepository.IsAuthenticated(email, password, users, hash, faults.auth) == Ok(true)
              && UserRepository.GetUserByEmail(email, users, faults.lookup).Ok?
              && UserRepository.GetUserByEmail(email, users, faults.lookup).value.isEmailConfirmed
              && r.0.writes[0].body.Auth? && r.0.writes[0].body.success
    ensures Status(r.0) != OK ==> r.1 == tokens
  {
    match UserRepository.IsAuthenticated(email, password, users, hash, faults.auth)
    case Err(e) => (Answer(InternalServerError, Error(e)), tokens)
    case Ok(authenticated) =>
      if !authenticated then (Answer(Unauthorized, Error(CannotAuthenticate)), tokens)
      else
        match UserRepository.GetUserByEmail(email, users, faults.lookup)
        case Err(e) => (Answer(InternalServerError, Error(e)), tokens)
        case Ok(u) =>
          if u.email == "" then (Answer(Unauthorized, Error(UserNotFound)), tokens)
          else if !u.isEmailConfirmed then (Answer(Unauthorized, Error(EmailNotConfirmed)), tokens)
          else
            var info := SessionInfo(u);
            var (rec, err) := UserTokens.SetToken(UserTokens.NoToken.(id := u.id), info, at.issue, codec, at.created, at.updated);
            if err.Some? then (Answer(InternalServerError, Error(err.value)), tokens)
            else
              var (tokens', saveErr) := UserTokens.SaveRefreshToken(info, tokens, codec, at.refresh, newTokenId, faults.refresh);
              if saveErr.Some? then (Reply([Write(InternalServerError, Error(saveErr.value))], TokenCookie(rec)), tokens)
              else (Reply([Write(OK, Auth(rec.token, true, info, rec.expirationDate))], TokenCookie(rec)), tokens')
  }

  const NoFaults: UserRepository.Faults := UserRepository.Faults(None, None, None)

  /** The order of `Login`'s refusals when the store answers: an unknown
      address is 401, a wrong password is an error from `IsAuthenticated` and
      so 500, an unconfirmed address is 401. */
  lemma LoginRefusals(email: string, password: string, users: UserRepository.UserStore, hash: (string, string) -> Result<string, string>,
                      codec: Codec, tokens: UserTokens.TokenStore, at: LoginClock, newTokenId: ObjectId, refresh: UserTokens.Faults)
    ensures var faults := LoginFaults(NoFaults, NoFaults, refresh);
            var r := Login(email, password, users, hash, codec, tokens, at, newTokenId, faults).0;
            var i := UserRepository.FindByEmail(users, email);
            && (i.None? ==> r == Answer(Unauthorized, Error(CannotAuthenticate)))
            && (i.Some? && users[i.value].email != "" && hash(password, users[i.value].salt).Ok?
                && hash(password, users[i.value].salt).value != users[i.value].password
                ==> r == Answer(InternalServerError, Error(UserRepository.NotFound)))
            && (i.Some? && users[i.value].email != "" && hash(password, users[i.value].salt) == Ok(users[i.value].password)
                && !users[i.value].isEmailConfirmed
                ==> r == Answer(Unauthorized, Error(EmailNotConfirmed)))
  {
    UserRepository.IsAuthenticatedDecision(email, password, users, hash, NoFaults);
  }

  /** A successful login hands out an access token that carries the session
      identity, with the address lower-cased, until the reported expiry, and
      leaves a refresh record that `SetRefreshToken` finds again. */
  lemma LoginIssuesSession(email: string, password: string, users: UserRepository.UserStore, hash: (string, string) -> Result<string, string>,
                           codec: Codec, tokens: UserTokens.TokenStore, at: LoginClock, newTokenId: ObjectId, faults: LoginFaults, later: int)
    requires Sound(codec)
    requires Status(Login(email, password, users, hash, codec, tokens, at, newTokenId, faults).0) == OK
    ensures var (r, tokens') := Login(email, password, users, hash, codec, tokens, at, newTokenId, faults);
            var body := r.writes[0].body;
            var u := UserRepository.GetUserByEmail(email, users, faults.lookup).value;
            && body.userInfo == SessionInfo(u)
            && body.userInfo.email == Strings.ToLower(email)
            && r.cookie == SetCookie(body.accessToken, body.expirationDate / 1000)
            && (later < (body.expirationDate / 1000) * Second ==>
                  UserTokens.GetUserInfoFromTokenString(body.accessToken, codec, later) == Returned(UserTokens.ClaimView(SessionInfo(u))))
            && UserTokens.SetRefreshToken(UserTokens.NoToken.(userId := u.id), tokens', None).0.token
               == UserTokens.RefreshToken(SessionInfo(u), codec, at.refresh).token
  {
    var u := UserRepository.GetUserByEmail(email, users, faults.lookup).value;
    var info := SessionInfo(u);
    var rec0 := UserTokens.NoToken.(id := u.id);
    var expiry := UserTokens.AccessExpiry(at.issue);
    assert UserTokens.SetToken(rec0, info, at.issue, codec, at.created, at.updated)
           == UserTokens.SetAuthenticationToken(rec0, info, expiry, codec, at.created, at.updated);
    UserTokens.IssuedTokenReadsBack(rec0, info, expiry, codec, at.created, at.updated, later);
    UserTokens.IssuedTokenAccepted(rec0, info, expiry, codec, at.created, at.updated, later);
    UnixOfMillis(expiry);
    Strings.ToLowerIdempotent(email);
    UserTokens.SaveThenSetRefreshToken(info, tokens, codec, at.refresh, newTokenId, faults.refresh, UserTokens.NoToken.(userId := u.id));
  }

  // ---- RefreshToken ------------------------------------------------------------------

  /** The clock readings of one `RefreshToken`: the parse, the expiry check,
      and the new access token's base and stamps. */
  datatype RefreshClock = RefreshClock(parse: int, check: int, issue: int, created: int, updated: int)

  /** `RefreshToken`: `lookup` is the store error of `SetRefreshToken`. */
  function RefreshSession(cookie: string, header: string, codec: Codec, tokens: UserTokens.TokenStore, lookup: Option<string>, at: RefreshClock): (r: Reply)
    ensures cookie == "" && header == "" ==> r == Answer(Unauthorized, NoAuth)
    ensures r.Reply? ==> |r.writes| == 1
    ensures Status(r) == OK ==> r.writes[0].body.Auth?
                                && UserTokens.ExtractUserInfoForTokenRefresh(cookie, header, codec, at.parse) == Returned(r.writes[0].body.userInfo)
                                && !IsZero(r.writes[0].body.userInfo.id)
                                && lookup.None?
                                && UserTokens.FindByUser(tokens, r.writes[0].body.userInfo.id).Some?
    ensures r.Reply? && r.cookie.Deleted? ==> Status(r) == Unauthorized
  {
    match UserTokens.ExtractUserInfoForTokenRefresh(cookie, header, codec, at.parse)
    case Panicked => Recovered
    case Failed(e) => Answer(InternalServerError, Error(e))
    case Returned(u) =>
      if IsZero(u.id) then Answer(Unauthorized, NoAuth)
      else
        var (stored, err) := UserTokens.SetRefreshToken(UserTokens.NoToken.(userId := u.id), tokens, lookup);
        if err.Some? then Answer(InternalServerError, Error(err.value))
        else if stored.token == "" then Answer(Unauthorized, NoAuth)
        else if FromMillis(stored.expirationDate) < at.check then Reply([Write(Unauthorized, NoAuth)], Deleted)
        else
          var (rec, err2) := UserTokens.SetToken(UserTokens.NoToken.(id := stored.id, userId := stored.userId), u, at.issue, codec, at.created, at.updated);
          if err2.Some? then Answer(InternalServerError, Error(err2.value))
          else Reply([Write(OK, Auth(rec.token, true, u, rec.expirationDate))], TokenCookie(rec))
  }

  /** A stored refresh record past its expiry deletes the cookie and answers
      401; the record itself is left in place. */
  lemma ExpiredRecordClearsCookie(cookie: string, header: string, codec: Codec, tokens: UserTokens.TokenStore, at: RefreshClock, u: UserInfo, i: nat)
    requires UserTokens.ExtractUserInfoForTokenRefresh(cookie, header, codec, at.parse) == Returned(u) && !IsZero(u.id)
    requires UserTokens.FindByUser(tokens, u.id) == Some(i)
    requires tokens[i].token != "" && FromMillis(tokens[i].expirationDate) < at.check
    ensures RefreshSession(cookie, header, codec, tokens, None, at) == Reply([Write(Unauthorized, NoAuth)], Deleted)
  {
  }

  /** The presented token is decoded without its verdict, and nothing compares
      it with the stored record: a token whose signature fails still gets a
      fresh access token for the identity written in it, as long as that user
      has a live refresh record. */
  lemma UnverifiedTokenRefreshes(cookie: string, codec: Codec, tokens: UserTokens.TokenStore, at: RefreshClock,
                                 reason: string, victim: UserInfo, expiry: int, i: nat)
    requires cookie != "" && !IsZero(victim.id)
    requires codec.parse(cookie, at.parse) == Rejected(reason, UserTokens.ClaimsOf(victim, expiry))
    requires UserTokens.FindByUser(tokens, victim.id) == Some(i)
    requires tokens[i].token != "" && !(FromMillis(tokens[i].expirationDate) < at.check)
    requires codec.sign(UserTokens.ClaimsOf(UserTokens.ClaimView(victim), UserTokens.AccessExpiry(at.issue))).Ok?
    ensures var r := RefreshSession(cookie, "", codec, tokens, None, at);
            Status(r) == OK && r.writes[0].body.userInfo == UserTokens.ClaimView(victim)
  {
    UserTokens.RejectedTokenStillDecoded(cookie, codec, at.parse, reason, victim, expiry);
  }

  // ---- IsAuthorized ------------------------------------------------------------------

  /** The loop of `IsAuthorized`: whether some requested role passes the user
      check. */
  function AnyRolePasses(user: User, roles: seq<string>, check: (User, string) -> bool): (b: bool)
    ensures b <==> exists i :: 0 <= i < |roles| && check(user, roles[i])
  {
    if roles == [] then false
    else if check(user, roles[0]) then true
    else
      var rest := AnyRolePasses(user, roles[1..], check);
      assert forall i :: 0 < i < |roles| ==> roles[i] == roles[1..][i - 1];
      rest
  }

  /** `IsAuthorized`: `session` is the identity the authentication middleware
      stored (`None` when it stored none), `check` is `User.IsAuthorized`. */
  function IsAuthorized(session: Option<UserInfo>, roles: seq<string>, users: UserRepository.UserStore,
                        faults: UserRepository.Faults, check: (User, string) -> bool): (r: Reply)
    ensures session.None? ==> r == Answer(InternalServerError, Error(NoSession))
    ensures r.Reply? && |r.writes| == 1
    ensures Status(r) == OK ==> r.writes[0].body.Authorized? && session.Some?
                                && exists u :: u in users && u.id == session.value.id && u.email != ""
                                               && (r.writes[0].body.isAuthorized <==> exists i :: 0 <= i < |roles| && check(u, roles[i]))
  {
    match session
    case None => Answer(InternalServerError, Error(NoSession))
    case Some(info) =>
      if IsZero(info.id) then Answer(Unauthorized, Error(NotAuthenticated))
      else
        match UserRepository.GetUserById(info.id, users, faults)
        case Err(e) => Answer(InternalServerError, Error(e))
        case Ok(u) =>
          if u.email == "" then Answer(Unauthorized, Error(UserNotFound))
          else if info.id != u.id then Answer(Unauthorized, Error(NotAuthorized))
          else Answer(OK, Authorized(AnyRolePasses(u, roles, check)))
  }

  /** An empty role list is never authorized. */
  lemma NoRolesNotAuthorized(session: Option<UserInfo>, users: UserRepository.UserStore, faults: UserRepository.Faults, check: (User, string) -> bool)
    requires Status(IsAuthorized(session, [], users, faults, check)) == OK
    ensures IsAuthorized(session, [], users, faults, check).writes[0].body == Authorized(false)
  {
  }

  // ---- UpdateUserName -----------------------------------------------------------------

  /** `UpdateUserName`: `valid` is `IsUserNameValid`, `taken` the answer of
      `UserNameAlreadyExists` and `rename` what `User.UpdateUserName` makes of
      the store; the user is read again afterwards. */
  function UpdateUserName(session: Option<UserInfo>, userName: string, users: UserRepository.UserStore, faults: UserRepository.Faults,
                          valid: string -> bool, taken: Result<bool, string>,
                          rename: (UserRepository.UserStore, ObjectId, string) -> Result<UserRepository.UserStore, string>): (r: (Reply, UserRepository.UserStore))
    ensures Status(r.0) != OK ==> r.1 == users || (session.Some? && rename(users, session.value.id, userName).Ok?)
    ensures Status(r.0) == BadRequest ==> r.1 == users && (userName == "" || !valid(userName) || taken == Ok(true))
    ensures Status(r.0) == OK ==> session.Some? && userName != "" && valid(userName) && taken == Ok(false)
                                  && rename(users, session.value.id, userName).Ok? && r.1 == rename(users, session.value.id, userName).value
  {
    match session
    case None => (Answer(InternalServerError, Error(NoSession)), users)
    case Some(info) =>
      if IsZero(info.id) then (Answer(Unauthorized, Error(NotAuthenticated)), users)
      else
        match UserRepository.GetUserById(info.id, users, faults)
        case Err(e) => (Answer(InternalServerError, Error(e)), users)
        case Ok(_) =>
          if userName == "" then (Answer(BadRequest, Error(UserNameMissing)), users)
          else if !valid(userName) then (Answer(BadRequest, Error(UserNameInvalid)), users)
          else
            match taken
            case Err(e) => (Answer(InternalServerError, Error(e)), users)
            case Ok(exists_) =>
              if exists_ then (Answer(BadRequest, Error(UserNameTaken)), users)
              else
                match rename(users, info.id, userName)
                case Err(e) => (Answer(InternalServerError, Error(e)), users)
                case Ok(users') =>
                  match UserRepository.GetUserById(info.id, users', faults)
                  case Err(e) => (Answer(InternalServerError, Error(e)), users')
                  case Ok(u') => (Answer(OK, UserNameUpdated(u'.userName)), users')
  }

  /** The checks come in order: an empty name is reported as missing whatever
      the validator and the uniqueness lookup would say, an invalid name as
      invalid whatever the lookup says. */
  lemma UserNameChecksInOrder(info: UserInfo, userName: string, users: UserRepository.UserStore, faults: UserRepository.Faults,
                              valid: string -> bool, taken: Result<bool, string>,
                              rename: (UserRepository.UserStore, ObjectId, string) -> Result<UserRepository.UserStore, string>)
    requires !IsZero(info.id) && faults.connect.None?
    ensures var r := UpdateUserName(Some(info), userName, users, faults, valid, taken, rename).0;
            && (userName == "" ==> r == Answer(BadRequest, Error(UserNameMissing)))
            && (userName != "" && !valid(userName) ==> r == Answer(BadRequest, Error(UserNameInvalid)))
            && (userName != "" && valid(userName) && taken == Ok(true) ==> r == Answer(BadRequest, Error(UserNameTaken)))
  {
  }

  // ---- GetPublicUserProfile -----------------------------------------------------------

  /** The response of a public profile: the address and the view count are
      left at their zero values. */
  function ProfileOf(u: User): (p: PublicProfile)
    ensures p.email == "" && p.profileViews == 0 && p.id == u.id && p.userName == u.userName && p.isPublic == u.isPublic
  {
    PublicProfile(u.id, "", u.userName, u.firstName, u.lastName, u.city, u.state, u.links, u.isEmailConfirmed, u.isPublic, 0, u.profileImageUrl)
  }

  /** `GetPublicUserProfile`: `lookup` is the answer of `GetUserByUserName`;
      the second component says whether `IncrementProfileViews` was called. */
  function GetPublicUserProfile(userName: string, lookup: Result<User, string>): (r: (Reply, bool))
    ensures r.0.Reply? && |r.0.writes| == 1
    ensures r.1 <==> Status(r.0) == OK
    ensures Status(r.0) == OK ==> lookup.Ok? && lookup.value.isPublic && r.0.writes[0].body.Profile?
                                  && r.0.writes[0].body.profile.email == "" && r.0.writes[0].body.profile.id == lookup.value.id
    ensures userName != "" && lookup.Ok? && !lookup.value.isPublic ==> r == (Answer(Unauthorized, Error(NotAuthorized)), false)
  {
    if userName == "" then (Answer(BadRequest, Error(ProfileNameMissing)), false)
    else
      match lookup
      case Err(e) => (Answer(InternalServerError, Error(e)), false)
      case Ok(u) =>
        if !u.isPublic then (Answer(Unauthorized, Error(NotAuthorized)), false)
        else (Answer(OK, Profile(ProfileOf(u))), true)
  }

  // ---- password reset -----------------------------------------------------------------

  /** What `RequestPasswordReset` did: its writes (a success writes none), the
      store, and whom a recovery mail goes to. */
  datatype ResetRequest = ResetRequest(writes: seq<Write<Body>>, users: UserRepository.UserStore, mailTo: Option<string>)

  /** `RequestPasswordReset`: `draws` are the 32 draws of
      `GenerateValidationToken`. The missing-address 400 does not return. */
  function RequestPasswordReset(email: string, users: UserRepository.UserStore, lookup: UserRepository.Faults,
                                draws: seq<nat>, write: UserRepository.Faults): (r: ResetRequest)
    requires |draws| == 32 && forall i :: 0 <= i < 32 ==> draws[i] < 62
    ensures email == "" ==> |r.writes| > 0 && r.writes[0] == Write(BadRequest, Error(EmailMissing))
    ensures r.mailTo.Some? ==> |r.writes| == (if email == "" then 1 else 0)
    ensures r.mailTo.None? ==> r.users == users
  {
    var missing := if email == "" then [Write(BadRequest, Error(EmailMissing))] else [];
    match UserRepository.GetUserByEmail(email, users, lookup)
    case Err(e) => ResetRequest(missing + [Write(InternalServerError, Error(e))], users, None)
    case Ok(u) =>
      if u.email == "" then ResetRequest(missing + [Write(OK, Success)], users, None)
      else
        var u' := u.(validationToken := JobRepository.ValidationToken(draws));
        var (users', err) := UserRepository.UpdateValidationToken(u', users, write);
        if err.Some? then ResetRequest(missing + [Write(InternalServerError, Error(err.value))], users, None)
        else ResetRequest(missing, users', Some(u.email))
  }

  /** An unknown address answers success and changes nothing; a known one gets
      a fresh 32-character token stored on its record and a mail. */
  lemma PasswordResetRequestIff(email: string, users: UserRepository.UserStore, draws: seq<nat>, i: nat)
    requires |draws| == 32 && forall k :: 0 <= k < 32 ==> draws[k] < 62
    requires email != "" && UserRepository.UniqueIds(users)
    ensures var r := RequestPasswordReset(email, users, NoFaults, draws, NoFaults);
            && (UserRepository.FindByEmail(users, email).None? ==> r == ResetRequest([Write(OK, Success)], users, None))
            && (UserRepository.FindByEmail(users, email) == Some(i) && users[i].email != "" ==>
                  r.writes == [] && r.mailTo == Some(users[i].email)
                  && r.users[i].validationToken == JobRepository.ValidationToken(draws)
                  && |r.users[i].validationToken| == 32)
  {
    var found := UserRepository.FindByEmail(users, email);
    if found == Some(i) && users[i].email != "" {
      var r := RequestPasswordReset(email, users, NoFaults, draws, NoFaults);
      assert UserRepository.GetUserByEmail(email, users, NoFaults) == Ok(users[i]);
    }
  }

  /** What `ResetPassword` did: its writes and the user whose password was
      replaced, if any. */
  datatype PasswordReset = PasswordReset(writes: seq<Write<Body>>, changed: Option<ObjectId>)

  /** The store errors of one `ResetPassword`: the token lookup, then the
      `UpdatePassword` and `ResetValidationToken` writes. */
  datatype ResetFaults = ResetFaults(lookup: UserRepository.Faults, update: Option<string>, clear: Option<string>)

  /** The part of `ResetPassword` after the field checks. */
  function ResetWithToken(token: string, users: UserRepository.UserStore, faults: ResetFaults): (r: PasswordReset)
    ensures r.changed.Some? ==> exists u :: u in users && u.id == r.changed.value && u.validationToken == token && u.email != ""
    ensures |r.writes| == 1
  {
    match UserRepository.GetUserByValidationToken(token, users, faults.lookup)
    case Err(e) => PasswordReset([Write(InternalServerError, Error(e))], None)
    case Ok(u) =>
      if u.email == "" then PasswordReset([Write(NotFound, Error(InvalidToken))], None)
      else if faults.update.Some? then PasswordReset([Write(InternalServerError, Error(faults.update.value))], None)
      else if faults.clear.Some? then PasswordReset([Write(InternalServerError, Error(faults.clear.value))], Some(u.id))
      else PasswordReset([Write(OK, Success)], Some(u.id))
  }

  /** `ResetPassword` as written: the two 400 replies for a missing token or
      password do not return, so the lookup by token runs anyway. */
  function ResetPasswordAsWritten(token: string, password: string, users: UserRepository.UserStore, faults: ResetFaults): (r: PasswordReset)
    ensures token == "" ==> |r.writes| > 0 && r.writes[0] == Write(BadRequest, Error(TokenMissing))
  {
    var checks := (if token == "" then [Write(BadRequest, Error(TokenMissing))] else [])
                  + (if password == "" then [Write(BadRequest, Error(PasswordMissing))] else []);
    var rest := ResetWithToken(token, users, faults);
    PasswordReset(checks + rest.writes, rest.changed)
  }

  /** With an empty token the client is told 400, yet the password of the
      first user whose validation token is empty — any user without a pending
      confirmation or reset — is replaced with the one sent. */
  lemma EmptyTokenResetsAnotherAccount(victim: User, password: string)
    requires victim.validationToken == "" && victim.email != "" && password != ""
    ensures var r := ResetPasswordAsWritten("", password, [victim], ResetFaults(NoFaults, None, None));
            && Status(Reply(r.writes, Untouched)) == BadRequest
            && r.changed == Some(victim.id)
  {
    assert UserRepository.GetUserByValidationToken("", [victim], NoFaults) == Ok(victim);
  }

  /** `ResetPassword` returning after each 400, as the replies intend. */
  function ResetPassword(token: string, password: string, users: UserRepository.UserStore, faults: ResetFaults): (r: PasswordReset)
    ensures |r.writes| == 1
  {
    if token == "" then PasswordReset([Write(BadRequest, Error(TokenMissing))], None)
    else if password == "" then PasswordReset([Write(BadRequest, Error(PasswordMissing))], None)
    else ResetWithToken(token, users, faults)
  }

  /** A password is replaced only for a non-empty password and a non-empty
      token that is the user's own validation token; given both, the handler
      behaves as written. */
  lemma ResetPasswordNeedsToken(token: string, password: string, users: UserRepository.UserStore, faults: ResetFaults)
    ensures var r := ResetPassword(token, password, users, faults);
            r.changed.Some? ==> token != "" && password != ""
                                && exists u :: u in users && u.id == r.changed.value && u.validationToken == token
    ensures Status(Reply(ResetPassword(token, password, users, faults).writes, Untouched)) == OK
            <==> token != "" && password != "" && ResetWithToken(token, users, faults).writes[0] == Write(OK, Success)
    ensures token != "" && password != "" ==> ResetPassword(token, password, users, faults) == ResetPasswordAsWritten(token, password, users, faults)
  {
    if token != "" && password != "" {
      assert [] + ResetWithToken(token, users, faults).writes == ResetWithToken(token, users, faults).writes;
    }
  }
}
